/** Model of Tools/DataShapingTool.cs: validating a caller's comma-separated
    field list against a type's public properties, and projecting entities
    down to the selected properties. An entity is its sequence of
    (property name, value) pairs in declaration order; a shaped object (the
    ExpandoObject) is a sequence of (key, value) pairs in insertion order.
    Reflection over a type is the function getProperties. */
module DataShapingTool {
  import opened Wrappers
  import opened Text

  /** A type, identified by its name. */
  type TypeName = string

  /** The parts left by `Split(',', RemoveEmptyEntries)`, each trimmed. */
  function TrimmedEntries(parts: seq<string>): (r: seq<string>)
    ensures |r| <= |parts|
  {
    if parts == [] then []
    else (if parts[0] == "" then [] else [Trim(parts[0])]) + TrimmedEntries(parts[1..])
  }

  /** The requested names in the order written; the HashSet built from them
      with the OrdinalIgnoreCase comparer contains exactly the names equal to
      one of these, ignoring case. A null `fields` gives no names. */
  function FieldItems(fields: Option<string>): seq<string> {
    if fields.None? then [] else TrimmedEntries(Split(fields.value, ','))
  }

  /** `fieldSet.Contains(name)` for the case-insensitive set built from the items. */
  predicate Requested(items: seq<string>, name: string) {
    exists i :: 0 <= i < |items| && EqualsIgnoreCase(items[i], name)
  }

  /** Some declared property name equals the field, ignoring case. */
  predicate Declared(properties: seq<string>, field: string) {
    exists i :: 0 <= i < |properties| && EqualsIgnoreCase(properties[i], field)
  }

  /** Validate<T>(fields) for a type whose public properties are `properties`:
      true for a null or blank `fields`; otherwise every trimmed item of the
      empty-entry-removing split must name a property, ignoring case. */
  predicate ValidFields(properties: seq<string>, fields: Option<string>) {
    IsNullOrWhiteSpace(fields)
    || forall i :: 0 <= i < |FieldItems(fields)| ==> Declared(properties, FieldItems(fields)[i])
  }

  /** The properties whose names are requested, in declaration order. */
  function FilterRequested(properties: seq<string>, items: seq<string>): (r: seq<string>)
    ensures |r| <= |properties|
    ensures forall x :: x in r <==> x in properties && Requested(items, x)
  {
    if properties == [] then []
    else (if Requested(items, properties[0]) then [properties[0]] else [])
         + FilterRequested(properties[1..], items)
  }

  /** The positions of the requested properties, in increasing order. */
  function RequestedPositions(properties: seq<string>, items: seq<string>): (idx: seq<nat>)
    ensures forall k :: 0 <= k < |idx| ==> idx[k] < |properties|
    ensures forall k, l :: 0 <= k < l < |idx| ==> idx[k] < idx[l]
  {
    if properties == [] then []
    else
      var rest := RequestedPositions(properties[1..], items);
      var shifted := seq(|rest|, k requires 0 <= k < |rest| => rest[k] + 1);
      (if Requested(items, properties[0]) then [0] else []) + shifted
  }

  /** The filtered properties are a subsequence of the declared ones: the
      k-th kept property sits at the k-th of a strictly increasing list of
      positions, so declaration order is kept. */
  lemma {:induction false} FilterInDeclarationOrder(properties: seq<string>, items: seq<string>)
    ensures var r := FilterRequested(properties, items);
      var idx := RequestedPositions(properties, items);
      |idx| == |r| && forall k :: 0 <= k < |r| ==> properties[idx[k]] == r[k]
  {
    if properties != [] {
      var tail := properties[1..];
      FilterInDeclarationOrder(tail, items);
      var r' := FilterRequested(tail, items);
      var rest := RequestedPositions(tail, items);
      ShiftedPositions(properties, Requested(items, properties[0]), r', rest);
    }
  }

  /** Positions in the tail, moved one place on, are positions in the whole. */
  lemma ShiftedPositions(properties: seq<string>, keepHead: bool, r: seq<string>, rest: seq<nat>)
    requires properties != [] && |r| == |rest|
    requires forall k :: 0 <= k < |rest| ==> rest[k] < |properties| - 1 && properties[1..][rest[k]] == r[k]
    ensures var shifted := seq(|rest|, k requires 0 <= k < |rest| => rest[k] + 1);
      var idx := (if keepHead then [0] else []) + shifted;
      var all := (if keepHead then [properties[0]] else []) + r;
      |idx| == |all| && forall k :: 0 <= k < |all| ==> properties[idx[k]] == all[k]
  {
    var shifted := seq(|rest|, k requires 0 <= k < |rest| => rest[k] + 1);
    var d := if keepHead then 1 else 0;
    var idx := (if keepHead then [0] else []) + shifted;
    var all := (if keepHead then [properties[0]] else []) + r;
    forall k | 0 <= k < |all| ensures properties[idx[k]] == all[k] {
      if k >= d {
        assert idx[k] == rest[k - d] + 1 && all[k] == r[k - d];
        assert properties[rest[k - d] + 1] == properties[1..][rest[k - d]];
      }
    }
  }

  /** GetPropertyInfos<T>(fields): every property when no name is requested,
      otherwise the requested ones in declaration order. */
  function SelectedProperties(properties: seq<string>, fields: Option<string>): seq<string> {
    var items := FieldItems(fields);
    if |items| == 0 then properties else FilterRequested(properties, items)
  }

  /** `shapedObject[key] = value` on an ExpandoObject: replace the value of an
      existing key in place, or append a new key. */
  function Put<V>(obj: seq<(string, V)>, key: string, value: V): (r: seq<(string, V)>)
    ensures |obj| <= |r| <= |obj| + 1
    ensures forall i :: 0 <= i < |obj| && obj[i].0 != key ==> r[i] == obj[i]
  {
    if obj == [] then [(key, value)]
    else if obj[0].0 == key then [(key, value)] + obj[1..]
    else [obj[0]] + Put(obj[1..], key, value)
  }

  /** The property names of an entity, in declaration order. */
  function Names<V>(entity: seq<(string, V)>): (r: seq<string>)
    ensures |r| == |entity| && forall i :: 0 <= i < |entity| ==> r[i] == entity[i].0
  {
    seq(|entity|, i requires 0 <= i < |entity| => entity[i].0)
  }

  /** `propertyInfo.GetValue(entity)`: the value of the named property. */
  function ValueOf<V>(entity: seq<(string, V)>, name: string): V
    requires name in Names(entity)
  {
    if entity[0].0 == name then entity[0].1
    else
      assert Names(entity) == [entity[0].0] + Names(entity[1..]);
      ValueOf(entity[1..], name)
  }

  /** The object ShapeData builds: each property in turn assigned its value. */
  function Shape<V>(entity: seq<(string, V)>, properties: seq<string>): seq<(string, V)>
    requires forall i :: 0 <= i < |properties| ==> properties[i] in Names(entity)
  {
    if properties == [] then []
    else
      var last := properties[|properties| - 1];
      Put(Shape(entity, properties[..|properties| - 1]), last, ValueOf(entity, last))
  }

  predicate Distinct(names: seq<string>) {
    forall i, j :: 0 <= i < j < |names| ==> names[i] != names[j]
  }

  lemma {:induction false} PutNewKey<V>(obj: seq<(string, V)>, key: string, value: V)
    requires key !in Names(obj)
    ensures Put(obj, key, value) == obj + [(key, value)]
  {
    if obj != [] {
      var rest := obj[1..];
      assert obj[0].0 == Names(obj)[0];
      assert key !in Names(rest) by {
        forall i | 0 <= i < |rest| ensures Names(rest)[i] != key {
          assert Names(rest)[i] == Names(obj)[i + 1];
        }
      }
      PutNewKey(rest, key, value);
      assert Put(obj, key, value) == [obj[0]] + (rest + [(key, value)]);
      assert [obj[0]] + (rest + [(key, value)]) == obj + [(key, value)];
    }
  }

  /** With distinct property names, the shaped object has exactly the selected
      properties in order: keys are the declared names and each value is that
      property's value on the entity. */
  lemma {:induction false} ShapeIsProjection<V>(entity: seq<(string, V)>, properties: seq<string>)
    requires forall i :: 0 <= i < |properties| ==> properties[i] in Names(entity)
    requires Distinct(properties)
    ensures |Shape(entity, properties)| == |properties|
    ensures forall i :: 0 <= i < |properties| ==>
              Shape(entity, properties)[i] == (properties[i], ValueOf(entity, properties[i]))
  {
    if properties != [] {
      var n := |properties| - 1;
      var front := properties[..n];
      ShapeIsProjection(entity, front);
      var s := Shape(entity, front);
      assert Names(s) == front;
      assert properties[n] !in front;
      PutNewKey(s, properties[n], ValueOf(entity, properties[n]));
    }
  }

  /** With no name requested (null, empty, or commas only), every property is selected. */
  lemma NoFieldsSelectsAll(properties: seq<string>, fields: Option<string>)
    requires FieldItems(fields) == []
    ensures SelectedProperties(properties, fields) == properties
  {
  }

  /** With some name requested, exactly the requested properties are selected,
      each at most once, in declaration order. */
  lemma SelectsExactlyRequested(properties: seq<string>, fields: Option<string>)
    requires FieldItems(fields) != []
    ensures var r := SelectedProperties(properties, fields);
      forall x :: x in r <==> x in properties && Requested(FieldItems(fields), x)
    ensures Distinct(properties) ==> Distinct(SelectedProperties(properties, fields))
  {
    if Distinct(properties) {
      FilterKeepsDistinct(properties, FieldItems(fields));
    }
  }

  lemma {:induction false} FilterKeepsDistinct(properties: seq<string>, items: seq<string>)
    requires Distinct(properties)
    ensures Distinct(FilterRequested(properties, items))
  {
    if properties != [] {
      assert Distinct(properties[1..]) by {
        forall i, j | 0 <= i < j < |properties[1..]| ensures properties[1..][i] != properties[1..][j] {
          assert properties[1..][i] == properties[i + 1] && properties[1..][j] == properties[j + 1];
        }
      }
      FilterKeepsDistinct(properties[1..], items);
      assert properties[0] !in properties[1..];
    }
  }

  /** Item lists that request the same names, ignoring case, select the same
      properties: repeated or case-variant names collapse. */
  lemma {:induction false} SameRequestSameSelection(properties: seq<string>, items1: seq<string>, items2: seq<string>)
    requires forall x :: Requested(items1, x) <==> Requested(items2, x)
    ensures FilterRequested(properties, items1) == FilterRequested(properties, items2)
  {
    if properties != [] {
      SameRequestSameSelection(properties[1..], items1, items2);
    }
  }

  /** A name without white space or commas, then a case variant of it, then
      the name again ("id,ID,id") shapes like the name alone ("id"). */
  lemma RepeatedNamesCollapse(properties: seq<string>, f: string, g: string)
    requires PlainName(f) && PlainName(g) && EqualsIgnoreCase(f, g)
    ensures SelectedProperties(properties, Some(f + "," + g + "," + f)) == SelectedProperties(properties, Some(f))
  {
    ItemsOfList(f, g);
    ItemOfName(f);
    VariantsRequestAlike(f, g);
    SameRequestSameSelection(properties, [f, g, f], [f]);
  }

  /** [f, g, f] and [f] request the same names when g is a case variant of f. */
  lemma VariantsRequestAlike(f: string, g: string)
    requires EqualsIgnoreCase(f, g)
    ensures forall x :: Requested([f, g, f], x) <==> Requested([f], x)
  {
    forall x ensures Requested([f, g, f], x) <==> Requested([f], x) {
      if Requested([f, g, f], x) {
        var i :| 0 <= i < 3 && EqualsIgnoreCase([f, g, f][i], x);
        assert EqualsIgnoreCase([f][0], x);
      }
      if Requested([f], x) {
        assert EqualsIgnoreCase([f, g, f][0], x);
      }
    }
  }

  /** A name without white space or commas. */
  predicate PlainName(f: string) {
    |f| > 0 && forall i :: 0 <= i < |f| ==> !IsWhiteSpace(f[i]) && f[i] != ','
  }

  /** A non-empty part that trimming leaves as it is. */
  predicate Trimmed(f: string) {
    f != "" && Trim(f) == f
  }

  /** A plain name is one item, itself. */
  lemma ItemOfName(f: string)
    requires PlainName(f)
    ensures ',' !in f && Trimmed(f)
    ensures FieldItems(Some(f)) == [f]
  {
    assert ',' !in f by {
      forall i | 0 <= i < |f| ensures f[i] != ',' { }
    }
    assert TrimStart(f) == f;
    assert TrimEnd(f) == f;
  }

  lemma ItemsOfList(f: string, g: string)
    requires PlainName(f) && PlainName(g)
    ensures FieldItems(Some(f + "," + g + "," + f)) == [f, g, f]
  {
    ItemOfName(f);
    ItemOfName(g);
    SplitList(f, g);
    PlainItems([f, g, f]);
  }

  lemma SplitList(f: string, g: string)
    requires ',' !in f && ',' !in g
    ensures Split(f + "," + g + "," + f, ',') == [f, g, f]
  {
    var s := f + "," + g + "," + f;
    assert s == f + [','] + (g + [','] + f);
    SplitCons(f, ',', g + [','] + f);
    SplitCons(g, ',', f);
  }

  /** Non-empty, already trimmed parts are the items themselves. */
  lemma {:induction false} PlainItems(parts: seq<string>)
    requires forall i :: 0 <= i < |parts| ==> Trimmed(parts[i])
    ensures TrimmedEntries(parts) == parts
  {
    if parts != [] {
      var rest := parts[1..];
      assert Trimmed(parts[0]);
      PlainItems(rest);
      assert TrimmedEntries(parts) == [parts[0]] + rest;
    }
  }

  /** The whitespace quirk: a non-empty `fields` of white space only passes
      Validate, yet requests the single name "", so no property is selected. */
  lemma BlankFieldsSelectNothing(properties: seq<string>, fields: string)
    requires fields != "" && IsBlank(fields)
    requires forall i :: 0 <= i < |properties| ==> properties[i] != ""
    ensures ValidFields(properties, Some(fields))
    ensures SelectedProperties(properties, Some(fields)) == []
  {
    assert ',' !in fields by {
      forall i | 0 <= i < |fields| ensures fields[i] != ',' {
        assert IsWhiteSpace(fields[i]);
      }
    }
    assert FieldItems(Some(fields)) == [""];
    NothingRequestedByEmptyName(properties);
  }

  lemma {:induction false} NothingRequestedByEmptyName(properties: seq<string>)
    requires forall i :: 0 <= i < |properties| ==> properties[i] != ""
    ensures FilterRequested(properties, [""]) == []
  {
    if properties != [] {
      assert !Requested([""], properties[0]) by {
        assert |ToUpper(properties[0])| != |ToUpper("")|;
      }
      NothingRequestedByEmptyName(properties[1..]);
    }
  }

  /** A string of commas only is not blank, so Validate checks it, finds no
      names, and accepts; every property is then selected. */
  lemma CommasOnlySelectAll(properties: seq<string>)
    ensures ValidFields(properties, Some(","))
    ensures SelectedProperties(properties, Some(",")) == properties
  {
    assert Split(",", ',') == ["", ""] by {
      SplitCons("", ',', "");
    }
    assert FieldItems(Some(",")) == [];
  }

  /** A validated, non-blank request loses no field: every requested name
      selects a property. */
  lemma ValidatedFieldsAreSelected(properties: seq<string>, fields: Option<string>)
    requires ValidFields(properties, fields) && !IsNullOrWhiteSpace(fields)
    ensures forall i :: 0 <= i < |FieldItems(fields)| ==>
              Declared(SelectedProperties(properties, fields), FieldItems(fields)[i])
  {
    var items := FieldItems(fields);
    var sel := SelectedProperties(properties, fields);
    forall i | 0 <= i < |items|
      ensures Declared(sel, items[i])
    {
      var k :| 0 <= k < |properties| && EqualsIgnoreCase(properties[k], items[i]);
      assert sel == FilterRequested(properties, items);
      assert Requested(items, properties[k]) by {
        assert EqualsIgnoreCase(items[i], properties[k]);
      }
      assert properties[k] in sel;
      var j :| 0 <= j < |sel| && sel[j] == properties[k];
      assert EqualsIgnoreCase(sel[j], items[i]);
    }
  }

  /** The tool, with the per-type property cache. */
  class DataShapingTool {
    /** Type.GetProperties(Public | Instance): the public property names of a
        type, in declaration order. */
    const getProperties: TypeName -> seq<string>
    /** _propertiesCache */
    var propertiesCache: map<TypeName, seq<string>>

    /** The cache only ever holds a type's own property list. */
    ghost predicate Valid()
      reads this
    {
      forall t :: t in propertiesCache ==> propertiesCache[t] == getProperties(t)
    }

    constructor (getProperties: TypeName -> seq<string>)
      ensures Valid()
      ensures this.getProperties == getProperties && propertiesCache == map[]
    {
      this.getProperties := getProperties;
      propertiesCache := map[];
    }

    /** `_propertiesCache.GetOrAdd(typeof(T), ...)`: the cached list if there
        is one, otherwise the type's list, which is then cached. Either way a
        type always sees its own property list. */
    method CachedProperties(t: TypeName) returns (properties: seq<string>)
      requires Valid()
      modifies this
      ensures Valid()
      ensures properties == getProperties(t)
      ensures propertiesCache == old(propertiesCache)[t := getProperties(t)]
      ensures t in old(propertiesCache) ==> propertiesCache == old(propertiesCache)
    {
      if t in propertiesCache {
        properties := propertiesCache[t];
      } else {
        properties := getProperties(t);
        propertiesCache := propertiesCache[t := properties];
      }
    }

    /** Validate<T>(fields). A blank `fields` returns before the cache is used. */
    method Validate(t: TypeName, fields: Option<string>) returns (ok: bool)
      requires Valid()
      modifies this
      ensures Valid()
      ensures ok == ValidFields(getProperties(t), fields)
      ensures propertiesCache == old(propertiesCache) || propertiesCache == old(propertiesCache)[t := getProperties(t)]
    {
      if IsNullOrWhiteSpace(fields) {
        return true;
      }
      var fieldSet := FieldItems(fields);
      var properties := CachedProperties(t);
      ok := forall i :: 0 <= i < |fieldSet| ==> Declared(properties, fieldSet[i]);
    }

    /** GetPropertyInfos<T>(fields) */
    method GetPropertyInfos(t: TypeName, fields: Option<string>) returns (properties: seq<string>)
      requires Valid()
      modifies this
      ensures Valid()
      ensures properties == SelectedProperties(getProperties(t), fields)
      ensures propertiesCache == old(propertiesCache)[t := getProperties(t)]
    {
      var fieldSet := FieldItems(fields);
      properties := CachedProperties(t);
      if |fieldSet| > 0 {
        properties := FilterRequested(properties, fieldSet);
      }
    }

    /** ShapeData<T>(entity, fields) for an entity of type t. */
    method ShapeData<V>(t: TypeName, entity: seq<(string, V)>, fields: Option<string>)
      returns (shaped: seq<(string, V)>)
      requires Valid()
      requires Names(entity) == getProperties(t)
      modifies this
      ensures Valid()
      ensures shaped == Shape(entity, SelectedProperties(getProperties(t), fields))
      ensures propertiesCache == old(propertiesCache)[t := getProperties(t)]
    {
      var propertyInfos := GetPropertyInfos(t, fields);
      SelectedAreNames(getProperties(t), fields);
      shaped := FillShape(entity, propertyInfos);
    }

    /** ShapeCollectionData<T>(entities, fields): one shaped object per
        entity, in input order, each as ShapeData would build it. */
    method ShapeCollectionData<V>(t: TypeName, entities: seq<seq<(string, V)>>, fields: Option<string>)
      returns (shapedObjects: seq<seq<(string, V)>>)
      requires Valid()
      requires forall k :: 0 <= k < |entities| ==> Names(entities[k]) == getProperties(t)
      modifies this
      ensures Valid()
      ensures |shapedObjects| == |entities|
      ensures forall k :: 0 <= k < |entities| ==>
                shapedObjects[k] == Shape(entities[k], SelectedProperties(getProperties(t), fields))
      ensures propertiesCache == old(propertiesCache)[t := getProperties(t)]
    {
      shapedObjects := [];
      var propertyInfos := GetPropertyInfos(t, fields);
      SelectedAreNames(getProperties(t), fields);
      forall m | 0 <= m < |entities|
        ensures forall i :: 0 <= i < |propertyInfos| ==> propertyInfos[i] in Names(entities[m])
      {
        assert Names(entities[m]) == getProperties(t);
      }
      var k := 0;
      while k < |entities|
        invariant 0 <= k <= |entities|
        invariant |shapedObjects| == k
        invariant forall m :: 0 <= m < k ==> shapedObjects[m] == Shape(entities[m], propertyInfos)
        modifies {}
      {
        var shapedObject := FillShape(entities[k], propertyInfos);
        shapedObjects := shapedObjects + [shapedObject];
        k := k + 1;
      }
    }
  }

  /** Every selected property is a declared one. */
  lemma SelectedAreNames(properties: seq<string>, fields: Option<string>)
    ensures forall i :: 0 <= i < |SelectedProperties(properties, fields)| ==>
              SelectedProperties(properties, fields)[i] in properties
  {
  }

  /** The inner foreach of ShapeData and ShapeCollectionData: assign every
      property's value to its name, in order. */
  method FillShape<V>(entity: seq<(string, V)>, propertyInfos: seq<string>) returns (shapedObject: seq<(string, V)>)
    requires forall i :: 0 <= i < |propertyInfos| ==> propertyInfos[i] in Names(entity)
    ensures shapedObject == Shape(entity, propertyInfos)
  {
    shapedObject := [];
    var i := 0;
    while i < |propertyInfos|
      invariant 0 <= i <= |propertyInfos|
      invariant shapedObject == Shape(entity, propertyInfos[..i])
    {
      assert propertyInfos[..i + 1][..i] == propertyInfos[..i];
      shapedObject := Put(shapedObject, propertyInfos[i], ValueOf(entity, propertyInfos[i]));
      i := i + 1;
    }
    assert propertyInfos[..i] == propertyInfos;
  }
}
