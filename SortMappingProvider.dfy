/** Model of Database/SortMapping/SortMappingProvider.cs: the registry of sort
    mappings, keyed by a (source, destination) type pair, and the validation of
    a caller's sort string against it. The registered definitions are an
    injected sequence that is never changed. */
module SortMappingProvider {
  import opened Wrappers
  import opened Text

  /** A type, identified by its name. */
  type TypeName = string

  /** SortMapping: a sort field a caller may name, the property it orders by,
      and whether the requested direction is flipped. */
  datatype SortMapping = SortMapping(sortField: string, propertyName: string, reverse: bool)

  /** A registered SortMappingDefinition<TSource, TDestination>. */
  datatype SortMappingDefinition =
    SortMappingDefinition(source: TypeName, destination: TypeName, mappings: seq<SortMapping>)

  /** The InvalidOperationException GetMappings throws for an unregistered pair. */
  datatype ConfigurationError = NoDefinitionFound(source: TypeName, destination: TypeName)

  /** The definition is a SortMappingDefinition<source, destination>. */
  predicate Registers(d: SortMappingDefinition, source: TypeName, destination: TypeName) {
    d.source == source && d.destination == destination
  }

  /** GetMappings<TSource, TDestination>: the mappings of the first definition
      registered for exactly that pair; an error when there is none. */
  function GetMappings(definitions: seq<SortMappingDefinition>, source: TypeName, destination: TypeName)
    : (r: Result<seq<SortMapping>, ConfigurationError>)
    ensures r.Err? <==> forall i :: 0 <= i < |definitions| ==> !Registers(definitions[i], source, destination)
    ensures r.Err? ==> r.error == NoDefinitionFound(source, destination)
    ensures r.Ok? ==> exists i :: 0 <= i < |definitions| && Registers(definitions[i], source, destination)
                        && r.value == definitions[i].mappings
                        && forall j :: 0 <= j < i ==> !Registers(definitions[j], source, destination)
  {
    if |definitions| == 0 then Err(NoDefinitionFound(source, destination))
    else if Registers(definitions[0], source, destination) then Ok(definitions[0].mappings)
    else
      var r := GetMappings(definitions[1..], source, destination);
      assert forall i :: 1 <= i < |definitions| ==> definitions[i] == definitions[1..][i - 1];
      if r.Ok? then
        var i :| 0 <= i < |definitions[1..]| && Registers(definitions[1..][i], source, destination)
                 && r.value == definitions[1..][i].mappings
                 && forall j :: 0 <= j < i ==> !Registers(definitions[1..][j], source, destination);
        assert Registers(definitions[i + 1], source, destination);
        r
      else r
  }

  /** The names ValidateMappings checks, from the comma-separated items of the
      sort string: the first space-separated token of each trimmed item, with
      blank tokens dropped. */
  function ValidationFields(items: seq<string>): (fields: seq<string>)
    ensures |fields| <= |items|
    ensures forall i :: 0 <= i < |fields| ==> !IsBlank(fields[i])
  {
    if items == [] then []
    else
      var f := FirstToken(Trim(items[0]));
      (if IsBlank(f) then [] else [f]) + ValidationFields(items[1..])
  }

  /** Some mapping's SortField equals the field, ignoring case. */
  predicate HasMapping(mappings: seq<SortMapping>, field: string) {
    exists i :: 0 <= i < |mappings| && EqualsIgnoreCase(mappings[i].sortField, field)
  }

  /** Every field has a mapping. */
  predicate AllMapped(mappings: seq<SortMapping>, fields: seq<string>) {
    forall i :: 0 <= i < |fields| ==> HasMapping(mappings, fields[i])
  }

  /** ValidateMappings<TSource, TDestination>(sort). A blank sort is valid
      without any lookup; otherwise the pair must be registered (else the lookup
      throws) and every checked name must have a mapping. */
  function ValidateMappings(definitions: seq<SortMappingDefinition>, source: TypeName,
                            destination: TypeName, sort: Option<string>)
    : (r: Result<bool, ConfigurationError>)
    ensures IsNullOrWhiteSpace(sort) ==> r == Ok(true)
    ensures !IsNullOrWhiteSpace(sort) ==>
              (r.Err? <==> forall i :: 0 <= i < |definitions| ==> !Registers(definitions[i], source, destination))
    ensures r.Ok? && !IsNullOrWhiteSpace(sort) ==>
              (r.value <==> AllMapped(GetMappings(definitions, source, destination).value,
                                      ValidationFields(Split(sort.value, ','))))
  {
    if IsNullOrWhiteSpace(sort) then Ok(true)
    else
      var fields := ValidationFields(Split(sort.value, ','));
      match GetMappings(definitions, source, destination)
      case Err(e) => Err(e)
      case Ok(mappings) => Ok(AllMapped(mappings, fields))
  }

  /** A field without spaces or commas is checked as itself. */
  lemma SingleFieldChecked(f: string)
    requires |f| > 0
    requires forall i :: 0 <= i < |f| ==> !IsWhiteSpace(f[i]) && f[i] != ','
    ensures ValidationFields(Split(f, ',')) == [f]
  {
    assert ' ' !in f by {
      forall i | 0 <= i < |f| ensures f[i] != ' ' {
        assert !IsWhiteSpace(f[i]);
      }
    }
    assert TrimStart(f) == f;
    assert TrimEnd(f) == f;
  }

  /** A direction token after a field does not change validation:
      "x desc", "x asc" and "x" validate alike. */
  lemma DirectionIgnored(definitions: seq<SortMappingDefinition>, source: TypeName,
                         destination: TypeName, f: string, direction: string)
    requires |f| > 0
    requires forall i :: 0 <= i < |f| ==> !IsWhiteSpace(f[i]) && f[i] != ','
    requires ',' !in direction
    ensures ValidateMappings(definitions, source, destination, Some(f + " " + direction))
         == ValidateMappings(definitions, source, destination, Some(f))
  {
    var s := f + " " + direction;
    FieldWithDirection(f, direction);
    SingleFieldChecked(f);
    assert !IsBlank(s) by { assert s[0] == f[0] && !IsWhiteSpace(s[0]); }
    assert !IsBlank(f) by { assert !IsWhiteSpace(f[0]); }
    SameFieldsValidateAlike(definitions, source, destination, s, f);
  }

  /** Two non-blank sorts with the same checked fields validate alike. */
  lemma SameFieldsValidateAlike(definitions: seq<SortMappingDefinition>, source: TypeName,
                                destination: TypeName, a: string, b: string)
    requires !IsBlank(a) && !IsBlank(b)
    requires ValidationFields(Split(a, ',')) == ValidationFields(Split(b, ','))
    ensures ValidateMappings(definitions, source, destination, Some(a))
         == ValidateMappings(definitions, source, destination, Some(b))
  {
  }

  /** The fields checked for a single comma part. */
  lemma ValidationFieldsOfOne(part: string)
    ensures var f := FirstToken(Trim(part));
      ValidationFields([part]) == if IsBlank(f) then [] else [f]
  {
    assert [part][1..] == [];
  }

  /** The field before a direction token is the one field checked. */
  lemma FieldWithDirection(f: string, direction: string)
    requires |f| > 0
    requires forall i :: 0 <= i < |f| ==> !IsWhiteSpace(f[i]) && f[i] != ','
    requires ',' !in direction
    ensures ValidationFields(Split(f + " " + direction, ',')) == [f]
  {
    var s := f + " " + direction;
    NoCommaWithDirection(f, direction);
    ValidationFieldsOfOne(s);
    TrimWithDirection(f, direction);
    var z := TrimEnd(" " + direction);
    assert ' ' !in f by {
      forall i | 0 <= i < |f| ensures f[i] != ' ' {
        assert !IsWhiteSpace(f[i]);
      }
    }
    FirstTokenOf(f, z);
    assert !IsBlank(f) by { assert !IsWhiteSpace(f[0]); }
  }

  lemma NoCommaWithDirection(f: string, direction: string)
    requires forall i :: 0 <= i < |f| ==> f[i] != ','
    requires ',' !in direction
    ensures Split(f + " " + direction, ',') == [f + " " + direction]
  {
    var s := f + " " + direction;
    forall i | 0 <= i < |s| ensures s[i] != ',' {
      if i < |f| { assert s[i] == f[i]; } else if i > |f| { assert s[i] == direction[i - |f| - 1]; }
    }
    assert ',' !in s;
  }

  /** Trimming a field and a direction token keeps the field and whatever of the token is left. */
  lemma TrimWithDirection(f: string, direction: string)
    requires |f| > 0
    requires forall i :: 0 <= i < |f| ==> !IsWhiteSpace(f[i])
    ensures var z := TrimEnd(" " + direction);
      Trim(f + " " + direction) == f + z && (z == [] || z[0] == ' ')
  {
    var s := f + " " + direction;
    assert s[0] == f[0];
    assert TrimStart(s) == s;
    assert s == f + (" " + direction);
    TrimEndAfter(f, " " + direction);
    var z := TrimEnd(" " + direction);
    assert z == [] || z[0] == ' ';
  }
}
