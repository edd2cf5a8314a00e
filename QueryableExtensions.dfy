/** Model of Extensions/QueryableExtensions.cs: ApplySort turns a caller's sort
    string such as "name desc, createdAt" into the ordering handed to Dynamic
    LINQ. The ordering is modelled as a list of (property, direction) clauses,
    or the default expression for a blank sort; the query it is applied to is
    not modelled. The soundness of SortMappingProvider.ValidateMappings with
    respect to ApplySort is proved at the end. */
module QueryableExtensions {
  import opened Wrappers
  import opened Text
  import opened SortMappingProvider

  datatype Direction = Asc | Desc

  /** One "PropertyName ASC|DESC" part of the ordering. */
  datatype SortClause = SortClause(propertyName: string, direction: Direction)

  /** What OrderBy receives: the default expression, or the joined clauses. */
  datatype Ordering = DefaultOrdering(expression: string) | Clauses(clauses: seq<SortClause>)

  /** The InvalidOperationException that Enumerable.First throws when no mapping matches. */
  datatype SortError = NoMatchingMapping(sortField: string)

  /** The parsed form of one sort item. */
  datatype ParsedField = ParsedField(sortField: string, isDescending: bool)

  /** `sort.Split(',').Select(Trim).Where(x => !IsNullOrWhiteSpace(x))`: the
      trimmed items that are not blank, in input order. */
  function SortItems(parts: seq<string>): seq<string>
  {
    if parts == [] then []
    else
      var t := Trim(parts[0]);
      (if IsBlank(t) then [] else [t]) + SortItems(parts[1..])
  }

  /** A sort item is non-empty and starts and ends with a character that is not white space. */
  predicate IsSortItem(item: string) {
    item != "" && !IsWhiteSpace(item[0]) && !IsWhiteSpace(item[|item| - 1])
  }

  /** There are no more sort items than comma parts, and each is trimmed and not blank. */
  lemma {:induction false} SortItemsTrimmed(parts: seq<string>)
    ensures |SortItems(parts)| <= |parts|
    ensures forall i :: 0 <= i < |SortItems(parts)| ==> IsSortItem(SortItems(parts)[i])
  {
    if parts != [] {
      SortItemsTrimmed(parts[1..]);
      TrimmedIsSortItem(parts[0]);
      var t := Trim(parts[0]);
      if !IsBlank(t) {
        SortItemsCons(t, SortItems(parts[1..]));
      }
    }
  }

  lemma TrimmedIsSortItem(part: string)
    ensures !IsBlank(Trim(part)) ==> IsSortItem(Trim(part))
  {
  }

  lemma SortItemsCons(t: string, rest: seq<string>)
    requires IsSortItem(t)
    requires forall i :: 0 <= i < |rest| ==> IsSortItem(rest[i])
    ensures forall i :: 0 <= i < |rest| + 1 ==> IsSortItem(([t] + rest)[i])
  {
    forall i | 0 <= i < |rest| + 1 ensures IsSortItem(([t] + rest)[i]) {
      if i > 0 {
        assert ([t] + rest)[i] == rest[i - 1];
      }
    }
  }

  /** ParseSortField: the first space-separated token is the field; the item
      is descending when the second token is "desc", ignoring case. */
  function ParseSortField(field: string): ParsedField
  {
    var parts := Split(field, ' ');
    ParsedField(parts[0], |parts| > 1 && EqualsIgnoreCase(parts[1], "desc"))
  }

  /** What ParseSortField means: the field is the text before the first space;
      the item is descending exactly when the text between the first and the
      second space is "desc", ignoring case; anything after the second space
      is ignored. */
  lemma ParsedFieldMeaning(field: string)
    ensures var r := ParseSortField(field);
      ' ' !in r.sortField && |r.sortField| <= |field| && r.sortField == field[..|r.sortField|]
      && (|r.sortField| < |field| ==> field[|r.sortField|] == ' ')
      && (r.isDescending <==>
            |r.sortField| < |field| && EqualsIgnoreCase(FirstToken(field[|r.sortField| + 1..]), "desc"))
  {
    SplitFirst(field, ' ');
    SplitRest(field, ' ');
  }

  /** Two spaces before "desc" leave an empty second token, so the item sorts ascending. */
  lemma DoubleSpaceIsAscending(f: string, rest: string)
    requires ' ' !in f
    ensures ParseSortField(f + "  " + rest) == ParsedField(f, false)
  {
    var s := f + "  " + rest;
    assert s == f + [' '] + (" " + rest);
    SplitCons(f, ' ', " " + rest);
    assert (" " + rest) == [' '] + rest;
    SplitCons("", ' ', rest);
    assert Split(s, ' ')[1] == "";
  }

  /** The index of the first mapping whose SortField equals the field ignoring
      case (`mappings.First(...)`), or None when no mapping matches. */
  function FirstMatch(mappings: seq<SortMapping>, field: string): (r: Option<nat>)
    ensures r.None? <==> !HasMapping(mappings, field)
    ensures r.Some? ==> r.value < |mappings| && EqualsIgnoreCase(mappings[r.value].sortField, field)
    ensures r.Some? ==> forall j :: 0 <= j < r.value ==> !EqualsIgnoreCase(mappings[j].sortField, field)
  {
    if |mappings| == 0 then None
    else if EqualsIgnoreCase(mappings[0].sortField, field) then Some(0)
    else
      var r := FirstMatch(mappings[1..], field);
      assert forall j :: 1 <= j < |mappings| ==> mappings[j] == mappings[1..][j - 1];
      if r.None? then None else Some(r.value + 1)
  }

  /** The direction table of ApplySort: descending exactly when the request is
      descending XOR the mapping is reversed. */
  function DirectionFor(isDescending: bool, reverse: bool): (d: Direction)
    ensures d == Desc <==> isDescending != reverse
  {
    match (isDescending, reverse)
    case (true, true) => Asc
    case (true, false) => Desc
    case (false, true) => Desc
    case (false, false) => Asc
  }

  /** The clause for one sort item, or the failure of `First`. */
  function ClauseFor(item: string, mappings: seq<SortMapping>): Result<SortClause, SortError> {
    var parsed := ParseSortField(item);
    match FirstMatch(mappings, parsed.sortField)
    case None => Err(NoMatchingMapping(parsed.sortField))
    case Some(i) => Ok(SortClause(mappings[i].propertyName, DirectionFor(parsed.isDescending, mappings[i].reverse)))
  }

  /** The clause of an item is that of the first matching mapping, or the failure to find one. */
  lemma ClauseOfMatch(item: string, mappings: seq<SortMapping>)
    ensures var parsed := ParseSortField(item);
      var found := FirstMatch(mappings, parsed.sortField);
      ClauseFor(item, mappings) ==
        if found.None? then Err(NoMatchingMapping(parsed.sortField))
        else Ok(SortClause(mappings[found.value].propertyName, DirectionFor(parsed.isDescending, mappings[found.value].reverse)))
  {
  }

  /** The clauses of a list of items, or the failure of the first item that has no mapping. */
  function ClausesFor(items: seq<string>, mappings: seq<SortMapping>): Result<seq<SortClause>, SortError> {
    Collect(ClauseResults(items, mappings))
  }

  /** The outcome of each item, in order. */
  function ClauseResults(items: seq<string>, mappings: seq<SortMapping>): seq<Result<SortClause, SortError>> {
    MapSeq(item => ClauseFor(item, mappings), items)
  }

  /** `Select(f)` on a list. */
  function MapSeq<A, B>(f: A -> B, xs: seq<A>): seq<B> {
    seq(|xs|, i requires 0 <= i < |xs| => f(xs[i]))
  }

  /** Selecting over two lists gives the selection of the first, then that of the second. */
  lemma MapSeqAppend<A, B>(f: A -> B, xs: seq<A>, ys: seq<A>)
    ensures MapSeq(f, xs + ys) == MapSeq(f, xs) + MapSeq(f, ys)
  {
    var r := MapSeq(f, xs + ys);
    var a := MapSeq(f, xs);
    var b := MapSeq(f, ys);
    forall i | 0 <= i < |r| ensures r[i] == (a + b)[i] {
      if i < |xs| {
        assert (xs + ys)[i] == xs[i];
      } else {
        assert (xs + ys)[i] == ys[i - |xs|];
      }
    }
  }

  /** Outcomes taken in order until the first failure: all their values, or that failure. */
  function Collect<T, E>(results: seq<Result<T, E>>): Result<seq<T>, E> {
    if results == [] then Ok([])
    else
      match results[0]
      case Err(e) => Err(e)
      case Ok(c) =>
        match Collect(results[1..])
        case Err(e) => Err(e)
        case Ok(cs) => Ok([c] + cs)
  }

  /** The ordering ApplySort produces for a sort string. */
  function SortOrder(sort: Option<string>, mappings: seq<SortMapping>, defaultOrderBy: string)
    : Result<Ordering, SortError>
  {
    if IsNullOrWhiteSpace(sort) then Ok(DefaultOrdering(defaultOrderBy))
    else
      match ClausesFor(SortItems(Split(sort.value, ',')), mappings)
      case Err(e) => Err(e)
      case Ok(cs) => Ok(Clauses(cs))
  }

  /** Collecting two lists of outcomes gives the values of the first, then
      those of the second; the first failure wins. */
  lemma {:induction false} CollectAppend<T, E>(a: seq<Result<T, E>>, b: seq<Result<T, E>>)
    ensures Collect(a + b) ==
      match Collect(a)
      case Err(e) => Err(e)
      case Ok(x) =>
        match Collect(b)
        case Err(e) => Err(e)
        case Ok(y) => Ok(x + y)
  {
    if a == [] {
      assert a + b == b;
      if Collect(b).Ok? {
        assert [] + Collect(b).value == Collect(b).value;
      }
    } else {
      assert (a + b)[0] == a[0];
      assert (a + b)[1..] == a[1..] + b;
      CollectAppend(a[1..], b);
      if a[0].Ok? && Collect(a[1..]).Ok? && Collect(b).Ok? {
        var c := a[0].value;
        var x := Collect(a[1..]).value;
        var y := Collect(b).value;
        assert [c] + (x + y) == ([c] + x) + y;
      }
    }
  }

  /** A successful collection has one value per outcome, in order. */
  lemma {:induction false} CollectEach<T, E>(results: seq<Result<T, E>>)
    requires Collect(results).Ok?
    ensures |Collect(results).value| == |results|
    ensures forall i :: 0 <= i < |results| ==> results[i] == Ok(Collect(results).value[i])
  {
    if results != [] {
      CollectEach(results[1..]);
      assert forall i :: 1 <= i < |results| ==> results[i] == results[1..][i - 1];
    }
  }

  /** A collection fails exactly when some outcome is a failure. */
  lemma {:induction false} CollectFails<T, E>(results: seq<Result<T, E>>)
    ensures Collect(results).Err? <==> exists i :: 0 <= i < |results| && results[i].Err?
  {
    if results != [] {
      CollectFails(results[1..]);
      assert forall i :: 1 <= i < |results| ==> results[i] == results[1..][i - 1];
    }
  }

  /** A failing collection reports the first failure. */
  lemma {:induction false} CollectFirstFailure<T, E>(results: seq<Result<T, E>>)
    requires Collect(results).Err?
    ensures exists i :: 0 <= i < |results| && results[i] == Err(Collect(results).error)
              && forall j :: 0 <= j < i ==> results[j].Ok?
  {
    if results[0].Ok? {
      CollectFirstFailure(results[1..]);
      var k :| 0 <= k < |results[1..]| && results[1..][k] == Err(Collect(results[1..]).error)
               && forall j :: 0 <= j < k ==> results[1..][j].Ok?;
      assert results[k + 1] == results[1..][k];
      forall j | 0 <= j < k + 1 ensures results[j].Ok? {
        if j > 0 {
          assert results[j] == results[1..][j - 1];
        }
      }
    }
  }

  /** The outcomes of two lists of items are those of the first, then those of the second. */
  lemma ClauseResultsAppend(xs: seq<string>, ys: seq<string>, mappings: seq<SortMapping>)
    ensures ClauseResults(xs + ys, mappings) == ClauseResults(xs, mappings) + ClauseResults(ys, mappings)
  {
    MapSeqAppend(item => ClauseFor(item, mappings), xs, ys);
  }

  /** Appending an item that has a clause appends its clause. */
  lemma ClausesForSnoc(xs: seq<string>, y: string, mappings: seq<SortMapping>)
    requires ClausesFor(xs, mappings).Ok? && ClauseFor(y, mappings).Ok?
    ensures ClausesFor(xs + [y], mappings) == Ok(ClausesFor(xs, mappings).value + [ClauseFor(y, mappings).value])
  {
    ClauseResultsAppend(xs, [y], mappings);
    CollectAppend(ClauseResults(xs, mappings), ClauseResults([y], mappings));
    var last := ClauseResults([y], mappings);
    assert last[0] == ClauseFor(y, mappings) && last[1..] == [];
    assert Collect(last) == Ok([ClauseFor(y, mappings).value] + []);
    assert [ClauseFor(y, mappings).value] + [] == [ClauseFor(y, mappings).value];
  }

  /** After items that all have clauses, the first item without one decides the failure. */
  lemma ClausesForStops(xs: seq<string>, y: string, zs: seq<string>, mappings: seq<SortMapping>)
    requires ClausesFor(xs, mappings).Ok? && ClauseFor(y, mappings).Err?
    ensures ClausesFor(xs + ([y] + zs), mappings) == Err(ClauseFor(y, mappings).error)
  {
    ClauseResultsAppend(xs, [y] + zs, mappings);
    CollectAppend(ClauseResults(xs, mappings), ClauseResults([y] + zs, mappings));
    assert ClauseResults([y] + zs, mappings)[0] == ClauseFor(y, mappings);
  }

  /** The loop of ApplySort, one item further: a mapped item extends the clauses. */
  lemma ExtendsAt(items: seq<string>, i: nat, mappings: seq<SortMapping>)
    requires i < |items| && ClausesFor(items[..i], mappings).Ok? && ClauseFor(items[i], mappings).Ok?
    ensures ClausesFor(items[..i + 1], mappings)
         == Ok(ClausesFor(items[..i], mappings).value + [ClauseFor(items[i], mappings).value])
  {
    assert items[..i + 1] == items[..i] + [items[i]];
    ClausesForSnoc(items[..i], items[i], mappings);
  }

  /** The loop of ApplySort stopping: an unmapped item fails the whole list. */
  lemma StopsAt(items: seq<string>, i: nat, mappings: seq<SortMapping>)
    requires i < |items| && ClausesFor(items[..i], mappings).Ok? && ClauseFor(items[i], mappings).Err?
    ensures ClausesFor(items, mappings) == Err(ClauseFor(items[i], mappings).error)
  {
    assert items == items[..i] + ([items[i]] + items[i + 1..]);
    ClausesForStops(items[..i], items[i], items[i + 1..], mappings);
  }

  /** ApplySort: a blank sort gives the default ordering; otherwise the
      trimmed non-blank items are turned into clauses, and the first item
      without a mapping makes the whole call fail. */
  method ApplySort(sort: Option<string>, mappings: seq<SortMapping>, defaultOrderBy: string := "Id")
    returns (r: Result<Ordering, SortError>)
    ensures r == SortOrder(sort, mappings, defaultOrderBy)
  {
    if IsNullOrWhiteSpace(sort) {
      return Ok(DefaultOrdering(defaultOrderBy));
    }
    var sortFields := SortItems(Split(sort.value, ','));
    var orderByParts := OrderByParts(sortFields, mappings);
    if orderByParts.Err? {
      return Err(orderByParts.error);
    }
    return Ok(Clauses(orderByParts.value));
  }

  /** The loop of ApplySort: each item in turn is parsed, looked up and
      appended as a clause; the first item without a mapping throws. */
  method OrderByParts(sortFields: seq<string>, mappings: seq<SortMapping>)
    returns (r: Result<seq<SortClause>, SortError>)
    ensures r == ClausesFor(sortFields, mappings)
  {
    var orderByParts: seq<SortClause> := [];
    var i := 0;
    while i < |sortFields|
      invariant 0 <= i <= |sortFields|
      invariant ClausesFor(sortFields[..i], mappings) == Ok(orderByParts)
    {
      var parsed := ParseSortField(sortFields[i]);
      var found := FirstMatch(mappings, parsed.sortField);
      ClauseOfMatch(sortFields[i], mappings);
      if found.None? {
        StopsAt(sortFields, i, mappings);
        return Err(NoMatchingMapping(parsed.sortField));
      }
      var mapping := mappings[found.value];
      var direction := DirectionFor(parsed.isDescending, mapping.reverse);
      ExtendsAt(sortFields, i, mappings);
      orderByParts := orderByParts + [SortClause(mapping.propertyName, direction)];
      i := i + 1;
    }
    assert sortFields[..i] == sortFields;
    return Ok(orderByParts);
  }

  /** A successful ClausesFor has one clause per item, each the clause of its item. */
  lemma ClausesForEach(items: seq<string>, mappings: seq<SortMapping>)
    requires ClausesFor(items, mappings).Ok?
    ensures |ClausesFor(items, mappings).value| == |items|
    ensures forall i :: 0 <= i < |items| ==> ClauseFor(items[i], mappings) == Ok(ClausesFor(items, mappings).value[i])
  {
    CollectEach(ClauseResults(items, mappings));
  }

  /** An item fails exactly when its field has no mapping, and then with that field. */
  lemma ClauseForFails(item: string, mappings: seq<SortMapping>)
    ensures ClauseFor(item, mappings).Err? <==> !HasMapping(mappings, ParseSortField(item).sortField)
    ensures ClauseFor(item, mappings).Err? ==>
              ClauseFor(item, mappings).error == NoMatchingMapping(ParseSortField(item).sortField)
  {
  }

  /** ClausesFor fails exactly when some item's field has no mapping. */
  lemma ClausesForFails(items: seq<string>, mappings: seq<SortMapping>)
    ensures ClausesFor(items, mappings).Err? <==>
              exists i :: 0 <= i < |items| && !HasMapping(mappings, ParseSortField(items[i]).sortField)
  {
    var rs := ClauseResults(items, mappings);
    CollectFails(rs);
    forall i | 0 <= i < |items|
      ensures rs[i].Err? <==> !HasMapping(mappings, ParseSortField(items[i]).sortField)
    {
      ClauseForFails(items[i], mappings);
    }
  }

  /** A failing ClausesFor reports the field of the first item without a mapping. */
  lemma ClausesForFirstFailure(items: seq<string>, mappings: seq<SortMapping>)
    requires ClausesFor(items, mappings).Err?
    ensures exists i :: 0 <= i < |items| && !HasMapping(mappings, ParseSortField(items[i]).sortField)
              && ClausesFor(items, mappings).error == NoMatchingMapping(ParseSortField(items[i]).sortField)
              && forall j :: 0 <= j < i ==> HasMapping(mappings, ParseSortField(items[j]).sortField)
  {
    var rs := ClauseResults(items, mappings);
    CollectFirstFailure(rs);
    var k :| 0 <= k < |rs| && rs[k] == Err(Collect(rs).error) && forall j :: 0 <= j < k ==> rs[j].Ok?;
    assert rs[k] == ClauseFor(items[k], mappings);
    ClauseForFails(items[k], mappings);
    forall j | 0 <= j < k ensures HasMapping(mappings, ParseSortField(items[j]).sortField) {
      assert rs[j] == ClauseFor(items[j], mappings);
      ClauseForFails(items[j], mappings);
    }
  }

  /** A null or blank sort gives exactly the default ordering. */
  lemma BlankSortIsDefault(sort: Option<string>, mappings: seq<SortMapping>, defaultOrderBy: string)
    requires IsNullOrWhiteSpace(sort)
    ensures SortOrder(sort, mappings, defaultOrderBy) == Ok(DefaultOrdering(defaultOrderBy))
  {
  }

  /** For a non-blank sort that succeeds: one clause per trimmed non-blank item,
      in input order; each uses the PropertyName of the first matching mapping
      and is descending exactly when (requested descending) XOR Reverse. */
  lemma ClausePerItem(sort: string, mappings: seq<SortMapping>, defaultOrderBy: string)
    requires !IsBlank(sort)
    requires SortOrder(Some(sort), mappings, defaultOrderBy).Ok?
    ensures var items := SortItems(Split(sort, ','));
      var o := SortOrder(Some(sort), mappings, defaultOrderBy).value;
      o.Clauses? && |o.clauses| == |items|
      && forall i :: 0 <= i < |items| ==>
           var parsed := ParseSortField(items[i]);
           var k := FirstMatch(mappings, parsed.sortField);
           k.Some?
           && o.clauses[i].propertyName == mappings[k.value].propertyName
           && (o.clauses[i].direction == Desc <==> parsed.isDescending != mappings[k.value].reverse)
  {
    var items := SortItems(Split(sort, ','));
    ClausesForEach(items, mappings);
  }

  /** A non-blank sort fails exactly when some item names a field without a mapping. */
  lemma UnmappedFieldFails(sort: string, mappings: seq<SortMapping>, defaultOrderBy: string)
    requires !IsBlank(sort)
    ensures var items := SortItems(Split(sort, ','));
      SortOrder(Some(sort), mappings, defaultOrderBy).Err? <==>
        exists i :: 0 <= i < |items| && !HasMapping(mappings, ParseSortField(items[i]).sortField)
  {
    ClausesForFails(SortItems(Split(sort, ',')), mappings);
    SortOrderOfClauses(sort, mappings, defaultOrderBy);
  }

  /** A non-blank sort fails exactly when the clauses of its items do. */
  lemma SortOrderOfClauses(sort: string, mappings: seq<SortMapping>, defaultOrderBy: string)
    requires !IsBlank(sort)
    ensures SortOrder(Some(sort), mappings, defaultOrderBy).Err?
        <==> ClausesFor(SortItems(Split(sort, ',')), mappings).Err?
  {
  }

  /** A non-blank sort made only of commas and spaces gives no clauses at all,
      not the default ordering. */
  lemma CommasOnlyGiveNoClauses(sort: string, mappings: seq<SortMapping>, defaultOrderBy: string)
    requires !IsBlank(sort)
    requires forall k :: 0 <= k < |sort| ==> sort[k] == ',' || sort[k] == ' '
    ensures SortOrder(Some(sort), mappings, defaultOrderBy) == Ok(Clauses([]))
  {
    SplitSpaces(sort, ',');
    NoItemsFromBlankParts(Split(sort, ','));
  }

  lemma {:induction false} NoItemsFromBlankParts(parts: seq<string>)
    requires forall i :: 0 <= i < |parts| ==> IsBlank(parts[i])
    ensures SortItems(parts) == []
  {
    if parts != [] {
      NoItemsFromBlankParts(parts[1..]);
    }
  }

  /** The Dynamic LINQ text of one clause. */
  function ClauseText(c: SortClause): string {
    c.propertyName + " " + (if c.direction == Asc then "ASC" else "DESC")
  }

  function ClauseTexts(cs: seq<SortClause>): (ts: seq<string>)
    ensures |ts| == |cs| && forall i :: 0 <= i < |cs| ==> ts[i] == ClauseText(cs[i])
  {
    seq(|cs|, i requires 0 <= i < |cs| => ClauseText(cs[i]))
  }

  /** The string passed to OrderBy: the default expression, or the clause texts
      joined with ",". */
  function OrderByText(o: Ordering): string {
    match o
    case DefaultOrdering(e) => e
    case Clauses(cs) => Join(ClauseTexts(cs), ",")
  }

  /** When no property name contains a comma, the OrderBy text splits back into
      exactly the clause texts, so the joined string keeps every clause. */
  lemma OrderByTextSplits(cs: seq<SortClause>)
    requires |cs| >= 1
    requires forall i :: 0 <= i < |cs| ==> ',' !in cs[i].propertyName
    ensures Split(OrderByText(Clauses(cs)), ',') == ClauseTexts(cs)
  {
    var ts := ClauseTexts(cs);
    forall i | 0 <= i < |ts| ensures ',' !in ts[i] {
      var tail := " " + (if cs[i].direction == Asc then "ASC" else "DESC");
      assert ts[i] == cs[i].propertyName + tail;
      assert ',' !in tail;
    }
    SplitJoin(ts, ',');
  }

  // ---- Soundness of ValidateMappings with respect to ApplySort ----

  /** The sortField of every item, in order. */
  function SortFields(items: seq<string>): (fs: seq<string>)
    ensures |fs| == |items| && forall i :: 0 <= i < |items| ==> fs[i] == ParseSortField(items[i]).sortField
  {
    seq(|items|, i requires 0 <= i < |items| => ParseSortField(items[i]).sortField)
  }

  /** ValidateMappings checks exactly the field names ApplySort looks up, in the same order. */
  lemma {:induction false} ValidationChecksSortFields(parts: seq<string>)
    ensures ValidationFields(parts) == SortFields(SortItems(parts))
  {
    if parts != [] {
      ValidationChecksSortFields(parts[1..]);
      var t := Trim(parts[0]);
      var rest := SortItems(parts[1..]);
      TrimmedPartField(parts[0]);
      if IsBlank(t) {
        assert SortItems(parts) == rest;
        assert ValidationFields(parts) == ValidationFields(parts[1..]);
      } else {
        assert SortItems(parts) == [t] + rest;
        assert ValidationFields(parts) == [FirstToken(t)] + ValidationFields(parts[1..]);
        SortFieldsCons(t, rest);
      }
    }
  }

  /** A trimmed part has a blank first token exactly when it is blank itself. */
  lemma TrimmedPartField(part: string)
    ensures IsBlank(FirstToken(Trim(part))) <==> IsBlank(Trim(part))
  {
    var t := Trim(part);
    if !IsBlank(t) {
      assert t != "";
      assert t[0] != ' ' by { assert !IsWhiteSpace(t[0]); }
      FirstTokenStart(t);
      assert !IsWhiteSpace(FirstToken(t)[0]);
    } else {
      assert t == "";
      assert FirstToken(t) == "";
    }
  }

  lemma SortFieldsCons(t: string, rest: seq<string>)
    ensures SortFields([t] + rest) == [ParseSortField(t).sortField] + SortFields(rest)
  {
    var items := [t] + rest;
    assert forall i :: 1 <= i < |items| ==> items[i] == rest[i - 1];
  }

  /** The key theorem: for a registered type pair, ValidateMappings accepts a
      sort exactly when ApplySort with that pair's mappings never reaches the
      missing-mapping failure. */
  lemma ValidationIsSound(definitions: seq<SortMappingDefinition>, source: TypeName, destination: TypeName,
                          sort: Option<string>, mappings: seq<SortMapping>, defaultOrderBy: string)
    requires GetMappings(definitions, source, destination) == Ok(mappings)
    ensures ValidateMappings(definitions, source, destination, sort) == Ok(true)
        <==> SortOrder(sort, mappings, defaultOrderBy).Ok?
  {
    if !IsNullOrWhiteSpace(sort) {
      var parts := Split(sort.value, ',');
      var items := SortItems(parts);
      ValidatesSortFields(definitions, source, destination, sort.value, mappings);
      UnmappedFieldFails(sort.value, mappings, defaultOrderBy);
      AllMappedSortFields(mappings, items);
    }
  }

  /** For a registered pair, a non-blank sort is valid iff every sort field is mapped. */
  lemma ValidatesSortFields(definitions: seq<SortMappingDefinition>, source: TypeName, destination: TypeName,
                            sort: string, mappings: seq<SortMapping>)
    requires GetMappings(definitions, source, destination) == Ok(mappings)
    requires !IsBlank(sort)
    ensures ValidateMappings(definitions, source, destination, Some(sort))
         == Ok(AllMapped(mappings, SortFields(SortItems(Split(sort, ',')))))
  {
    ValidationChecksSortFields(Split(sort, ','));
  }

  lemma AllMappedSortFields(mappings: seq<SortMapping>, items: seq<string>)
    ensures AllMapped(mappings, SortFields(items))
        <==> !exists i :: 0 <= i < |items| && !HasMapping(mappings, ParseSortField(items[i]).sortField)
  {
    var fs := SortFields(items);
    if AllMapped(mappings, fs) {
      forall i | 0 <= i < |items| ensures HasMapping(mappings, ParseSortField(items[i]).sortField) {
        assert HasMapping(mappings, fs[i]);
      }
    }
  }
}
