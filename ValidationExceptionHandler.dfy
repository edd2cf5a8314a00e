/** Model of Middlewares/ValidationExceptionHandler.cs: a FluentValidation
    exception becomes a 400 problem-details response whose "errors" entry
    maps each lower-cased property name to its messages in order. The
    problem-details writer is an input. */
module ValidationExceptionHandler {
  import opened Wrappers
  import opened Text

  /** FluentValidation's ValidationFailure, the two parts the handler reads. */
  datatype ValidationFailure = ValidationFailure(propertyName: string, errorMessage: string)

  /** The exception handed to the handler. */
  datatype Exception =
    | ValidationException(errors: seq<ValidationFailure>)
    | OtherException(message: string)

  /** One group of GroupBy(x => x.PropertyName). */
  datatype Group = Group(key: string, messages: seq<string>)

  /** The property names that occur among the failures. */
  function Names(errors: seq<ValidationFailure>): set<string> {
    set f | f in errors :: f.propertyName
  }

  predicate Distinct(ks: seq<string>) {
    forall i, j :: 0 <= i < j < |ks| ==> ks[i] != ks[j]
  }

  /** The group keys of GroupBy: each property name once, in order of first
      appearance (ordinal comparison). */
  function GroupKeys(errors: seq<ValidationFailure>): (ks: seq<string>)
    ensures Distinct(ks)
    ensures (set k | k in ks) == Names(errors)
  {
    if errors == [] then []
    else
      var init := errors[..|errors| - 1];
      var last := errors[|errors| - 1];
      var ks := GroupKeys(init);
      assert Names(errors) == Names(init) + {last.propertyName} by {
        assert errors == init + [last];
        forall f | f in errors ensures f in init || f == last { }
      }
      if last.propertyName in ks then ks else ks + [last.propertyName]
  }

  /** The messages of one property, in the order of the failures. */
  function MessagesOf(errors: seq<ValidationFailure>, name: string): seq<string> {
    if errors == [] then []
    else
      var last := errors[|errors| - 1];
      MessagesOf(errors[..|errors| - 1], name) + (if last.propertyName == name then [last.errorMessage] else [])
  }

  /** GroupBy(x => x.PropertyName) followed by Select(x => x.ErrorMessage). */
  function GroupBy(errors: seq<ValidationFailure>): (gs: seq<Group>)
    ensures |gs| == |GroupKeys(errors)|
    ensures forall i :: 0 <= i < |gs| ==> gs[i] == Group(GroupKeys(errors)[i], MessagesOf(errors, GroupKeys(errors)[i]))
  {
    var ks := GroupKeys(errors);
    seq(|ks|, i requires 0 <= i < |ks| => Group(ks[i], MessagesOf(errors, ks[i])))
  }

  /** The dictionary key of a group. */
  function KeyOf(g: Group): string {
    ToLower(g.key)
  }

  /** ToDictionary(group => group.Key.ToLowerInvariant(), ...), adding the
      groups in order to d; the first key already present makes it throw,
      reported here as Err with that key. */
  function AddGroups(d: map<string, seq<string>>, gs: seq<Group>): Result<map<string, seq<string>>, string>
    decreases |gs|
  {
    if gs == [] then Ok(d)
    else if KeyOf(gs[0]) in d then Err(KeyOf(gs[0]))
    else AddGroups(d[KeyOf(gs[0]) := gs[0].messages], gs[1..])
  }

  /** The "errors" dictionary of the response. */
  function ErrorDictionary(errors: seq<ValidationFailure>): Result<map<string, seq<string>>, string> {
    AddGroups(map[], GroupBy(errors))
  }

  /** The groups' keys collide after lower-casing, or clash with d. */
  predicate KeysClash(d: map<string, seq<string>>, gs: seq<Group>) {
    (exists i :: 0 <= i < |gs| && KeyOf(gs[i]) in d)
    || (exists i, j :: 0 <= i < j < |gs| && KeyOf(gs[i]) == KeyOf(gs[j]))
  }

  /** Adding groups fails exactly when keys clash. */
  lemma {:induction false} AddGroupsFails(d: map<string, seq<string>>, gs: seq<Group>)
    ensures AddGroups(d, gs).Err? <==> KeysClash(d, gs)
    decreases |gs|
  {
    if gs != [] && KeyOf(gs[0]) !in d {
      var d' := d[KeyOf(gs[0]) := gs[0].messages];
      var rest := gs[1..];
      AddGroupsFails(d', rest);
      if KeysClash(d', rest) {
        if i :| 0 <= i < |rest| && KeyOf(rest[i]) in d' {
          if KeyOf(rest[i]) in d {
            assert KeyOf(gs[i + 1]) in d;
          } else {
            assert KeyOf(gs[0]) == KeyOf(gs[i + 1]);
          }
        } else {
          var i, j :| 0 <= i < j < |rest| && KeyOf(rest[i]) == KeyOf(rest[j]);
          assert KeyOf(gs[i + 1]) == KeyOf(gs[j + 1]);
        }
      }
      if KeysClash(d, gs) {
        if i :| 0 <= i < |gs| && KeyOf(gs[i]) in d {
          assert i > 0 && KeyOf(rest[i - 1]) in d';
        } else {
          var i, j :| 0 <= i < j < |gs| && KeyOf(gs[i]) == KeyOf(gs[j]);
          if i == 0 {
            assert KeyOf(rest[j - 1]) in d';
          } else {
            assert KeyOf(rest[i - 1]) == KeyOf(rest[j - 1]);
          }
        }
      }
    }
  }

  /** When adding groups succeeds, every group is under its lower-cased key
      and d's entries stay. */
  lemma {:induction false} AddGroupsValue(d: map<string, seq<string>>, gs: seq<Group>)
    requires AddGroups(d, gs).Ok?
    ensures var r := AddGroups(d, gs).value;
              && r.Keys == d.Keys + (set g | g in gs :: KeyOf(g))
              && (forall k :: k in d ==> r[k] == d[k])
              && (forall i :: 0 <= i < |gs| ==> r[KeyOf(gs[i])] == gs[i].messages)
  {
    AddGroupsKeys(d, gs);
    AddGroupsKeeps(d, gs);
    AddGroupsStores(d, gs);
  }

  lemma {:induction false} AddGroupsKeys(d: map<string, seq<string>>, gs: seq<Group>)
    requires AddGroups(d, gs).Ok?
    ensures AddGroups(d, gs).value.Keys == d.Keys + (set g | g in gs :: KeyOf(g))
    decreases |gs|
  {
    if gs != [] {
      var d' := d[KeyOf(gs[0]) := gs[0].messages];
      var rest := gs[1..];
      AddGroupsKeys(d', rest);
      assert (set g | g in gs :: KeyOf(g)) == {KeyOf(gs[0])} + (set g | g in rest :: KeyOf(g)) by {
        assert gs == [gs[0]] + rest;
      }
    }
  }

  lemma {:induction false} AddGroupsKeeps(d: map<string, seq<string>>, gs: seq<Group>)
    requires AddGroups(d, gs).Ok?
    ensures forall k :: k in d ==> k in AddGroups(d, gs).value && AddGroups(d, gs).value[k] == d[k]
    decreases |gs|
  {
    if gs != [] {
      var d' := d[KeyOf(gs[0]) := gs[0].messages];
      AddGroupsKeeps(d', gs[1..]);
    }
  }

  lemma {:induction false} AddGroupsStores(d: map<string, seq<string>>, gs: seq<Group>)
    requires AddGroups(d, gs).Ok?
    ensures forall i :: 0 <= i < |gs| ==>
      KeyOf(gs[i]) in AddGroups(d, gs).value && AddGroups(d, gs).value[KeyOf(gs[i])] == gs[i].messages
    decreases |gs|
  {
    if gs != [] {
      var d' := d[KeyOf(gs[0]) := gs[0].messages];
      var rest := gs[1..];
      AddGroupsStores(d', rest);
      AddGroupsKeeps(d', rest);
      var r := AddGroups(d, gs).value;
      assert r == AddGroups(d', rest).value;
      forall i | 0 <= i < |gs| ensures KeyOf(gs[i]) in r && r[KeyOf(gs[i])] == gs[i].messages {
        if i > 0 {
          assert gs[i] == rest[i - 1];
        }
      }
    }
  }

  /** The dictionary is built exactly when no two different property names
      have the same lower-case form; otherwise ToDictionary throws. */
  lemma ErrorDictionaryFails(errors: seq<ValidationFailure>)
    ensures ErrorDictionary(errors).Err? <==>
              exists f, g :: f in errors && g in errors && f.propertyName != g.propertyName
                             && ToLower(f.propertyName) == ToLower(g.propertyName)
    ensures ErrorDictionary(errors).Err? <==>
              exists f, g :: f in errors && g in errors && f.propertyName != g.propertyName
                             && EqualsIgnoreCase(f.propertyName, g.propertyName)
  {
    forall f, g | f in errors && g in errors
      ensures EqualsIgnoreCase(f.propertyName, g.propertyName) <==> ToLower(f.propertyName) == ToLower(g.propertyName)
    {
      EqualsIgnoreCaseLower(f.propertyName, g.propertyName);
    }
    AddGroupsFails(map[], GroupBy(errors));
    if KeysClash(map[], GroupBy(errors)) {
      ClashingNames(errors);
    }
    if exists f, g :: f in errors && g in errors && f.propertyName != g.propertyName
                       && ToLower(f.propertyName) == ToLower(g.propertyName) {
      ClashingKeys(errors);
    }
  }

  /** Two groups with the same dictionary key come from two different
      property names with the same lower-case form. */
  lemma ClashingNames(errors: seq<ValidationFailure>)
    requires KeysClash(map[], GroupBy(errors))
    ensures exists f, g :: f in errors && g in errors && f.propertyName != g.propertyName
                           && ToLower(f.propertyName) == ToLower(g.propertyName)
  {
    var gs := GroupBy(errors);
    var ks := GroupKeys(errors);
    var i, j :| 0 <= i < j < |gs| && KeyOf(gs[i]) == KeyOf(gs[j]);
    assert ks[i] in Names(errors) && ks[j] in Names(errors);
    var f :| f in errors && f.propertyName == ks[i];
    var g :| g in errors && g.propertyName == ks[j];
    assert f.propertyName != g.propertyName && ToLower(f.propertyName) == ToLower(g.propertyName);
  }

  /** Two different property names with the same lower-case form head two
      groups with the same dictionary key. */
  lemma ClashingKeys(errors: seq<ValidationFailure>)
    requires exists f, g :: f in errors && g in errors && f.propertyName != g.propertyName
                            && ToLower(f.propertyName) == ToLower(g.propertyName)
    ensures KeysClash(map[], GroupBy(errors))
  {
    var gs := GroupBy(errors);
    var ks := GroupKeys(errors);
    var f, g :| f in errors && g in errors && f.propertyName != g.propertyName
                && ToLower(f.propertyName) == ToLower(g.propertyName);
    assert f.propertyName in Names(errors) && g.propertyName in Names(errors);
    var i :| 0 <= i < |ks| && ks[i] == f.propertyName;
    var j :| 0 <= j < |ks| && ks[j] == g.propertyName;
    assert KeyOf(gs[i]) == KeyOf(gs[j]) && i != j;
    if j < i {
      assert KeyOf(gs[j]) == KeyOf(gs[i]);
    }
  }

  /** When the dictionary is built, its keys are the lower-cased property
      names, each already in lower case, and each failure's property maps to
      all of that property's messages in their original order. */
  lemma ErrorDictionaryContents(errors: seq<ValidationFailure>)
    ensures ErrorDictionary(errors).Ok? ==>
              var d := ErrorDictionary(errors).value;
              && d.Keys == (set f | f in errors :: ToLower(f.propertyName))
              && (forall k :: k in d ==> ToLower(k) == k)
              && (forall f :: f in errors ==> d[ToLower(f.propertyName)] == MessagesOf(errors, f.propertyName))
  {
    var gs := GroupBy(errors);
    var ks := GroupKeys(errors);
    if ErrorDictionary(errors).Ok? {
      AddGroupsValue(map[], gs);
      var d := ErrorDictionary(errors).value;
      forall f | f in errors ensures ToLower(f.propertyName) in d && d[ToLower(f.propertyName)] == MessagesOf(errors, f.propertyName) {
        assert f.propertyName in Names(errors);
        var i :| 0 <= i < |ks| && ks[i] == f.propertyName;
        assert KeyOf(gs[i]) == ToLower(f.propertyName);
      }
      forall k | k in d ensures k in (set f | f in errors :: ToLower(f.propertyName)) && ToLower(k) == k {
        var g :| g in gs && KeyOf(g) == k;
        var i :| 0 <= i < |gs| && gs[i] == g;
        assert ks[i] in Names(errors);
        var f :| f in errors && f.propertyName == ks[i];
        ToLowerIdempotent(f.propertyName);
      }
    }
  }

  /** The failures of one property keep their order across a concatenation. */
  lemma {:induction false} MessagesOfAppend(a: seq<ValidationFailure>, b: seq<ValidationFailure>, name: string)
    ensures MessagesOf(a + b, name) == MessagesOf(a, name) + MessagesOf(b, name)
    decreases |b|
  {
    if b == [] {
      assert a + b == a;
    } else {
      var b' := b[..|b| - 1];
      assert (a + b)[..|a + b| - 1] == a + b';
      MessagesOfAppend(a, b', name);
    }
  }

  /** A property that does not occur has no messages. */
  lemma {:induction false} NoMessages(errors: seq<ValidationFailure>, name: string)
    requires name !in Names(errors)
    ensures MessagesOf(errors, name) == []
  {
    if errors != [] {
      var init := errors[..|errors| - 1];
      assert Names(init) <= Names(errors) by {
        forall f | f in init ensures f in errors { }
      }
      NoMessages(init, name);
    }
  }

  /** The number of messages in the groups of the given keys. */
  function TotalMessages(errors: seq<ValidationFailure>, ks: seq<string>): nat {
    if ks == [] then 0 else |MessagesOf(errors, ks[0])| + TotalMessages(errors, ks[1..])
  }

  lemma {:induction false} TotalSnoc(errors: seq<ValidationFailure>, x: ValidationFailure, ks: seq<string>)
    requires Distinct(ks)
    ensures TotalMessages(errors + [x], ks) == TotalMessages(errors, ks) + (if x.propertyName in ks then 1 else 0)
  {
    if ks != [] {
      assert (errors + [x])[..|errors|] == errors;
      TotalSnoc(errors, x, ks[1..]);
      assert x.propertyName in ks <==> x.propertyName == ks[0] || x.propertyName in ks[1..];
      assert ks[0] !in ks[1..];
    }
  }

  lemma {:induction false} TotalAppendKey(errors: seq<ValidationFailure>, ks: seq<string>, name: string)
    ensures TotalMessages(errors, ks + [name]) == TotalMessages(errors, ks) + |MessagesOf(errors, name)|
  {
    if ks != [] {
      assert (ks + [name])[1..] == ks[1..] + [name];
      TotalAppendKey(errors, ks[1..], name);
    }
  }

  /** Every failure's message lands in exactly one group: the groups hold as
      many messages as there are failures. */
  lemma {:induction false} GroupsHoldEveryMessage(errors: seq<ValidationFailure>)
    ensures TotalMessages(errors, GroupKeys(errors)) == |errors|
  {
    if errors != [] {
      var init := errors[..|errors| - 1];
      var x := errors[|errors| - 1];
      assert errors == init + [x];
      var ks := GroupKeys(init);
      GroupsHoldEveryMessage(init);
      TotalSnoc(init, x, ks);
      if x.propertyName !in ks {
        TotalAppendKey(errors, ks, x.propertyName);
        NoMessages(init, x.propertyName);
        MessagesOfAppend(init, [x], x.propertyName);
      }
    }
  }

  /** The ProblemDetails handed to the writer. */
  datatype ProblemDetails = ProblemDetails(
    title: string, detail: string, status: int, errors: map<string, seq<string>>)

  const Status400BadRequest := 400

  /** What TryHandleAsync does: not handled (returns false), handled with the
      details written or not (returns what the writer returns), or thrown out
      of ToDictionary on a duplicate key. */
  datatype Outcome =
    | NotHandled
    | Handled(details: ProblemDetails, written: bool)
    | Threw(duplicateKey: string)

  /** The problem details for a validation failure list. */
  function ProblemFor(d: map<string, seq<string>>): (p: ProblemDetails)
    ensures p.status == Status400BadRequest && p.errors == d
  {
    ProblemDetails("Validation error.", "One or more validation errors occurred.", Status400BadRequest, d)
  }

  /** The part of the HTTP response the handler sets. */
  class HttpResponse {
    var statusCode: int

    constructor (statusCode: int)
      ensures this.statusCode == statusCode
    {
      this.statusCode := statusCode;
    }
  }

  /** TryHandleAsync: any other exception is not handled and the response is
      left alone. A validation exception sets status 400 first, then builds
      the errors dictionary (which may throw) and hands the details to the
      writer, returning its answer. */
  method TryHandle(response: HttpResponse, exception: Exception, tryWrite: ProblemDetails -> bool)
    returns (outcome: Outcome)
    modifies response
    ensures exception.OtherException? ==> outcome == NotHandled && response.statusCode == old(response.statusCode)
    ensures exception.ValidationException? ==>
              && response.statusCode == Status400BadRequest
              && match ErrorDictionary(exception.errors)
                   case Ok(d) => outcome == Handled(ProblemFor(d), tryWrite(ProblemFor(d)))
                   case Err(k) => outcome == Threw(k)
  {
    if exception.OtherException? {
      return NotHandled;
    }
    response.statusCode := Status400BadRequest;
    var errors := ErrorDictionary(exception.errors);
    match errors {
      case Ok(d) =>
        var details := ProblemFor(d);
        outcome := Handled(details, tryWrite(details));
      case Err(k) =>
        outcome := Threw(k);
    }
  }
}
