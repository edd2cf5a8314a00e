/** The FluentValidation behaviour the validators rely on: every rule of a
    validator is evaluated and every failing check of a rule is reported, in
    declaration order, under the property path the rule names. */
module FluentRules {

  /** The built-in check that failed. */
  datatype Check =
    | NotEmpty
    | MinimumLength(min: nat)
    | MaximumLength(max: nat)
    | IsInEnum
    | GreaterThan(bound: int)
    | Must

  /** A ValidationFailure, identified by property path and check; messages
      are not part of this model. */
  datatype Failure = Failure(propertyName: string, check: Check)

  /** One check of a rule applied to a value: whether the value violates
      it, and the failure it reports then. */
  datatype Checked = Checked(violated: bool, failure: Failure)

  /** The failures a validator reports: one for each violated check, in
      declaration order. */
  function Reported(checks: seq<Checked>): seq<Failure>
  {
    if checks == [] then []
    else (if checks[0].violated then [checks[0].failure] else []) + Reported(checks[1..])
  }

  /** Reporting distributes over concatenation of rule lists. */
  lemma {:induction false} ReportedAppend(a: seq<Checked>, b: seq<Checked>)
    ensures Reported(a + b) == Reported(a) + Reported(b)
  {
    if a != [] {
      assert (a + b)[1..] == a[1..] + b;
      ReportedAppend(a[1..], b);
    } else {
      assert a + b == b;
    }
  }

  /** Nothing is reported exactly when no check is violated. */
  lemma {:induction false} NothingReported(checks: seq<Checked>)
    ensures Reported(checks) == [] <==> forall i :: 0 <= i < |checks| ==> !checks[i].violated
  {
    if checks != [] {
      NothingReported(checks[1..]);
      assert forall i :: 1 <= i < |checks| ==> checks[i] == checks[1..][i - 1];
    }
  }

  /** A failure is reported exactly when a check that reports it is violated. */
  lemma {:induction false} ReportedMembers(checks: seq<Checked>)
    ensures forall f :: f in Reported(checks) <==>
      exists i :: 0 <= i < |checks| && checks[i].violated && checks[i].failure == f
  {
    if checks != [] {
      ReportedMembers(checks[1..]);
      assert forall i :: 1 <= i < |checks| ==> checks[i] == checks[1..][i - 1];
      forall f | f in Reported(checks)
        ensures exists i :: 0 <= i < |checks| && checks[i].violated && checks[i].failure == f
      {
        if !(checks[0].violated && checks[0].failure == f) {
          var head := if checks[0].violated then [checks[0].failure] else [];
          assert Reported(checks) == head + Reported(checks[1..]);
          assert f !in head;
          assert f in Reported(checks[1..]);
          var j :| 0 <= j < |checks| - 1 && checks[1..][j].violated && checks[1..][j].failure == f;
          assert checks[j + 1] == checks[1..][j];
        }
      }
    }
  }

  /** The failures reported for one property. */
  function FailuresOf(failures: seq<Failure>, propertyName: string): seq<Failure>
  {
    if failures == [] then []
    else
      (if failures[0].propertyName == propertyName then [failures[0]] else [])
      + FailuresOf(failures[1..], propertyName)
  }

  /** The failures selected for a property are failures of the list, all
      reported under that property, and every such failure is selected. */
  lemma {:induction false} FailuresOfSelects(failures: seq<Failure>, propertyName: string)
    ensures |FailuresOf(failures, propertyName)| <= |failures|
    ensures forall f :: f in FailuresOf(failures, propertyName) <==> f in failures && f.propertyName == propertyName
  {
    if failures != [] {
      FailuresOfSelects(failures[1..], propertyName);
      assert failures == [failures[0]] + failures[1..];
    }
  }

  /** Selecting a property's failures distributes over concatenation. */
  lemma {:induction false} FailuresOfAppend(a: seq<Failure>, b: seq<Failure>, propertyName: string)
    ensures FailuresOf(a + b, propertyName) == FailuresOf(a, propertyName) + FailuresOf(b, propertyName)
  {
    if a != [] {
      assert (a + b)[1..] == a[1..] + b;
      FailuresOfAppend(a[1..], b, propertyName);
    } else {
      assert a + b == b;
    }
  }

  /** Checks of one property report all their failures under it, and none
      under another property. */
  lemma {:induction false} ReportedUnder(checks: seq<Checked>, propertyName: string, other: string)
    requires forall i :: 0 <= i < |checks| ==> checks[i].failure.propertyName == propertyName
    requires other != propertyName
    ensures FailuresOf(Reported(checks), propertyName) == Reported(checks)
    ensures FailuresOf(Reported(checks), other) == []
  {
    if checks != [] {
      ReportedUnder(checks[1..], propertyName, other);
      assert forall i :: 1 <= i < |checks| ==> checks[i] == checks[1..][i - 1];
      var head := if checks[0].violated then [checks[0].failure] else [];
      FailuresOfAppend(head, Reported(checks[1..]), propertyName);
      FailuresOfAppend(head, Reported(checks[1..]), other);
    }
  }

  /** Failures of other properties are not selected for this one. */
  lemma {:induction false} NoFailuresOf(a: seq<Failure>, propertyName: string)
    requires forall f :: f in a ==> f.propertyName != propertyName
    ensures FailuresOf(a, propertyName) == []
  {
    if a != [] {
      assert a[0] in a;
      NoFailuresOf(a[1..], propertyName);
    }
  }

  /** Checks of other properties report nothing under this one. */
  lemma ReportedElsewhere(checks: seq<Checked>, propertyName: string)
    requires forall i :: 0 <= i < |checks| ==> checks[i].failure.propertyName != propertyName
    ensures FailuresOf(Reported(checks), propertyName) == []
  {
    ReportedMembers(checks);
    NoFailuresOf(Reported(checks), propertyName);
  }

  /** A violated check reports its failure. */
  lemma ReportedViolated(checks: seq<Checked>, i: int)
    requires 0 <= i < |checks| && checks[i].violated
    ensures checks[i].failure in Reported(checks)
  {
    ReportedMembers(checks);
  }

  /** A failure no violated check reports is not reported. */
  lemma NotReported(checks: seq<Checked>, f: Failure)
    requires forall i :: 0 <= i < |checks| && checks[i].violated ==> checks[i].failure != f
    ensures f !in Reported(checks)
  {
    ReportedMembers(checks);
  }
}
