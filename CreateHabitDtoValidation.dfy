/** Model of DTOs/Habits/CreateHabitDtoValidation.cs: the rules a new habit
    must meet. "Today" (the UTC date) is an input. */
module CreateHabitDtoValidation {
  import opened Wrappers
  import opened Text
  import opened HabitDtos
  import opened FluentRules

  /** _allowedUnits */
  const AllowedUnits: seq<string> :=
    ["minutes", "hours", "steps", "km", "cal", "pages", "books", "tasks", "sessions"]

  /** _allowedUnitsForBinaryHabits */
  const AllowedUnitsForBinaryHabits: seq<string> := ["sessions", "tasks"]

  /** IsTargetUnitCompatibleWithType(type, unit) */
  predicate IsTargetUnitCompatibleWithType(habitType: HabitType, unit: string) {
    var normalizedUnit := ToLower(unit);
    match habitType
    case Binary => normalizedUnit in AllowedUnitsForBinaryHabits
    case Messurable => normalizedUnit in AllowedUnits
    case OtherHabitType(_, _) => false
  }

  /** The failures of CreateHabitDtoValidation on a DTO, rule by rule. */
  function Failures(dto: CreateHabitDto, today: int): seq<Failure> {
    Reported(NameChecks(dto.name)) + Reported(OtherChecks(dto, today))
  }

  /** RuleFor(x => x.Name): NotEmpty, MinimumLength(3), MaximumLength(100). */
  function NameChecks(name: string): seq<Checked> {
    [ Checked(IsBlank(name), Failure("Name", NotEmpty)),
      Checked(|name| < 3, Failure("Name", MinimumLength(3))),
      Checked(|name| > 100, Failure("Name", MaximumLength(100))) ]
  }

  /** The checks of the rules after the name rule, in declaration order; the
      milestone rule only applies when there is a milestone. */
  function OtherChecks(dto: CreateHabitDto, today: int): seq<Checked> {
    [ Checked(dto.description.Some? && |dto.description.value| > 500, Failure("Description", MaximumLength(500))),
      Checked(!IsDefinedHabitType(dto.habitType), Failure("Type", IsInEnum)),
      Checked(!dto.frequency.frequencyType.declared, Failure("Frequency.Type", IsInEnum)),
      Checked(dto.frequency.timesPerPeriod <= 0, Failure("Frequency.TimesPerPeriod", GreaterThan(0))),
      Checked(dto.target.value <= 0, Failure("Target.Value", GreaterThan(0))),
      Checked(IsBlank(dto.target.unit), Failure("Target.Unit", NotEmpty)),
      Checked(ToLower(dto.target.unit) !in AllowedUnits, Failure("Target.Unit", Must)),
      Checked(!(dto.endDate.None? || dto.endDate.value > today), Failure("EndDate", Must)),
      Checked(dto.milestone.Some? && dto.milestone.value.target <= 0, Failure("Milestone.Target", GreaterThan(0))),
      Checked(!IsTargetUnitCompatibleWithType(dto.habitType, dto.target.unit), Failure("Target.Unit", Must)) ]
  }

  /** The DTO passes validation. */
  predicate IsValid(dto: CreateHabitDto, today: int) {
    Failures(dto, today) == []
  }

  /** What a valid habit is, with the redundant checks dropped: a name of 3
      to 100 characters that is not all white space, a description of at most
      500 characters if any, a Binary or Messurable type whose unit fits it, a
      declared frequency type, positive counts, an end date after today if
      any, and a positive milestone target if there is a milestone. */
  lemma ValidHabit(dto: CreateHabitDto, today: int)
    ensures IsValid(dto, today) <==>
      && !IsBlank(dto.name) && 3 <= |dto.name| <= 100
      && (dto.description.None? || |dto.description.value| <= 500)
      && (dto.habitType.Binary? || dto.habitType.Messurable?)
      && dto.frequency.frequencyType.declared
      && dto.frequency.timesPerPeriod > 0
      && dto.target.value > 0
      && IsTargetUnitCompatibleWithType(dto.habitType, dto.target.unit)
      && (dto.endDate.None? || dto.endDate.value > today)
      && (dto.milestone.None? || dto.milestone.value.target > 0)
  {
    var names := NameChecks(dto.name);
    var others := OtherChecks(dto, today);
    NothingReported(names);
    NothingReported(others);
    assert (forall i :: 0 <= i < |names| ==> !names[i].violated)
       <==> (!names[0].violated && !names[1].violated && !names[2].violated);
    assert (forall i :: 0 <= i < |others| ==> !others[i].violated)
       <==> (!others[0].violated && !others[1].violated && !others[2].violated && !others[3].violated
             && !others[4].violated && !others[5].violated && !others[6].violated && !others[7].violated
             && !others[8].violated && !others[9].violated);
    var unit := dto.target.unit;
    if IsTargetUnitCompatibleWithType(dto.habitType, unit) {
      CompatibleUnitIsAllowed(dto.habitType, unit);
      AllowedUnitIsNotBlank(unit);
    }
  }

  /** Every unit allowed for binary habits is allowed, so a compatible unit
      passes the whitelist too. */
  lemma CompatibleUnitIsAllowed(habitType: HabitType, unit: string)
    requires IsTargetUnitCompatibleWithType(habitType, unit)
    ensures ToLower(unit) in AllowedUnits
  {
  }

  /** An allowed unit is not blank, so the NotEmpty check on the unit never
      rejects a unit the whitelist accepts. */
  lemma AllowedUnitIsNotBlank(unit: string)
    requires ToLower(unit) in AllowedUnits
    ensures !IsBlank(unit)
  {
    var u := ToLower(unit);
    assert u[0] != ' ' && !IsWhiteSpace(u[0]) by {
      assert u[0] in "mhskcpbt";
    }
  }

  /** Units are compared ignoring letter case: two units with the same
      lower-case form get the same failures. */
  lemma UnitCaseIgnored(dto: CreateHabitDto, today: int, unit: string)
    requires ToLower(unit) == ToLower(dto.target.unit)
    ensures Failures(dto.(target := dto.target.(unit := unit)), today) == Failures(dto, today)
  {
    LowerKeepsBlank(unit);
    LowerKeepsBlank(dto.target.unit);
  }

  /** Lower-casing maps white space to itself and nothing else to white space. */
  lemma LowerKeepsBlank(s: string)
    ensures IsBlank(ToLower(s)) <==> IsBlank(s)
  {
    if IsBlank(ToLower(s)) {
      forall i | 0 <= i < |s| ensures IsWhiteSpace(s[i]) {
        assert IsWhiteSpace(ToLower(s)[i]);
      }
    }
  }

  /** An end date of today is rejected; tomorrow is accepted. */
  lemma EndDateMustBeInTheFuture(dto: CreateHabitDto, today: int)
    ensures Failure("EndDate", Must) in Failures(dto.(endDate := Some(today)), today)
    ensures Failure("EndDate", Must) !in Failures(dto.(endDate := Some(today + 1)), today)
  {
    EndDateChecked(dto.(endDate := Some(today)), today);
    EndDateChecked(dto.(endDate := Some(today + 1)), today);
  }

  /** The EndDate failure is reported exactly when the end date is not after today. */
  lemma EndDateChecked(dto: CreateHabitDto, today: int)
    ensures Failure("EndDate", Must) in Failures(dto, today) <==> dto.endDate.Some? && dto.endDate.value <= today
  {
    var f := Failure("EndDate", Must);
    var others := OtherChecks(dto, today);
    NotReported(NameChecks(dto.name), f);
    if dto.endDate.Some? && dto.endDate.value <= today {
      ReportedViolated(others, 7);
    } else {
      forall i | 0 <= i < |others| && others[i].violated ensures others[i].failure != f {
        if i != 7 {
          assert others[i].failure.propertyName != f.propertyName || others[i].failure.check != Must;
        }
      }
      NotReported(others, f);
    }
  }

  /** An empty name fails both NotEmpty and MinimumLength; three spaces fail
      NotEmpty only. */
  lemma EmptyNameFailures(dto: CreateHabitDto, today: int)
    ensures FailuresOf(Failures(dto.(name := ""), today), "Name") == [Failure("Name", NotEmpty), Failure("Name", MinimumLength(3))]
    ensures FailuresOf(Failures(dto.(name := "   "), today), "Name") == [Failure("Name", NotEmpty)]
  {
    assert IsBlank("   ") by {
      assert IsWhiteSpace(' ');
    }
    RulesOfName(dto.(name := ""), today);
    RulesOfName(dto.(name := "   "), today);
    ReportedOfThree(NameChecks(""));
    ReportedOfThree(NameChecks("   "));
  }

  /** The failures reported for the name are those of the name rule. */
  lemma RulesOfName(dto: CreateHabitDto, today: int)
    ensures FailuresOf(Failures(dto, today), "Name") == Reported(NameChecks(dto.name))
  {
    FailuresOfAppend(Reported(NameChecks(dto.name)), Reported(OtherChecks(dto, today)), "Name");
    ReportedUnder(NameChecks(dto.name), "Name", "Description");
    ReportedElsewhere(OtherChecks(dto, today), "Name");
  }

  /** The failures of a three-check rule, check by check. */
  lemma ReportedOfThree(checks: seq<Checked>)
    requires |checks| == 3
    ensures Reported(checks) ==
      (if checks[0].violated then [checks[0].failure] else [])
      + (if checks[1].violated then [checks[1].failure] else [])
      + (if checks[2].violated then [checks[2].failure] else [])
  {
    var last := checks[1..][1..];
    assert last == [checks[2]] && last[1..] == [];
    assert Reported(last) == (if checks[2].violated then [checks[2].failure] else []) + Reported(last[1..]);
    assert Reported(checks[1..]) == (if checks[1].violated then [checks[1].failure] else []) + Reported(last);
  }
}
