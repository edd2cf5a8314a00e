/** Model of DTOs/Tags/CreateTagDtoValidator.cs: the rules a new tag must meet. */
module CreateTagDtoValidator {
  import opened Wrappers
  import opened Text
  import opened TagDtos
  import opened FluentRules

  /** The failures of CreateTagDtoValidator on a DTO: the name must not be
      empty and must have 3 to 50 characters; a description may have at most
      50 characters, and a missing one passes. */
  function Failures(dto: CreateTagDto): seq<Failure> {
    Reported(NameChecks(dto.name)) + Reported(DescriptionChecks(dto.description))
  }

  /** RuleFor(x => x.Name): NotEmpty, and a length of 3 to 50. */
  function NameChecks(name: string): seq<Checked> {
    [ Checked(IsBlank(name), Failure("Name", NotEmpty)),
      Checked(!(|name| >= 3 && |name| <= 50), Failure("Name", Must)) ]
  }

  /** RuleFor(x => x.Description): MaximumLength(50). */
  function DescriptionChecks(description: Option<string>): seq<Checked> {
    [ Checked(description.Some? && |description.value| > 50, Failure("Description", MaximumLength(50))) ]
  }

  /** The DTO passes validation. */
  predicate IsValid(dto: CreateTagDto) {
    Failures(dto) == []
  }

  /** A tag is valid exactly when its name is not all white space and has 3
      to 50 characters, and its description, if any, has at most 50. */
  lemma ValidTag(dto: CreateTagDto)
    ensures IsValid(dto) <==>
      !IsBlank(dto.name) && 3 <= |dto.name| <= 50
      && (dto.description.None? || |dto.description.value| <= 50)
  {
    var names := NameChecks(dto.name);
    var descriptions := DescriptionChecks(dto.description);
    NothingReported(names);
    NothingReported(descriptions);
    assert (forall i :: 0 <= i < |names| ==> !names[i].violated) <==> (!names[0].violated && !names[1].violated);
  }

  /** An empty name is rejected by both name checks. */
  lemma EmptyNameRejected(description: Option<string>)
    ensures FailuresOf(Failures(CreateTagDto("", description)), "Name")
         == [Failure("Name", NotEmpty), Failure("Name", Must)]
  {
    FailuresOfAppend(Reported(NameChecks("")), Reported(DescriptionChecks(description)), "Name");
    ReportedUnder(NameChecks(""), "Name", "Description");
    ReportedUnder(DescriptionChecks(description), "Description", "Name");
    var names := NameChecks("");
    assert names[1..][1..] == [];
    assert Reported(names[1..]) == [names[1].failure] + Reported(names[1..][1..]);
  }

  /** The length bounds are inclusive: names of 3 and 50 characters pass
      the length check, names of 2 and 51 fail it. */
  lemma NameLengthBoundaries(dto: CreateTagDto)
    ensures |dto.name| == 3 || |dto.name| == 50 ==> Failure("Name", Must) !in Failures(dto)
    ensures |dto.name| == 2 || |dto.name| == 51 ==> Failure("Name", Must) in Failures(dto)
  {
    var f := Failure("Name", Must);
    if |dto.name| == 3 || |dto.name| == 50 {
      NotReported(NameChecks(dto.name), f);
      NotReported(DescriptionChecks(dto.description), f);
    }
    if |dto.name| == 2 || |dto.name| == 51 {
      ReportedViolated(NameChecks(dto.name), 1);
    }
  }
}
