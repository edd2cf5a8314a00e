/** Model of DTOs/Habits/HabitMappings.cs: building a Habit entity from a
    CreateHabitDto, the HabitDto view of an entity, and updating an entity
    in place from an UpdateHabitDto. The entity and its milestone are
    objects; the clock and the GUID are inputs. */
module HabitMappings {
  import opened Wrappers
  import opened HabitDtos

  /** The entity's Frequency, a fresh value on every assignment. */
  datatype Frequency = Frequency(frequencyType: FrequencyType, timesPerPeriod: int)

  /** The entity's Target, a fresh value on every assignment. */
  datatype Target = Target(value: int, unit: string)

  /** The entity's Milestone, updated in place. */
  class Milestone {
    var target: int
    var current: int

    /** `new Milestone()`: both counts start at zero. */
    constructor ()
      ensures target == 0 && current == 0
    {
      target := 0;
      current := 0;
    }
  }

  /** The Habit entity. */
  class Habit {
    var id: string
    var name: string
    var description: Option<string>
    var habitType: HabitType
    var frequency: Frequency
    var target: Target
    var status: HabitStatus
    var isArchived: bool
    var endDate: Option<int>
    var milestone: Milestone?
    var createdAtUtc: int
    var updatedAtUtc: Option<int>
    var lastCompletedAtUtc: Option<int>

    /** The object initialiser of ToEntity; the fields it does not name keep
        their default, null. */
    constructor (id: string, name: string, description: Option<string>, habitType: HabitType,
                 frequency: Frequency, target: Target, status: HabitStatus, isArchived: bool,
                 endDate: Option<int>, milestone: Milestone?, createdAtUtc: int)
      ensures this.id == id && this.name == name && this.description == description
      ensures this.habitType == habitType && this.frequency == frequency && this.target == target
      ensures this.status == status && this.isArchived == isArchived && this.endDate == endDate
      ensures this.milestone == milestone && this.createdAtUtc == createdAtUtc
      ensures updatedAtUtc == None && lastCompletedAtUtc == None
    {
      this.id := id;
      this.name := name;
      this.description := description;
      this.habitType := habitType;
      this.frequency := frequency;
      this.target := target;
      this.status := status;
      this.isArchived := isArchived;
      this.endDate := endDate;
      this.milestone := milestone;
      this.createdAtUtc := createdAtUtc;
      updatedAtUtc := None;
      lastCompletedAtUtc := None;
    }
  }

  /** ToDto(habit): a HabitDto with every field of the entity; the milestone
      is copied when there is one. */
  function ToDto(habit: Habit): HabitDto
    reads habit, habit.milestone
  {
    HabitDto(
      habit.id, habit.name, habit.description, habit.habitType,
      FrequencyDto(habit.frequency.frequencyType, habit.frequency.timesPerPeriod),
      TargetDto(habit.target.value, habit.target.unit),
      habit.status, habit.isArchived, habit.endDate,
      if habit.milestone == null then None
      else Some(MilestoneDto(habit.milestone.target, habit.milestone.current)),
      habit.createdAtUtc, habit.updatedAtUtc, habit.lastCompletedAtUtc)
  }

  /** ToDto copies every field of the habit, and the view has a milestone
      exactly when the habit has one, with its target and progress. */
  lemma ToDtoCopies(habit: Habit)
    ensures var d := ToDto(habit);
      && d.id == habit.id && d.name == habit.name && d.description == habit.description
      && d.habitType == habit.habitType && d.status == habit.status
      && d.frequency.frequencyType == habit.frequency.frequencyType
      && d.frequency.timesPerPeriod == habit.frequency.timesPerPeriod
      && d.target.value == habit.target.value && d.target.unit == habit.target.unit
      && d.isArchived == habit.isArchived && d.endDate == habit.endDate
      && d.createdAtUtc == habit.createdAtUtc && d.updatedAtUtc == habit.updatedAtUtc
      && d.lastCompletedAtUtc == habit.lastCompletedAtUtc
      && (d.milestone.None? <==> habit.milestone == null)
      && (habit.milestone != null ==>
            d.milestone.value.target == habit.milestone.target && d.milestone.value.current == habit.milestone.current)
  {
  }

  /** The view of a habit carries what the caller asked for at creation. */
  predicate CarriesCreateDto(view: HabitDto, dto: CreateHabitDto) {
    && view.name == dto.name
    && view.description == dto.description
    && view.habitType == dto.habitType
    && view.frequency == dto.frequency
    && view.target == dto.target
    && view.endDate == dto.endDate
  }

  /** ToEntity(dto): a new, on-going, unarchived habit with id "h_" + guid,
      created now and never updated or completed, with the DTO's data; a
      milestone exactly when the DTO has one, with its target and nothing
      reached yet. */
  method ToEntity(dto: CreateHabitDto, guid: string, utcNow: int) returns (habit: Habit)
    ensures fresh(habit)
    ensures habit.milestone != null ==> fresh(habit.milestone)
    ensures var view := ToDto(habit);
      && CarriesCreateDto(view, dto)
      && view.id == "h_" + guid
      && view.status == OnGoing && !view.isArchived
      && view.createdAtUtc == utcNow && view.updatedAtUtc == None && view.lastCompletedAtUtc == None
      && (view.milestone.Some? <==> dto.milestone.Some?)
      && (dto.milestone.Some? ==> view.milestone.value == MilestoneDto(dto.milestone.value.target, 0))
  {
    var milestone: Milestone? := null;
    if dto.milestone.Some? {
      milestone := new Milestone();
      milestone.target := dto.milestone.value.target;
      milestone.current := 0;
    }
    habit := new Habit(
      "h_" + guid, dto.name, dto.description, dto.habitType,
      Frequency(dto.frequency.frequencyType, dto.frequency.timesPerPeriod),
      Target(dto.target.value, dto.target.unit),
      OnGoing, false, dto.endDate, milestone, utcNow);
  }

  /** UpdateFromDto(habit, dto): overwrites the caller-editable data and
      stamps the update time; the id, status, archive flag and the creation
      and completion times stay. A DTO milestone sets the target of the
      existing milestone object, keeping what was reached, or of a new one
      starting from zero; without a DTO milestone the milestone is left as
      it is. */
  method UpdateFromDto(habit: Habit, dto: UpdateHabitDto, utcNow: int)
    modifies habit, habit.milestone
    ensures habit.name == dto.name && habit.description == dto.description
    ensures habit.habitType == dto.habitType && habit.endDate == dto.endDate
    ensures habit.updatedAtUtc == Some(utcNow)
    ensures habit.frequency == Frequency(dto.frequency.frequencyType, dto.frequency.timesPerPeriod)
    ensures habit.target == Target(dto.target.value, dto.target.unit)
    ensures habit.id == old(habit.id) && habit.status == old(habit.status)
    ensures habit.isArchived == old(habit.isArchived) && habit.createdAtUtc == old(habit.createdAtUtc)
    ensures habit.lastCompletedAtUtc == old(habit.lastCompletedAtUtc)
    ensures dto.milestone.None? ==>
              habit.milestone == old(habit.milestone)
              && (habit.milestone != null ==> unchanged(habit.milestone))
    ensures dto.milestone.Some? ==>
              habit.milestone != null && habit.milestone.target == dto.milestone.value.target
              && (old(habit.milestone) != null ==>
                    habit.milestone == old(habit.milestone) && habit.milestone.current == old(habit.milestone.current))
              && (old(habit.milestone) == null ==> fresh(habit.milestone) && habit.milestone.current == 0)
  {
    habit.name := dto.name;
    habit.description := dto.description;
    habit.habitType := dto.habitType;
    habit.endDate := dto.endDate;
    habit.updatedAtUtc := Some(utcNow);
    habit.frequency := Frequency(dto.frequency.frequencyType, dto.frequency.timesPerPeriod);
    habit.target := Target(dto.target.value, dto.target.unit);
    if dto.milestone.Some? {
      if habit.milestone == null {
        habit.milestone := new Milestone();
      }
      habit.milestone.target := dto.milestone.value.target;
    }
  }
}
