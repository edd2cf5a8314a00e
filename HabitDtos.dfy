/** The habit DTO records of DTOs/Habits and the enumerations they use. An
    enumeration whose declaration is not part of this model keeps the members
    the modelled code names and a case for any other numeric value, with the
    information whether that value is a declared member. Dates are day
    numbers and times are tick counts. */
module HabitDtos {
  import opened Wrappers

  /** HabitType: Binary and Messurable, or another numeric value. */
  datatype HabitType = Binary | Messurable | OtherHabitType(code: int, declared: bool)

  /** FrequencyType, by numeric value. */
  datatype FrequencyType = FrequencyType(code: int, declared: bool)

  /** HabitStatus: OnGoing, or another numeric value. */
  datatype HabitStatus = OnGoing | OtherHabitStatus(code: int)

  /** Enum.IsDefined for a habit type. */
  predicate IsDefinedHabitType(t: HabitType) {
    t.Binary? || t.Messurable? || t.declared
  }

  /** FrequencyDto */
  datatype FrequencyDto = FrequencyDto(frequencyType: FrequencyType, timesPerPeriod: int)

  /** TargetDto */
  datatype TargetDto = TargetDto(value: int, unit: string)

  /** MilestoneDto */
  datatype MilestoneDto = MilestoneDto(target: int, current: int)

  /** The milestone of an UpdateHabitDto: only its target is used. */
  datatype UpdateMilestoneDto = UpdateMilestoneDto(target: int)

  /** CreateHabitDto */
  datatype CreateHabitDto = CreateHabitDto(
    name: string,
    description: Option<string>,
    habitType: HabitType,
    frequency: FrequencyDto,
    target: TargetDto,
    endDate: Option<int>,
    milestone: Option<MilestoneDto>)

  /** UpdateHabitDto */
  datatype UpdateHabitDto = UpdateHabitDto(
    name: string,
    description: Option<string>,
    habitType: HabitType,
    frequency: FrequencyDto,
    target: TargetDto,
    endDate: Option<int>,
    milestone: Option<UpdateMilestoneDto>)

  /** HabitDto */
  datatype HabitDto = HabitDto(
    id: string,
    name: string,
    description: Option<string>,
    habitType: HabitType,
    frequency: FrequencyDto,
    target: TargetDto,
    status: HabitStatus,
    isArchived: bool,
    endDate: Option<int>,
    milestone: Option<MilestoneDto>,
    createdAtUtc: int,
    updatedAtUtc: Option<int>,
    lastCompletedAtUtc: Option<int>)
}
