/** The scheduler's run configuration: the hard-constraint defaults merged with
    the caller's partial overrides when a `ClinicalScheduler` is constructed. */
module Config {
  import opened Wrappers

  datatype SchedulingConstraints = SchedulingConstraints(
    maxConsecutiveDays: int,
    maxWeekendsPerMonth: int,
    minRestHoursBetweenShifts: int,
    fairnessWeight: real,
    preferenceWeight: real)

  /** A partial `SchedulingConstraints`: an absent key keeps its default. */
  datatype ConstraintOverrides = ConstraintOverrides(
    maxConsecutiveDays: Option<int>,
    maxWeekendsPerMonth: Option<int>,
    minRestHoursBetweenShifts: Option<int>,
    fairnessWeight: Option<real>,
    preferenceWeight: Option<real>)

  const DefaultConstraints := SchedulingConstraints(7, 1, 12, 0.4, 0.6)

  /** The fields a scheduler is constructed with; none of them changes later. */
  datatype ClinicalScheduler = ClinicalScheduler(
    teamId: int,
    schedulePeriodId: int,
    constraints: SchedulingConstraints)

  /** The constructor: the defaults, with every key the caller supplied
      replacing the default of that key. */
  function NewClinicalScheduler(teamId: int, schedulePeriodId: int, overrides: Option<ConstraintOverrides>)
    : (s: ClinicalScheduler)
    ensures s.teamId == teamId && s.schedulePeriodId == schedulePeriodId
    ensures overrides.None? ==> s.constraints == DefaultConstraints
    ensures overrides.Some? && overrides.value.maxConsecutiveDays.Some? ==>
              s.constraints.maxConsecutiveDays == overrides.value.maxConsecutiveDays.value
    ensures overrides.Some? && overrides.value.maxConsecutiveDays.None? ==>
              s.constraints.maxConsecutiveDays == 7
    ensures overrides.Some? && overrides.value.maxWeekendsPerMonth.Some? ==>
              s.constraints.maxWeekendsPerMonth == overrides.value.maxWeekendsPerMonth.value
    ensures overrides.Some? && overrides.value.maxWeekendsPerMonth.None? ==>
              s.constraints.maxWeekendsPerMonth == 1
    ensures overrides.Some? && overrides.value.minRestHoursBetweenShifts.Some? ==>
              s.constraints.minRestHoursBetweenShifts == overrides.value.minRestHoursBetweenShifts.value
    ensures overrides.Some? && overrides.value.minRestHoursBetweenShifts.None? ==>
              s.constraints.minRestHoursBetweenShifts == 12
    ensures overrides.Some? && overrides.value.fairnessWeight.Some? ==>
              s.constraints.fairnessWeight == overrides.value.fairnessWeight.value
    ensures overrides.Some? && overrides.value.fairnessWeight.None? ==>
              s.constraints.fairnessWeight == 0.4
    ensures overrides.Some? && overrides.value.preferenceWeight.Some? ==>
              s.constraints.preferenceWeight == overrides.value.preferenceWeight.value
    ensures overrides.Some? && overrides.value.preferenceWeight.None? ==>
              s.constraints.preferenceWeight == 0.6
  {
    var constraints :=
      if overrides.None? then DefaultConstraints
      else
        var o := overrides.value;
        SchedulingConstraints(
          o.maxConsecutiveDays.GetOr(DefaultConstraints.maxConsecutiveDays),
          o.maxWeekendsPerMonth.GetOr(DefaultConstraints.maxWeekendsPerMonth),
          o.minRestHoursBetweenShifts.GetOr(DefaultConstraints.minRestHoursBetweenShifts),
          o.fairnessWeight.GetOr(DefaultConstraints.fairnessWeight),
          o.preferenceWeight.GetOr(DefaultConstraints.preferenceWeight));
    ClinicalScheduler(teamId, schedulePeriodId, constraints)
  }
}
