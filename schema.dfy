/** The records the scheduler reads and writes: the closed enumerations and the
    fields of the services, schedule periods, availability entries, user
    preferences and assignments tables that the scheduling logic uses. */
module Schema {
  import opened Wrappers
  import opened Calendar

  datatype ServiceType = Weekday | Weekend | Holiday | Call

  datatype AssignmentStatus = Scheduled | Pending | Completed | Cancelled

  datatype PreferenceType = Prefer | Available | Unavailable | EmergencyOnly

  /** A service (rotation) that needs `minStaffRequired` people on each day it runs. */
  datatype Service = Service(
    id: int,
    name: string,
    serviceType: ServiceType,
    minStaffRequired: int,
    maxStaffAllowed: int,
    isActive: bool)

  /** A schedule period; both end dates are included. */
  datatype SchedulePeriod = SchedulePeriod(
    id: int,
    startDate: Day,
    endDate: Day,
    isPublished: bool,
    isLocked: bool)

  /** One user's stated willingness for one service on one date; `priority`
      is a nullable column. */
  datatype AvailabilityEntry = AvailabilityEntry(
    userId: int,
    serviceId: int,
    date: Day,
    preferenceType: PreferenceType,
    priority: Option<int>)

  /** The JSON column `customPreferences`; every key may be absent. */
  datatype CustomPreferences = CustomPreferences(
    preferredServices: Option<seq<string>>,
    blackoutDates: Option<seq<string>>,
    preferredDaysOff: Option<seq<int>>,
    maxShiftsPerWeek: Option<int>,
    minRestHoursBetweenShifts: Option<int>)

  /** A user's preferences for one team; the numeric caps are nullable. */
  datatype UserPreferences = UserPreferences(
    userId: int,
    maxConsecutiveDays: Option<int>,
    maxWeekendsPerMonth: Option<int>,
    customPreferences: Option<CustomPreferences>)

  /** The assignment's free-text note. The scheduler writes the score it chose
      the user with; other notes are carried as text. */
  datatype Notes = NoNotes | AutoAssigned(score: int) | Text(text: string)

  datatype Assignment = Assignment(
    id: int,
    userId: int,
    serviceId: int,
    schedulePeriodId: int,
    date: Day,
    status: AssignmentStatus,
    isCallDay: bool,
    assignedBy: Option<int>,
    notes: Notes)
}
