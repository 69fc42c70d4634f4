/** Calendar days as plain day numbers.

    A date is the number of days since 1970-01-01, which was a Thursday. The
    scheduler only ever asks a date for its day of the week, its month and its
    year, and steps it forwards or backwards one day at a time; all of these are
    total functions of the day number here. */
module Calendar {

  /** Days since 1970-01-01 (negative before it). */
  type Day = int

  /** Day of the week with 0 = Sunday, 1 = Monday, ..., 6 = Saturday. */
  function DayOfWeek(d: Day): (w: int)
    ensures 0 <= w < 7
  {
    (d + 4) % 7
  }

  /** A Saturday or a Sunday. */
  predicate IsWeekendDay(d: Day)
  {
    DayOfWeek(d) == 0 || DayOfWeek(d) == 6
  }

  /** Proleptic Gregorian (year, month, day of month) of a day number. Dafny's
      division is Euclidean, so for the positive divisors used here it rounds
      towards minus infinity, which is what this conversion needs. */
  function CivilFromDays(d: Day): (int, int, int)
  {
    var z := d + 719468;
    var era := z / 146097;
    var doe := z - era * 146097;
    var yoe := (doe - doe / 1460 + doe / 36524 - doe / 146096) / 365;
    var doy := doe - (365 * yoe + yoe / 4 - yoe / 100);
    var mp := (5 * doy + 2) / 153;
    var dom := doy - (153 * mp + 2) / 5 + 1;
    var m := if mp < 10 then mp + 3 else mp - 9;
    var y := yoe + era * 400;
    (if m <= 2 then y + 1 else y, m, dom)
  }

  /** Calendar month (1 = January). */
  function Month(d: Day): int
  {
    CivilFromDays(d).1
  }

  /** Calendar year. */
  function Year(d: Day): int
  {
    CivilFromDays(d).0
  }

  /** The holiday calendar: no day is a holiday. */
  predicate IsHoliday(d: Day): (b: bool)
    ensures !b
  {
    false
  }
}
