/** The three hard-constraint predicates (`wouldViolateConsecutiveDays`,
    `wouldExceedWeekendsPerMonth`, `wouldViolateRestPeriod`) and
    `checkConstraints`, which collects the messages of those that a candidate
    assignment would violate. */
module ConstraintChecker {
  import opened Wrappers
  import opened Calendar
  import opened Schema
  import opened Config
  import opened SlotGenerator

  const ConsecutiveDaysMessage := "Would exceed maximum consecutive days"
  const WeekendsMessage := "Would exceed maximum weekends per month"
  const RestPeriodMessage := "Would violate minimum rest period"

  /** The assignments held by `userId`, in order. */
  function UserAssignments(all: seq<Assignment>, userId: int): (r: seq<Assignment>)
    decreases |all|
    ensures forall a :: a in r <==> a in all && a.userId == userId
  {
    if all == [] then []
    else UserAssignments(all[..|all| - 1], userId)
         + (if all[|all| - 1].userId == userId then [all[|all| - 1]] else [])
  }

  lemma {:induction false} UserAssignmentsAppend(a: seq<Assignment>, b: seq<Assignment>, userId: int)
    ensures UserAssignments(a + b, userId) == UserAssignments(a, userId) + UserAssignments(b, userId)
    decreases |b|
  {
    if b == [] {
      assert a + b == a;
    } else {
      var init, last := b[..|b| - 1], b[|b| - 1];
      var tail := if last.userId == userId then [last] else [];
      UserAssignmentsAppend(a, init, userId);
      assert (a + b)[..|a + b| - 1] == a + init;
      assert (a + b)[|a + b| - 1] == last;
      assert UserAssignments(a + b, userId) == UserAssignments(a + init, userId) + tail;
      assert UserAssignments(b, userId) == UserAssignments(init, userId) + tail;
      assert UserAssignments(a + b, userId)
          == UserAssignments(a, userId) + (UserAssignments(init, userId) + tail);
    }
  }

  /** Some assignment falls on `day`. */
  predicate HasAssignmentOn(us: seq<Assignment>, day: Day)
  {
    exists i :: 0 <= i < |us| && us[i].date == day
  }

  /** `userPrefs?.maxConsecutiveDays || constraints.maxConsecutiveDays`: a
      missing record, a null column and 0 all fall back to the scheduler's value. */
  function EffectiveMaxConsecutive(sched: ClinicalScheduler, prefs: Option<UserPreferences>): (m: int)
    ensures prefs.Some? && prefs.value.maxConsecutiveDays.Some? && prefs.value.maxConsecutiveDays.value != 0
            ==> m == prefs.value.maxConsecutiveDays.value
    ensures !(prefs.Some? && prefs.value.maxConsecutiveDays.Some? && prefs.value.maxConsecutiveDays.value != 0)
            ==> m == sched.constraints.maxConsecutiveDays
  {
    match prefs
    case Some(p) =>
      (match p.maxConsecutiveDays
       case Some(v) => if v != 0 then v else sched.constraints.maxConsecutiveDays
       case None => sched.constraints.maxConsecutiveDays)
    case None => sched.constraints.maxConsecutiveDays
  }

  /** The same fallback for the weekends-per-month cap. */
  function EffectiveMaxWeekends(sched: ClinicalScheduler, prefs: Option<UserPreferences>): (m: int)
    ensures prefs.Some? && prefs.value.maxWeekendsPerMonth.Some? && prefs.value.maxWeekendsPerMonth.value != 0
            ==> m == prefs.value.maxWeekendsPerMonth.value
    ensures !(prefs.Some? && prefs.value.maxWeekendsPerMonth.Some? && prefs.value.maxWeekendsPerMonth.value != 0)
            ==> m == sched.constraints.maxWeekendsPerMonth
  {
    match prefs
    case Some(p) =>
      (match p.maxWeekendsPerMonth
       case Some(v) => if v != 0 then v else sched.constraints.maxWeekendsPerMonth
       case None => sched.constraints.maxWeekendsPerMonth)
    case None => sched.constraints.maxWeekendsPerMonth
  }

  /** How many of the days `date - 1`, `date - 2`, ... carry an assignment
      before the first that does not, looking at no more than `limit` days. */
  function DaysBefore(us: seq<Assignment>, date: Day, limit: int): nat
    decreases limit
  {
    if limit <= 0 then 0
    else if HasAssignmentOn(us, date - 1) then 1 + DaysBefore(us, date - 1, limit - 1)
    else 0
  }

  /** The same, looking forwards from `date + 1`. */
  function DaysAfter(us: seq<Assignment>, date: Day, limit: int): nat
    decreases limit
  {
    if limit <= 0 then 0
    else if HasAssignmentOn(us, date + 1) then 1 + DaysAfter(us, date + 1, limit - 1)
    else 0
  }

  /** The count `wouldViolateConsecutiveDays` arrives at: the new day plus
      the occupied days found scanning at most `maxConsecutive - 1` days back
      and at most `maxConsecutive - 1` days forward. */
  function ConsecutiveCount(us: seq<Assignment>, date: Day, maxConsecutive: int): int
  {
    1 + DaysBefore(us, date, maxConsecutive - 1) + DaysAfter(us, date, maxConsecutive - 1)
  }

  method WouldViolateConsecutiveDays(newDate: Day, userAssignments: seq<Assignment>, maxConsecutive: int)
    returns (violates: bool)
    ensures violates <==> ConsecutiveCount(userAssignments, newDate, maxConsecutive) > maxConsecutive
  {
    var consecutiveCount := 1;
    var i := 1;
    while i < maxConsecutive
      invariant 1 <= i && (i <= maxConsecutive || i == 1)
      invariant consecutiveCount == i
      invariant DaysBefore(userAssignments, newDate, maxConsecutive - 1)
             == (i - 1) + DaysBefore(userAssignments, newDate - (i - 1), maxConsecutive - i)
    {
      var checkDate := newDate - i;
      if HasAssignmentOn(userAssignments, checkDate) {
        consecutiveCount := consecutiveCount + 1;
      } else {
        break;
      }
      i := i + 1;
    }
    assert consecutiveCount == 1 + DaysBefore(userAssignments, newDate, maxConsecutive - 1);
    ghost var back := consecutiveCount;
    i := 1;
    while i < maxConsecutive
      invariant 1 <= i && (i <= maxConsecutive || i == 1)
      invariant consecutiveCount == back + i - 1
      invariant DaysAfter(userAssignments, newDate, maxConsecutive - 1)
             == (i - 1) + DaysAfter(userAssignments, newDate + (i - 1), maxConsecutive - i)
    {
      var checkDate := newDate + i;
      if HasAssignmentOn(userAssignments, checkDate) {
        consecutiveCount := consecutiveCount + 1;
      } else {
        break;
      }
      i := i + 1;
    }
    violates := consecutiveCount > maxConsecutive;
  }

  /** A Saturday or Sunday in the month and year of `date`. */
  predicate WeekendOfMonth(day: Day, date: Day)
  {
    Month(day) == Month(date) && Year(day) == Year(date) && IsWeekendDay(day)
  }

  /** The user's assignments on a Saturday or Sunday in the month and year of `date`. */
  function WeekendsInMonth(us: seq<Assignment>, date: Day): nat
    decreases |us|
  {
    if us == [] then 0
    else
      var a := us[|us| - 1];
      WeekendsInMonth(us[..|us| - 1], date)
        + (if WeekendOfMonth(a.date, date) then 1 else 0)
  }

  predicate WouldExceedWeekendsPerMonth(newDate: Day, userAssignments: seq<Assignment>, maxWeekends: int)
  {
    WeekendsInMonth(userAssignments, newDate) >= maxWeekends
  }

  predicate WouldViolateRestPeriod(slot: Slot, userAssignments: seq<Assignment>)
  {
    exists i :: 0 <= i < |userAssignments| &&
      (userAssignments[i].date == slot.date - 1 || userAssignments[i].date == slot.date + 1)
  }

  /** The messages `checkConstraints` collects, in its order. */
  function Violations(sched: ClinicalScheduler, userId: int, slot: Slot,
                      current: seq<Assignment>, existing: seq<Assignment>,
                      prefs: Option<UserPreferences>): seq<string>
  {
    var us := UserAssignments(current + existing, userId);
    var maxConsecutive := EffectiveMaxConsecutive(sched, prefs);
    (if ConsecutiveCount(us, slot.date, maxConsecutive) > maxConsecutive
     then [ConsecutiveDaysMessage] else [])
    + (if slot.isWeekend && WouldExceedWeekendsPerMonth(slot.date, us, EffectiveMaxWeekends(sched, prefs))
       then [WeekendsMessage] else [])
    + (if WouldViolateRestPeriod(slot, us) then [RestPeriodMessage] else [])
  }

  method CheckConstraints(sched: ClinicalScheduler, userId: int, slot: Slot,
                          currentAssignments: seq<Assignment>, existingAssignments: seq<Assignment>,
                          userPrefs: Option<UserPreferences>)
    returns (violations: seq<string>)
    ensures violations == Violations(sched, userId, slot, currentAssignments, existingAssignments, userPrefs)
  {
    violations := [];
    var allAssignments := currentAssignments + existingAssignments;
    var userAssignments := UserAssignments(allAssignments, userId);

    var maxConsecutive := EffectiveMaxConsecutive(sched, userPrefs);
    var tooMany := WouldViolateConsecutiveDays(slot.date, userAssignments, maxConsecutive);
    if tooMany {
      violations := violations + [ConsecutiveDaysMessage];
    }

    if slot.isWeekend {
      var maxWeekends := EffectiveMaxWeekends(sched, userPrefs);
      if WouldExceedWeekendsPerMonth(slot.date, userAssignments, maxWeekends) {
        violations := violations + [WeekendsMessage];
      }
    }

    if WouldViolateRestPeriod(slot, userAssignments) {
      violations := violations + [RestPeriodMessage];
    }
  }

  /** A candidate passes exactly when none of the three checks fires; the rest
      check is the same as an assignment on the day before or the day after. */
  lemma ViolationsEmptyIff(sched: ClinicalScheduler, userId: int, slot: Slot,
                           current: seq<Assignment>, existing: seq<Assignment>,
                           prefs: Option<UserPreferences>)
    ensures var us := UserAssignments(current + existing, userId);
            var maxConsecutive := EffectiveMaxConsecutive(sched, prefs);
            (|Violations(sched, userId, slot, current, existing, prefs)| == 0 <==>
              && ConsecutiveCount(us, slot.date, maxConsecutive) <= maxConsecutive
              && !(slot.isWeekend && WeekendsInMonth(us, slot.date) >= EffectiveMaxWeekends(sched, prefs))
              && !HasAssignmentOn(us, slot.date - 1)
              && !HasAssignmentOn(us, slot.date + 1))
  {
    var us := UserAssignments(current + existing, userId);
    if HasAssignmentOn(us, slot.date - 1) {
      var i :| 0 <= i < |us| && us[i].date == slot.date - 1;
      assert WouldViolateRestPeriod(slot, us);
    }
    if HasAssignmentOn(us, slot.date + 1) {
      var i :| 0 <= i < |us| && us[i].date == slot.date + 1;
      assert WouldViolateRestPeriod(slot, us);
    }
  }

  /** `DaysBefore(us, date, limit) >= k` exactly when `k <= limit` and each of
      the `k` days before `date` carries an assignment. */
  lemma {:induction false} DaysBeforeCovers(us: seq<Assignment>, date: Day, limit: int, k: nat)
    requires limit >= 0
    ensures k <= DaysBefore(us, date, limit) <==>
            k <= limit && forall day :: date - k <= day < date ==> HasAssignmentOn(us, day)
    decreases limit
  {
    if k > 0 && limit > 0 && HasAssignmentOn(us, date - 1) {
      DaysBeforeCovers(us, date - 1, limit - 1, k - 1);
    }
  }

  /** The same for `DaysAfter` and the `k` days after `date`. */
  lemma {:induction false} DaysAfterCovers(us: seq<Assignment>, date: Day, limit: int, k: nat)
    requires limit >= 0
    ensures k <= DaysAfter(us, date, limit) <==>
            k <= limit && forall day :: date < day <= date + k ==> HasAssignmentOn(us, day)
    decreases limit
  {
    if k > 0 && limit > 0 && HasAssignmentOn(us, date + 1) {
      DaysAfterCovers(us, date + 1, limit - 1, k - 1);
    }
  }

  /** With a cap of at least one day, the consecutive-days check only fires
      when the rest check does: it needs an assignment next to the new day. */
  lemma ConsecutiveViolationImpliesRestViolation(us: seq<Assignment>, date: Day, maxConsecutive: int)
    requires maxConsecutive >= 1
    requires ConsecutiveCount(us, date, maxConsecutive) > maxConsecutive
    ensures HasAssignmentOn(us, date - 1) || HasAssignmentOn(us, date + 1)
  {
  }

  /** The days `lo..hi` around `date` all carry an assignment, `date` itself aside. */
  ghost predicate OccupiedAround(us: seq<Assignment>, date: Day, lo: Day, hi: Day)
  {
    lo <= date <= hi && forall day :: lo <= day <= hi && day != date ==> HasAssignmentOn(us, day)
  }

  /** The check the day-by-day scan approximates: taking the new day would give
      the user a run of more than `maxConsecutive` consecutive working days. */
  ghost predicate RunWouldExceed(us: seq<Assignment>, date: Day, maxConsecutive: int)
  {
    exists lo, hi :: OccupiedAround(us, date, lo, hi) && hi - lo + 1 > maxConsecutive
  }

  /** A scan of up to `maxConsecutive` days each way decides `RunWouldExceed`. */
  lemma FullScanDecidesRun(us: seq<Assignment>, date: Day, maxConsecutive: int)
    ensures RunWouldExceed(us, date, maxConsecutive) <==>
            1 + DaysBefore(us, date, maxConsecutive) + DaysAfter(us, date, maxConsecutive) > maxConsecutive
  {
    var m := maxConsecutive;
    if m < 0 {
      assert OccupiedAround(us, date, date, date);
    } else {
      var b := DaysBefore(us, date, m);
      var f := DaysAfter(us, date, m);
      if 1 + b + f > m {
        DaysBeforeCovers(us, date, m, b);
        DaysAfterCovers(us, date, m, f);
        assert OccupiedAround(us, date, date - b, date + f);
      }
      if RunWouldExceed(us, date, m) {
        var lo, hi :| OccupiedAround(us, date, lo, hi) && hi - lo + 1 > m;
        var b0 := if date - lo < m then date - lo else m;
        var f0 := if hi - date < m then hi - date else m;
        DaysBeforeCovers(us, date, m, b0);
        DaysAfterCovers(us, date, m, f0);
      }
    }
  }

  lemma {:induction false} DaysBeforeMonotone(us: seq<Assignment>, date: Day, limit: int)
    ensures DaysBefore(us, date, limit) <= DaysBefore(us, date, limit + 1)
    decreases limit
  {
    if limit > 0 && HasAssignmentOn(us, date - 1) {
      DaysBeforeMonotone(us, date - 1, limit - 1);
    }
  }

  lemma {:induction false} DaysAfterMonotone(us: seq<Assignment>, date: Day, limit: int)
    ensures DaysAfter(us, date, limit) <= DaysAfter(us, date, limit + 1)
    decreases limit
  {
    if limit > 0 && HasAssignmentOn(us, date + 1) {
      DaysAfterMonotone(us, date + 1, limit - 1);
    }
  }

  /** Whenever the consecutive-days check fires, the user really would work
      more than `maxConsecutive` days in a row. */
  lemma ConsecutiveCheckIsSound(us: seq<Assignment>, date: Day, maxConsecutive: int)
    requires ConsecutiveCount(us, date, maxConsecutive) > maxConsecutive
    ensures RunWouldExceed(us, date, maxConsecutive)
  {
    DaysBeforeMonotone(us, date, maxConsecutive - 1);
    DaysAfterMonotone(us, date, maxConsecutive - 1);
    FullScanDecidesRun(us, date, maxConsecutive);
  }

  /** Because the scan stops after `maxConsecutive - 1` days each way, it does
      not see a run that lies entirely on one side of the new day: two worked
      days right before a new day make three in a row, over a cap of two. */
  lemma ConsecutiveCheckMissesOneSidedRun()
    ensures var us := [Assignment(1, 7, 1, 1, 8, Scheduled, false, None, NoNotes),
                       Assignment(2, 7, 1, 1, 9, Scheduled, false, None, NoNotes)];
            RunWouldExceed(us, 10, 2) && ConsecutiveCount(us, 10, 2) <= 2
  {
    var us := [Assignment(1, 7, 1, 1, 8, Scheduled, false, None, NoNotes),
               Assignment(2, 7, 1, 1, 9, Scheduled, false, None, NoNotes)];
    assert us[0].date == 8 && us[1].date == 9;
    assert HasAssignmentOn(us, 9) && HasAssignmentOn(us, 8);
    assert OccupiedAround(us, 10, 8, 10);
    assert !HasAssignmentOn(us, 11);
  }

  /** Together with the rest check, the capped scan rejects exactly the
      candidates that a complete run check would: the scan's blind spot always
      has an assignment on the adjacent day. */
  lemma RejectionMatchesFullRunCheck(us: seq<Assignment>, date: Day, maxConsecutive: int)
    ensures (ConsecutiveCount(us, date, maxConsecutive) > maxConsecutive
             || HasAssignmentOn(us, date - 1) || HasAssignmentOn(us, date + 1))
        <==> (RunWouldExceed(us, date, maxConsecutive)
             || HasAssignmentOn(us, date - 1) || HasAssignmentOn(us, date + 1))
  {
    if ConsecutiveCount(us, date, maxConsecutive) > maxConsecutive {
      ConsecutiveCheckIsSound(us, date, maxConsecutive);
    }
    if RunWouldExceed(us, date, maxConsecutive)
       && !HasAssignmentOn(us, date - 1) && !HasAssignmentOn(us, date + 1) {
      FullScanDecidesRun(us, date, maxConsecutive);
    }
  }

  /** The weekend count only depends on the month and year of the date asked about. */
  lemma {:induction false} WeekendsInMonthSameMonth(us: seq<Assignment>, d1: Day, d2: Day)
    requires Month(d1) == Month(d2) && Year(d1) == Year(d2)
    ensures WeekendsInMonth(us, d1) == WeekendsInMonth(us, d2)
    decreases |us|
  {
    if us != [] {
      WeekendsInMonthSameMonth(us[..|us| - 1], d1, d2);
    }
  }

  lemma {:induction false} WeekendsInMonthAppend(a: seq<Assignment>, b: seq<Assignment>, date: Day)
    ensures WeekendsInMonth(a + b, date) == WeekendsInMonth(a, date) + WeekendsInMonth(b, date)
    decreases |b|
  {
    if b == [] {
      assert a + b == a;
    } else {
      var init, last := b[..|b| - 1], b[|b| - 1];
      WeekendsInMonthAppend(a, init, date);
      assert (a + b)[..|a + b| - 1] == a + init;
      assert (a + b)[|a + b| - 1] == last;
    }
  }

  /** `userAssignments.filter(...)`: the weekend assignments of the month, in order. */
  function MonthWeekendAssignments(us: seq<Assignment>, date: Day): (r: seq<Assignment>)
    decreases |us|
    ensures forall a :: a in r <==> a in us && WeekendOfMonth(a.date, date)
  {
    if us == [] then []
    else MonthWeekendAssignments(us[..|us| - 1], date)
         + (if WeekendOfMonth(us[|us| - 1].date, date) then [us[|us| - 1]] else [])
  }

  lemma {:induction false} WeekendsInMonthIsFilterLength(us: seq<Assignment>, date: Day)
    ensures WeekendsInMonth(us, date) == |MonthWeekendAssignments(us, date)|
    decreases |us|
  {
    if us != [] {
      WeekendsInMonthIsFilterLength(us[..|us| - 1], date);
    }
  }

  /** The weekend check fires exactly when the user already holds at least
      `maxWeekends` weekend assignments in the month and year of the new date. */
  lemma WouldExceedWeekendsPerMonthIff(newDate: Day, us: seq<Assignment>, maxWeekends: int)
    ensures WouldExceedWeekendsPerMonth(newDate, us, maxWeekends)
        <==> |MonthWeekendAssignments(us, newDate)| >= maxWeekends
  {
    WeekendsInMonthIsFilterLength(us, newDate);
  }

  /** Run on the user's share of the combined list, the rest check fires
      exactly when an assignment of that user, new in this run or already
      stored, falls on the day before or the day after the slot. */
  lemma RestPeriodOverBothLists(slot: Slot, current: seq<Assignment>, existing: seq<Assignment>, userId: int)
    ensures WouldViolateRestPeriod(slot, UserAssignments(current + existing, userId))
        <==> exists a :: (a in current || a in existing) && a.userId == userId
                         && (a.date == slot.date - 1 || a.date == slot.date + 1)
  {
    var us := UserAssignments(current + existing, userId);
    if exists a :: (a in current || a in existing) && a.userId == userId
                   && (a.date == slot.date - 1 || a.date == slot.date + 1) {
      var a :| (a in current || a in existing) && a.userId == userId
               && (a.date == slot.date - 1 || a.date == slot.date + 1);
      assert a in current + existing;
      assert a in us;
      var i :| 0 <= i < |us| && us[i] == a;
    }
    if WouldViolateRestPeriod(slot, us) {
      var i :| 0 <= i < |us| && (us[i].date == slot.date - 1 || us[i].date == slot.date + 1);
      assert us[i] in us;
      assert us[i] in current + existing;
    }
  }
}
