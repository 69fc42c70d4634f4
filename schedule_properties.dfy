/** What the greedy pass of `generateSchedule` guarantees: which candidate
    `findBestAssignment` picks, that every assignment it makes passed the hard
    constraints against everything assigned before it, that every slot ends up
    assigned or reported, and the range of the satisfaction score. */
module ScheduleProperties {
  import opened Wrappers
  import opened Calendar
  import opened Schema
  import opened Config
  import opened StableSort
  import opened SlotGenerator
  import opened ConstraintChecker
  import opened AssignmentScorer
  import opened Allocator

  lemma {:induction false} PresentEmptyIff(opts: seq<Option<Candidate>>)
    ensures Present(opts) == [] <==> forall j :: 0 <= j < |opts| ==> opts[j].None?
    decreases |opts|
  {
    if opts != [] {
      PresentEmptyIff(opts[..|opts| - 1]);
    }
  }

  /** The first present candidate with the top score, located in `opts`: no
      present candidate scores higher and none before it scores as high. */
  lemma {:induction false} PresentFirstMax(opts: seq<Option<Candidate>>) returns (k: nat)
    requires Present(opts) != []
    ensures k < |opts| && opts[k] == Some(FirstMax(Present(opts), ScoreKey))
    ensures forall j :: 0 <= j < |opts| && opts[j].Some? ==> opts[j].value.score <= opts[k].value.score
    ensures forall j :: 0 <= j < k && opts[j].Some? ==> opts[j].value.score < opts[k].value.score
    decreases |opts|
  {
    var init := opts[..|opts| - 1];
    var prev := Present(init);
    var cands := Present(opts);
    match opts[|opts| - 1]
    case None =>
      assert cands == prev;
      k := PresentFirstMax(init);
    case Some(c) =>
      assert cands == prev + [c];
      if prev == [] {
        PresentEmptyIff(init);
        assert cands == [c];
        k := |init|;
      } else {
        assert cands[..|cands| - 1] == prev;
        var k0 := PresentFirstMax(init);
        if c.score > FirstMax(prev, ScoreKey).score {
          k := |init|;
        } else {
          k := k0;
        }
      }
  }

  /** `findBestAssignment` returns nothing exactly when no team member is
      eligible; otherwise it assigns the eligible member with the highest
      score, the earliest in roster order among those tied for it. */
  lemma BestAssignmentChoice(sched: ClinicalScheduler, slot: Slot, roster: seq<int>,
                             avail: seq<AvailabilityEntry>, prefs: seq<UserPreferences>,
                             current: seq<Assignment>, existing: seq<Assignment>)
    ensures BestAssignment(sched, slot, roster, avail, prefs, current, existing).None? <==>
            forall j :: 0 <= j < |roster| ==>
              UserCandidate(sched, slot, roster[j], avail, prefs, current, existing).None?
    ensures BestAssignment(sched, slot, roster, avail, prefs, current, existing).Some? ==>
            exists k :: 0 <= k < |roster|
              && UserCandidate(sched, slot, roster[k], avail, prefs, current, existing).Some?
              && var c := UserCandidate(sched, slot, roster[k], avail, prefs, current, existing).value;
                 && BestAssignment(sched, slot, roster, avail, prefs, current, existing)
                    == Some(NewAssignment(sched, slot, c))
                 && (forall j :: 0 <= j < |roster| && UserCandidate(sched, slot, roster[j], avail, prefs, current, existing).Some? ==>
                       UserCandidate(sched, slot, roster[j], avail, prefs, current, existing).value.score <= c.score)
                 && (forall j :: 0 <= j < k && UserCandidate(sched, slot, roster[j], avail, prefs, current, existing).Some? ==>
                       UserCandidate(sched, slot, roster[j], avail, prefs, current, existing).value.score < c.score)
  {
    PresentEmptyIff(CandidateOptions(sched, slot, roster, avail, prefs, current, existing));
    if BestAssignment(sched, slot, roster, avail, prefs, current, existing).Some? {
      var k := BestAssignmentPick(sched, slot, roster, avail, prefs, current, existing);
    }
  }

  /** The position in the roster of the member `findBestAssignment` picks. */
  lemma BestAssignmentPick(sched: ClinicalScheduler, slot: Slot, roster: seq<int>,
                           avail: seq<AvailabilityEntry>, prefs: seq<UserPreferences>,
                           current: seq<Assignment>, existing: seq<Assignment>)
    returns (k: nat)
    requires BestAssignment(sched, slot, roster, avail, prefs, current, existing).Some?
    ensures k < |roster|
    ensures UserCandidate(sched, slot, roster[k], avail, prefs, current, existing).Some?
    ensures var c := UserCandidate(sched, slot, roster[k], avail, prefs, current, existing).value;
            && BestAssignment(sched, slot, roster, avail, prefs, current, existing)
               == Some(NewAssignment(sched, slot, c))
            && (forall j :: 0 <= j < |roster| && UserCandidate(sched, slot, roster[j], avail, prefs, current, existing).Some? ==>
                  UserCandidate(sched, slot, roster[j], avail, prefs, current, existing).value.score <= c.score)
            && (forall j :: 0 <= j < k && UserCandidate(sched, slot, roster[j], avail, prefs, current, existing).Some? ==>
                  UserCandidate(sched, slot, roster[j], avail, prefs, current, existing).value.score < c.score)
  {
    var opts := CandidateOptions(sched, slot, roster, avail, prefs, current, existing);
    var cands := Present(opts);
    SortDescHeadIsFirstMax(cands, ScoreKey);
    k := PresentFirstMax(opts);
    assert opts[k] == UserCandidate(sched, slot, roster[k], avail, prefs, current, existing);
    assert BestAssignment(sched, slot, roster, avail, prefs, current, existing)
        == Some(NewAssignment(sched, slot, FirstMax(cands, ScoreKey)));
  }

  /** A team member is a candidate exactly when they have an entry for the
      slot's service and day that is not `unavailable`, the consecutive-days
      scan stays within their cap, on a weekend they are under their monthly
      weekend cap, and they hold nothing on the day before or after; their
      score is then the assignment score of that entry. */
  lemma UserCandidateEligibility(sched: ClinicalScheduler, slot: Slot, userId: int,
                                 avail: seq<AvailabilityEntry>, prefs: seq<UserPreferences>,
                                 current: seq<Assignment>, existing: seq<Assignment>)
    ensures var entry := FindAvailability(avail, userId, slot.serviceId, slot.date);
            var us := UserAssignments(current + existing, userId);
            var p := FindPreferences(prefs, userId);
            var maxConsecutive := EffectiveMaxConsecutive(sched, p);
            && (UserCandidate(sched, slot, userId, avail, prefs, current, existing).Some? <==>
                  && entry.Some? && entry.value.preferenceType != Unavailable
                  && ConsecutiveCount(us, slot.date, maxConsecutive) <= maxConsecutive
                  && !(slot.isWeekend && WeekendsInMonth(us, slot.date) >= EffectiveMaxWeekends(sched, p))
                  && !HasAssignmentOn(us, slot.date - 1)
                  && !HasAssignmentOn(us, slot.date + 1))
            && (UserCandidate(sched, slot, userId, avail, prefs, current, existing).Some? ==>
                  UserCandidate(sched, slot, userId, avail, prefs, current, existing)
                  == Some(Candidate(userId, CalculateAssignmentScore(userId, slot, entry.value, p, current), entry.value)))
  {
    ViolationsEmptyIff(sched, userId, slot, current, existing, FindPreferences(prefs, userId));
  }

  /** The winning candidate names a roster member with an entry for the slot
      that is not `unavailable`, and passes every constraint. */
  lemma BestAssignmentEligible(sched: ClinicalScheduler, slot: Slot, roster: seq<int>,
                               avail: seq<AvailabilityEntry>, prefs: seq<UserPreferences>,
                               current: seq<Assignment>, existing: seq<Assignment>)
    requires BestAssignment(sched, slot, roster, avail, prefs, current, existing).Some?
    ensures var a := BestAssignment(sched, slot, roster, avail, prefs, current, existing).value;
            var entry := FindAvailability(avail, a.userId, slot.serviceId, slot.date);
            && a.userId in roster
            && entry.Some? && entry.value.preferenceType != Unavailable
            && a == NewAssignment(sched, slot, Candidate(a.userId, a.notes.score, entry.value))
            && |Violations(sched, a.userId, slot, current, existing, FindPreferences(prefs, a.userId))| == 0
  {
    var opts := CandidateOptions(sched, slot, roster, avail, prefs, current, existing);
    SortDescHeadIsFirstMax(Present(opts), ScoreKey);
    var k := PresentFirstMax(opts);
    assert opts[k] == UserCandidate(sched, slot, roster[k], avail, prefs, current, existing);
  }

  /** An assignment the pass makes, judged against the assignments made
      before it: it has the scheduler's fixed fields, the user is on the
      roster with a usable entry for that service and day, and none of the
      three constraints fires. */
  ghost predicate Admissible(sched: ClinicalScheduler, inp: Inputs, a: Assignment, before: seq<Assignment>)
  {
    var us := UserAssignments(before + inp.existing, a.userId);
    var p := FindPreferences(inp.preferences, a.userId);
    var maxConsecutive := EffectiveMaxConsecutive(sched, p);
    var entry := FindAvailability(inp.availability, a.userId, a.serviceId, a.date);
    && a.id == 0 && a.schedulePeriodId == sched.schedulePeriodId
    && a.status == Scheduled && a.assignedBy == None
    && a.userId in inp.roster
    && entry.Some? && entry.value.preferenceType != Unavailable
    && ConsecutiveCount(us, a.date, maxConsecutive) <= maxConsecutive
    && (IsWeekendDay(a.date) ==> WeekendsInMonth(us, a.date) < EffectiveMaxWeekends(sched, p))
    && !HasAssignmentOn(us, a.date - 1)
    && !HasAssignmentOn(us, a.date + 1)
  }

  /** A new assignment for a slot whose user passes every constraint is
      admissible. */
  lemma NewAssignmentAdmissible(sched: ClinicalScheduler, inp: Inputs, slot: Slot, current: seq<Assignment>,
                                c: Candidate)
    requires WellFormedSlot(slot)
    requires c.userId in inp.roster
    requires FindAvailability(inp.availability, c.userId, slot.serviceId, slot.date) == Some(c.entry)
    requires c.entry.preferenceType != Unavailable
    requires |Violations(sched, c.userId, slot, current, inp.existing, FindPreferences(inp.preferences, c.userId))| == 0
    ensures Admissible(sched, inp, NewAssignment(sched, slot, c), current)
  {
    var a := NewAssignment(sched, slot, c);
    var us := UserAssignments(current + inp.existing, c.userId);
    var p := FindPreferences(inp.preferences, c.userId);
    ViolationsEmptyIff(sched, c.userId, slot, current, inp.existing, p);
    assert a.userId == c.userId && a.serviceId == slot.serviceId && a.date == slot.date;
    assert slot.isWeekend == IsWeekendDay(slot.date);
  }

  lemma BestAssignmentAdmissible(sched: ClinicalScheduler, inp: Inputs, slot: Slot, current: seq<Assignment>)
    requires WellFormedSlot(slot)
    requires BestAssignment(sched, slot, inp.roster, inp.availability, inp.preferences, current, inp.existing).Some?
    ensures var a := BestAssignment(sched, slot, inp.roster, inp.availability, inp.preferences, current, inp.existing).value;
            Admissible(sched, inp, a, current)
            && a.serviceId == slot.serviceId && a.date == slot.date
            && a.isCallDay == (slot.serviceType == Call)
  {
    var a := BestAssignment(sched, slot, inp.roster, inp.availability, inp.preferences, current, inp.existing).value;
    BestAssignmentEligible(sched, slot, inp.roster, inp.availability, inp.preferences, current, inp.existing);
    var entry := FindAvailability(inp.availability, a.userId, slot.serviceId, slot.date);
    var c := Candidate(a.userId, a.notes.score, entry.value);
    NewAssignmentAdmissible(sched, inp, slot, current, c);
  }

  /** Each assignment of `r` is admissible against the ones before it. */
  ghost predicate AllAdmissible(sched: ClinicalScheduler, inp: Inputs, r: seq<Assignment>)
    decreases |r|
  {
    r == [] || (AllAdmissible(sched, inp, r[..|r| - 1]) && Admissible(sched, inp, r[|r| - 1], r[..|r| - 1]))
  }

  lemma {:induction false} AllAdmissibleAt(sched: ClinicalScheduler, inp: Inputs, r: seq<Assignment>, k: nat)
    requires AllAdmissible(sched, inp, r) && k < |r|
    ensures Admissible(sched, inp, r[k], r[..k])
    decreases |r|
  {
    if k < |r| - 1 {
      var init := r[..|r| - 1];
      AllAdmissibleAt(sched, inp, init, k);
      assert init[..k] == r[..k] && init[k] == r[k];
    }
  }

  /** Every assignment of the pass is admissible against the ones made
      before it, and is for the service, day and call flag of a slot. */
  lemma {:induction false} RunAdmissible(sched: ClinicalScheduler, inp: Inputs, slots: seq<Slot>)
    requires forall s :: s in slots ==> WellFormedSlot(s)
    ensures AllAdmissible(sched, inp, Run(sched, inp, slots).assignments)
    ensures forall a :: a in Run(sched, inp, slots).assignments ==>
              exists s :: s in slots && a.serviceId == s.serviceId && a.date == s.date
                          && a.isCallDay == (s.serviceType == Call)
    decreases |slots|
  {
    if slots != [] {
      var init := slots[..|slots| - 1];
      var slot := slots[|slots| - 1];
      var st := Run(sched, inp, init);
      RunAdmissible(sched, inp, init);
      var r := Run(sched, inp, slots).assignments;
      var b := BestAssignment(sched, slot, inp.roster, inp.availability, inp.preferences, st.assignments, inp.existing);
      if b.Some? {
        BestAssignmentAdmissible(sched, inp, slot, st.assignments);
        assert r == st.assignments + [b.value];
        assert r[..|r| - 1] == st.assignments;
        forall a | a in r
          ensures exists s :: s in slots && a.serviceId == s.serviceId && a.date == s.date
                              && a.isCallDay == (s.serviceType == Call)
        {
          if a == b.value {
            assert slot in slots;
          } else {
            assert a in st.assignments;
            var s :| s in init && a.serviceId == s.serviceId && a.date == s.date
                     && a.isCallDay == (s.serviceType == Call);
            assert s in slots;
          }
        }
      } else {
        assert r == st.assignments;
        forall a | a in r
          ensures exists s :: s in slots && a.serviceId == s.serviceId && a.date == s.date
                              && a.isCallDay == (s.serviceType == Call)
        {
          var s :| s in init && a.serviceId == s.serviceId && a.date == s.date
                   && a.isCallDay == (s.serviceType == Call);
          assert s in slots;
        }
      }
    }
  }

  /** No user holds assignments on two adjacent days. */
  ghost predicate NoAdjacentDays(r: seq<Assignment>)
  {
    forall i, j :: 0 <= i < j < |r| && r[i].userId == r[j].userId ==>
      r[j].date != r[i].date + 1 && r[j].date != r[i].date - 1
  }

  /** Admissible assignments never put one user on two adjacent days. */
  lemma AdmissibleNoAdjacentDays(sched: ClinicalScheduler, inp: Inputs, r: seq<Assignment>)
    requires AllAdmissible(sched, inp, r)
    ensures NoAdjacentDays(r)
  {
    forall i, j | 0 <= i < j < |r| && r[i].userId == r[j].userId
      ensures r[j].date != r[i].date + 1 && r[j].date != r[i].date - 1
    {
      AllAdmissibleAt(sched, inp, r, j);
      var us := UserAssignments(r[..j] + inp.existing, r[j].userId);
      assert r[i] in r[..j] + inp.existing;
      assert r[i] in us;
      var idx :| 0 <= idx < |us| && us[idx] == r[i];
      assert HasAssignmentOn(us, r[i].date);
    }
  }

  /** No assignment of `r` is next to a day on which the same user already
      holds an assignment of the period. */
  ghost predicate ClearOfExisting(r: seq<Assignment>, existing: seq<Assignment>)
  {
    forall a, e :: a in r && e in existing && a.userId == e.userId ==>
      a.date != e.date + 1 && a.date != e.date - 1
  }

  lemma AdmissibleClearOfExisting(sched: ClinicalScheduler, inp: Inputs, r: seq<Assignment>)
    requires AllAdmissible(sched, inp, r)
    ensures ClearOfExisting(r, inp.existing)
  {
    forall a, e | a in r && e in inp.existing && a.userId == e.userId
      ensures a.date != e.date + 1 && a.date != e.date - 1
    {
      var j :| 0 <= j < |r| && r[j] == a;
      AllAdmissibleAt(sched, inp, r, j);
      var us := UserAssignments(r[..j] + inp.existing, a.userId);
      assert e in us;
      var idx :| 0 <= idx < |us| && us[idx] == e;
      assert HasAssignmentOn(us, e.date);
    }
  }

  /** Every assignment of `r` has an availability entry that is not `unavailable`. */
  ghost predicate UsableEntries(r: seq<Assignment>, avail: seq<AvailabilityEntry>)
  {
    forall a :: a in r ==>
      var e := FindAvailability(avail, a.userId, a.serviceId, a.date);
      e.Some? && e.value.preferenceType != Unavailable
  }

  lemma AdmissibleUsableEntries(sched: ClinicalScheduler, inp: Inputs, r: seq<Assignment>)
    requires AllAdmissible(sched, inp, r)
    ensures UsableEntries(r, inp.availability)
  {
    forall a | a in r
      ensures var e := FindAvailability(inp.availability, a.userId, a.serviceId, a.date);
              e.Some? && e.value.preferenceType != Unavailable
    {
      var k :| 0 <= k < |r| && r[k] == a;
      AllAdmissibleAt(sched, inp, r, k);
    }
  }

  /** The pass never gives one user assignments on two adjacent days, nor
      next to one of their existing assignments. */
  lemma RunNoAdjacentDays(sched: ClinicalScheduler, inp: Inputs, slots: seq<Slot>)
    requires forall s :: s in slots ==> WellFormedSlot(s)
    ensures NoAdjacentDays(Run(sched, inp, slots).assignments)
    ensures ClearOfExisting(Run(sched, inp, slots).assignments, inp.existing)
  {
    RunAdmissible(sched, inp, slots);
    AdmissibleNoAdjacentDays(sched, inp, Run(sched, inp, slots).assignments);
    AdmissibleClearOfExisting(sched, inp, Run(sched, inp, slots).assignments);
  }

  /** For each user and month: either the pass gave the user no weekend
      assignment in that month, or the new and existing weekend assignments
      there together stay within the user's cap. */
  ghost predicate WeekendCapKept(sched: ClinicalScheduler, inp: Inputs, r: seq<Assignment>)
  {
    forall u, d :: WeekendCapKeptFor(sched, inp, r, u, d)
  }

  lemma WeekendsInMonthSnoc(us: seq<Assignment>, a: Assignment, d: Day)
    ensures WeekendsInMonth(us + [a], d) == WeekendsInMonth(us, d)
              + (if WeekendOfMonth(a.date, d) then 1 else 0)
  {
    assert (us + [a])[..|us|] == us;
  }

  lemma UserAssignmentsSnoc(r: seq<Assignment>, a: Assignment, u: int)
    ensures UserAssignments(r + [a], u) == UserAssignments(r, u) + (if a.userId == u then [a] else [])
  {
    assert (r + [a])[..|r|] == r;
  }

  /** One user and month of `WeekendCapKept`. */
  ghost predicate WeekendCapKeptFor(sched: ClinicalScheduler, inp: Inputs, r: seq<Assignment>, u: int, d: Day)
  {
    WeekendsInMonth(UserAssignments(r, u), d) == 0
    || WeekendsInMonth(UserAssignments(r, u), d) + WeekendsInMonth(UserAssignments(inp.existing, u), d)
       <= EffectiveMaxWeekends(sched, FindPreferences(inp.preferences, u))
  }

  lemma WeekendCapStep(sched: ClinicalScheduler, inp: Inputs, init: seq<Assignment>, a: Assignment, u: int, d: Day)
    requires WeekendCapKeptFor(sched, inp, init, u, d)
    requires IsWeekendDay(a.date) ==>
               WeekendsInMonth(UserAssignments(init + inp.existing, a.userId), a.date)
               < EffectiveMaxWeekends(sched, FindPreferences(inp.preferences, a.userId))
    ensures WeekendCapKeptFor(sched, inp, init + [a], u, d)
  {
    UserAssignmentsSnoc(init, a, u);
    if a.userId == u {
      var mine := UserAssignments(init, u);
      var theirs := UserAssignments(inp.existing, u);
      WeekendsInMonthSnoc(mine, a, d);
      if WeekendOfMonth(a.date, d) {
        UserAssignmentsAppend(init, inp.existing, u);
        WeekendsInMonthAppend(mine, theirs, a.date);
        WeekendsInMonthSameMonth(mine, a.date, d);
        WeekendsInMonthSameMonth(theirs, a.date, d);
        CapArithmetic(WeekendsInMonth(mine, d), WeekendsInMonth(theirs, d),
                      EffectiveMaxWeekends(sched, FindPreferences(inp.preferences, u)));
        assert UserAssignments(init + [a], u) == mine + [a];
        assert WeekendsInMonth(mine + [a], d) == WeekendsInMonth(mine, d) + 1;
        assert WeekendsInMonth(UserAssignments(init + [a], u), d) + WeekendsInMonth(theirs, d)
               <= EffectiveMaxWeekends(sched, FindPreferences(inp.preferences, u));
      } else {
        assert WeekendsInMonth(UserAssignments(init + [a], u), d) == WeekendsInMonth(mine, d);
      }
    } else {
      assert UserAssignments(init + [a], u) == UserAssignments(init, u);
    }
  }

  lemma CapArithmetic(mine: int, theirs: int, cap: int)
    requires mine + theirs < cap
    ensures mine + 1 + theirs <= cap
  {
  }

  lemma {:induction false} AdmissibleWeekendCap(sched: ClinicalScheduler, inp: Inputs, r: seq<Assignment>)
    requires AllAdmissible(sched, inp, r)
    ensures WeekendCapKept(sched, inp, r)
    decreases |r|
  {
    if r != [] {
      var init := r[..|r| - 1];
      var a := r[|r| - 1];
      assert r == init + [a];
      AdmissibleWeekendCap(sched, inp, init);
      forall u, d ensures WeekendCapKeptFor(sched, inp, r, u, d) {
        assert WeekendCapKeptFor(sched, inp, init, u, d);
        assert Admissible(sched, inp, a, init);
        WeekendCapStep(sched, inp, init, a, u, d);
      }
    }
  }

  /** The pass never puts a user over their weekends-per-month cap, counting
      the weekend assignments they already hold in the period. */
  lemma RunWeekendCap(sched: ClinicalScheduler, inp: Inputs, slots: seq<Slot>)
    requires forall s :: s in slots ==> WellFormedSlot(s)
    ensures WeekendCapKept(sched, inp, Run(sched, inp, slots).assignments)
  {
    RunAdmissible(sched, inp, slots);
    AdmissibleWeekendCap(sched, inp, Run(sched, inp, slots).assignments);
  }

  function SlotKey(s: Slot): (int, Day)
  {
    (s.serviceId, s.date)
  }

  function AssignmentKey(a: Assignment): (int, Day)
  {
    (a.serviceId, a.date)
  }

  function UnassignedKey(u: UnassignedSlot): (int, Day)
  {
    (u.serviceId, u.date)
  }

  lemma MapSeqSnoc<A, B>(s: seq<A>, x: A, f: A -> B)
    ensures MapSeq(s + [x], f) == MapSeq(s, f) + [f(x)]
  {
    assert (s + [x])[..|s|] == s;
  }

  /** Each slot is either assigned or reported unassigned with one warning,
      and the (service, day) pairs of the two lists together are those of
      the slots, with multiplicity. */
  ghost predicate Partitioned(st: RunState, slots: seq<Slot>)
  {
    && |st.assignments| + |st.unassigned| == |slots|
    && |st.warnings| == |st.unassigned|
    && (forall i :: 0 <= i < |st.unassigned| ==>
          st.unassigned[i].reason == NoStaffReason && st.warnings[i].date == st.unassigned[i].date)
    && multiset(MapSeq(st.assignments, AssignmentKey)) + multiset(MapSeq(st.unassigned, UnassignedKey))
       == multiset(MapSeq(slots, SlotKey))
  }

  lemma StepPartitioned(st: RunState, slots: seq<Slot>, slot: Slot, found: Option<Assignment>)
    requires Partitioned(st, slots)
    requires found.Some? ==> found.value.serviceId == slot.serviceId && found.value.date == slot.date
    ensures Partitioned(Step(st, slot, found), slots + [slot])
  {
    MapSeqSnoc(slots, slot, SlotKey);
    if found.Some? {
      AssignedPartitioned(st, slots, slot, found.value);
    } else {
      UnassignedPartitioned(st, slots, slot);
    }
  }

  lemma AssignedPartitioned(st: RunState, slots: seq<Slot>, slot: Slot, a: Assignment)
    requires Partitioned(st, slots)
    requires a.serviceId == slot.serviceId && a.date == slot.date
    requires MapSeq(slots + [slot], SlotKey) == MapSeq(slots, SlotKey) + [SlotKey(slot)]
    ensures Partitioned(st.(assignments := st.assignments + [a]), slots + [slot])
  {
    var st2 := st.(assignments := st.assignments + [a]);
    assert st2.unassigned == st.unassigned && st2.warnings == st.warnings;
    MapSeqSnoc(st.assignments, a, AssignmentKey);
    assert AssignmentKey(a) == SlotKey(slot);
    assert multiset(MapSeq(st2.assignments, AssignmentKey))
        == multiset(MapSeq(st.assignments, AssignmentKey)) + multiset{SlotKey(slot)};
    assert multiset(MapSeq(slots + [slot], SlotKey)) == multiset(MapSeq(slots, SlotKey)) + multiset{SlotKey(slot)};
  }

  lemma UnassignedPartitioned(st: RunState, slots: seq<Slot>, slot: Slot)
    requires Partitioned(st, slots)
    requires MapSeq(slots + [slot], SlotKey) == MapSeq(slots, SlotKey) + [SlotKey(slot)]
    ensures Partitioned(RunState(st.assignments,
                                 st.warnings + [UnableToAssign(slot.serviceName, slot.date)],
                                 st.unassigned + [UnassignedSlot(slot.serviceId, slot.date, NoStaffReason)]),
                        slots + [slot])
  {
    var u := UnassignedSlot(slot.serviceId, slot.date, NoStaffReason);
    var w := UnableToAssign(slot.serviceName, slot.date);
    var st2 := RunState(st.assignments, st.warnings + [w], st.unassigned + [u]);
    ReasonsStep(st.unassigned, st.warnings, u, w);
    MapSeqSnoc(st.unassigned, u, UnassignedKey);
    assert multiset(MapSeq(st2.unassigned, UnassignedKey))
        == multiset(MapSeq(st.unassigned, UnassignedKey)) + multiset{SlotKey(slot)};
    assert multiset(MapSeq(slots + [slot], SlotKey)) == multiset(MapSeq(slots, SlotKey)) + multiset{SlotKey(slot)};
  }

  /** Appending a matching pair keeps every unassigned slot's reason and its
      warning's date in step. */
  lemma ReasonsStep(us: seq<UnassignedSlot>, ws: seq<Warning>, u: UnassignedSlot, w: Warning)
    requires |ws| == |us| && u.reason == NoStaffReason && w.date == u.date
    requires forall i :: 0 <= i < |us| ==> us[i].reason == NoStaffReason && ws[i].date == us[i].date
    ensures forall i :: 0 <= i < |us + [u]| ==>
              (us + [u])[i].reason == NoStaffReason && (ws + [w])[i].date == (us + [u])[i].date
  {
    forall i | 0 <= i < |us + [u]|
      ensures (us + [u])[i].reason == NoStaffReason && (ws + [w])[i].date == (us + [u])[i].date
    {
      if i < |us| {
        assert (us + [u])[i] == us[i] && (ws + [w])[i] == ws[i];
      }
    }
  }

  lemma SplitLast<T>(s: seq<T>)
    requires |s| > 0
    ensures s[..|s| - 1] + [s[|s| - 1]] == s
  {
  }

  lemma {:induction false} RunPartition(sched: ClinicalScheduler, inp: Inputs, slots: seq<Slot>)
    ensures Partitioned(Run(sched, inp, slots), slots)
    decreases |slots|
  {
    if slots == [] {
    } else {
      var init := slots[..|slots| - 1];
      var slot := slots[|slots| - 1];
      var st := Run(sched, inp, init);
      RunPartition(sched, inp, init);
      var found := BestAssignment(sched, slot, inp.roster, inp.availability, inp.preferences, st.assignments, inp.existing);
      StepPartitioned(st, init, slot, found);
      SplitLast(slots);
    }
  }

  /** A generated schedule accounts for every required slot of the period:
      assigned or unassigned, with the same (service, day) pairs. */
  lemma ScheduleCoversRequiredSlots(sched: ClinicalScheduler, inp: Inputs)
    requires inp.period.Some?
    ensures var r := Schedule(sched, inp).value;
            var required := RequiredSlots(inp.period.value, inp.services);
            && |r.assignments| + |r.unassignedSlots| == |required|
            && |r.warnings| == |r.unassignedSlots|
            && multiset(MapSeq(r.assignments, AssignmentKey)) + multiset(MapSeq(r.unassignedSlots, UnassignedKey))
               == multiset(MapSeq(required, SlotKey))
  {
    var required := RequiredSlots(inp.period.value, inp.services);
    var sorted := SortedSlots(inp.period.value, inp.services);
    RunPartition(sched, inp, sorted);
    SortDescMapsPermute(required, PriorityKey, SlotKey);
  }

  lemma SortedSlotsWellFormed(period: SchedulePeriod, services: seq<Service>)
    ensures forall s :: s in SortedSlots(period, services) ==>
              WellFormedSlot(s) && period.startDate <= s.date <= period.endDate
  {
    var required := RequiredSlots(period, services);
    RequiredSlotsShape(period, services);
    SortDescCorrect(required, PriorityKey);
    forall s | s in SortedSlots(period, services)
      ensures WellFormedSlot(s) && period.startDate <= s.date <= period.endDate
    {
      assert s in multiset(SortedSlots(period, services));
    }
  }

  /** A generated schedule keeps the hard constraints: every assignment is
      admissible against the ones before it, lies in the period, and no user
      works two adjacent days. */
  lemma ScheduleRespectsConstraints(sched: ClinicalScheduler, inp: Inputs)
    requires inp.period.Some?
    ensures var r := Schedule(sched, inp).value.assignments;
            && AllAdmissible(sched, inp, r)
            && (forall a :: a in r ==> inp.period.value.startDate <= a.date <= inp.period.value.endDate)
            && NoAdjacentDays(r)
            && ClearOfExisting(r, inp.existing)
            && WeekendCapKept(sched, inp, r)
  {
    var period := inp.period.value;
    var sorted := SortedSlots(period, inp.services);
    var r := Run(sched, inp, sorted).assignments;
    assert Schedule(sched, inp).value.assignments == r;
    SortedSlotsWellFormed(period, inp.services);
    RunAdmissible(sched, inp, sorted);
    RunNoAdjacentDays(sched, inp, sorted);
    RunWeekendCap(sched, inp, sorted);
  }

  /** Without a neighbouring day of the same user, among the new assignments
      or the existing ones, a new assignment's day stands alone. */
  lemma {:induction false} NewDayHasNoNeighbours(r: seq<Assignment>, existing: seq<Assignment>, k: nat)
    requires NoAdjacentDays(r) && ClearOfExisting(r, existing) && k < |r|
    ensures var us := UserAssignments(r + existing, r[k].userId);
            !HasAssignmentOn(us, r[k].date - 1) && !HasAssignmentOn(us, r[k].date + 1)
  {
    var us := UserAssignments(r + existing, r[k].userId);
    forall i | 0 <= i < |us|
      ensures us[i].date != r[k].date - 1 && us[i].date != r[k].date + 1
    {
      var b := us[i];
      assert b in us;
      assert b in r + existing && b.userId == r[k].userId;
      if b in r {
        var idx :| 0 <= idx < |r| && r[idx] == b;
        if idx < k {
          assert r[k].date != r[idx].date + 1 && r[k].date != r[idx].date - 1;
        } else if k < idx {
          assert r[idx].date != r[k].date + 1 && r[idx].date != r[k].date - 1;
        }
      } else {
        assert b in existing;
        assert r[k] in r;
      }
    }
  }

  /** No run of working days through a new assignment's day exceeds any
      limit of at least one day: the day has no worked neighbour. */
  lemma NewDayRunWithinLimit(r: seq<Assignment>, existing: seq<Assignment>, k: nat, m: int)
    requires NoAdjacentDays(r) && ClearOfExisting(r, existing) && k < |r| && m >= 1
    ensures !RunWouldExceed(UserAssignments(r + existing, r[k].userId), r[k].date, m)
  {
    var us := UserAssignments(r + existing, r[k].userId);
    var d := r[k].date;
    NewDayHasNoNeighbours(r, existing, k);
    forall lo, hi | OccupiedAround(us, d, lo, hi)
      ensures hi - lo + 1 <= m
    {
      LoneDayRun(us, d, lo, hi);
    }
  }

  /** A day with no worked neighbour is a run of one day. */
  lemma LoneDayRun(us: seq<Assignment>, d: Day, lo: Day, hi: Day)
    requires OccupiedAround(us, d, lo, hi)
    requires !HasAssignmentOn(us, d - 1) && !HasAssignmentOn(us, d + 1)
    ensures lo == d && hi == d
  {
  }

  /** In a generated schedule, no user's run of working days through a new
      assignment's day, counting the existing assignments, is longer than
      any limit of at least one day. */
  lemma ScheduleRunsWithinLimit(sched: ClinicalScheduler, inp: Inputs, k: nat, m: int)
    requires inp.period.Some? && m >= 1
    requires k < |Schedule(sched, inp).value.assignments|
    ensures var r := Schedule(sched, inp).value.assignments;
            !RunWouldExceed(UserAssignments(r + inp.existing, r[k].userId), r[k].date, m)
  {
    ScheduleRespectsConstraints(sched, inp);
    NewDayRunWithinLimit(Schedule(sched, inp).value.assignments, inp.existing, k, m);
  }

  lemma {:induction false} TotalSatisfactionBounds(assignments: seq<Assignment>, avail: seq<AvailabilityEntry>)
    ensures TotalSatisfaction(assignments, avail) <= 100 * |assignments|
    decreases |assignments|
  {
    if assignments != [] {
      TotalSatisfactionBounds(assignments[..|assignments| - 1], avail);
    }
  }

  /** The satisfaction score is a mean of per-assignment points, so it lies
      between 0 and 100, and is 0 for an empty schedule. */
  lemma SatisfactionScoreRange(assignments: seq<Assignment>, avail: seq<AvailabilityEntry>)
    ensures 0.0 <= SatisfactionScore(assignments, avail) <= 100.0
    ensures |assignments| == 0 ==> SatisfactionScore(assignments, avail) == 0.0
  {
    TotalSatisfactionBounds(assignments, avail);
    if |assignments| > 0 {
      MeanBounds(TotalSatisfaction(assignments, avail) as real, |assignments| as real, 0.0, 100.0);
    }
  }

  /** A total between `lo` and `hi` times the count has its mean between them. */
  lemma MeanBounds(t: real, n: real, lo: real, hi: real)
    requires n > 0.0 && lo * n <= t <= hi * n
    ensures lo <= t / n <= hi
  {
    assert (t / n) * n == t;
  }

  lemma {:induction false} TotalSatisfactionAtLeast(assignments: seq<Assignment>, avail: seq<AvailabilityEntry>)
    requires UsableEntries(assignments, avail)
    ensures TotalSatisfaction(assignments, avail) >= 25 * |assignments|
    decreases |assignments|
  {
    if assignments != [] {
      var init := assignments[..|assignments| - 1];
      assert forall a :: a in init ==> a in assignments;
      TotalSatisfactionAtLeast(init, avail);
      assert assignments[|assignments| - 1] in assignments;
    }
  }

  lemma SatisfactionAtLeast25(assignments: seq<Assignment>, avail: seq<AvailabilityEntry>)
    requires UsableEntries(assignments, avail) && |assignments| > 0
    ensures SatisfactionScore(assignments, avail) >= 25.0
  {
    TotalSatisfactionAtLeast(assignments, avail);
    TotalSatisfactionBounds(assignments, avail);
    MeanBounds(TotalSatisfaction(assignments, avail) as real, |assignments| as real, 25.0, 100.0);
  }

  /** Every assignment the scheduler makes comes from a usable availability
      entry, so a non-empty generated schedule scores at least 25. */
  lemma GeneratedSatisfactionAtLeast25(sched: ClinicalScheduler, inp: Inputs)
    requires inp.period.Some?
    requires |Schedule(sched, inp).value.assignments| > 0
    ensures Schedule(sched, inp).value.score >= 25.0
  {
    var r := Schedule(sched, inp).value.assignments;
    assert Schedule(sched, inp).value.score == SatisfactionScore(r, inp.availability);
    ScheduleRespectsConstraints(sched, inp);
    AdmissibleUsableEntries(sched, inp, r);
    SatisfactionAtLeast25(r, inp.availability);
  }
}

