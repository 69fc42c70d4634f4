/** A worked schedule: a one-day period (day 0, a Thursday), one weekday
    service needing two staff, and one team member available for it. The
    pass gives both slots of the day to that member, because no check looks
    at the member's other assignments on the same day. */
module ScheduleExamples {
  import opened Wrappers
  import opened Calendar
  import opened Schema
  import opened Config
  import opened StableSort
  import opened SlotGenerator
  import opened ConstraintChecker
  import opened AssignmentScorer
  import opened Allocator

  const ExampleService := Service(5, "Clinic", Weekday, 2, 2, true)
  const ExampleEntry := AvailabilityEntry(7, 5, 0, Available, None)
  const ExamplePeriod := SchedulePeriod(1, 0, 0, false, false)
  const ExampleInputs := Inputs(Some(ExamplePeriod), [ExampleService], [7], [ExampleEntry], [], [])
  const ExampleScheduler := ClinicalScheduler(1, 1, DefaultConstraints)

  lemma ExampleSlots()
    ensures SortedSlots(ExamplePeriod, [ExampleService])
         == [MakeSlot(ExampleService, 0), MakeSlot(ExampleService, 0)]
  {
    var slot := MakeSlot(ExampleService, 0);
    assert DayOfWeek(0) == 4 && !IsWeekendDay(0);
    assert Repeat(slot, 2) == [slot, slot];
    assert ServiceSlots(ExampleService, 0) == [slot, slot];
    assert [ExampleService][..0] == [];
    assert DaySlots([ExampleService], 0) == [slot, slot];
    assert SlotsThrough([ExampleService], 0, -1) == [];
    assert RequiredSlots(ExamplePeriod, [ExampleService]) == [slot, slot];
    assert [slot, slot][..1] == [slot];
    assert SortDesc([slot], PriorityKey) == [slot];
  }

  /** With nothing on the neighbouring days, no constraint stops the only
      member from taking the example slot. */
  lemma ExampleNoViolations(slot: Slot, current: seq<Assignment>)
    requires slot == MakeSlot(ExampleService, 0)
    requires forall a :: a in current ==> a.date == 0
    ensures Violations(ExampleScheduler, 7, slot, current, [], None) == []
  {
    assert !IsWeekendDay(0);
    var us := UserAssignments(current + [], 7);
    assert forall a :: a in us ==> a.date == 0;
    assert !HasAssignmentOn(us, -1) && !HasAssignmentOn(us, 1);
    assert DaysBefore(us, 0, 6) == 0 && DaysAfter(us, 0, 6) == 0;
    assert !WouldViolateRestPeriod(slot, us);
  }

  /** The only member is the only candidate for the example slot. */
  lemma ExampleCandidate(slot: Slot, current: seq<Assignment>)
    requires slot == MakeSlot(ExampleService, 0)
    requires forall a :: a in current ==> a.date == 0
    ensures UserCandidate(ExampleScheduler, slot, 7, [ExampleEntry], [], current, []).Some?
    ensures UserCandidate(ExampleScheduler, slot, 7, [ExampleEntry], [], current, []).value.userId == 7
  {
    assert FindAvailability([ExampleEntry], 7, 5, 0) == Some(ExampleEntry);
    ExampleNoViolations(slot, current);
  }

  /** With no assignment on the neighbouring days the only member stays
      eligible, whatever they already hold on day 0. */
  lemma ExampleEligible(slot: Slot, current: seq<Assignment>)
    requires slot == MakeSlot(ExampleService, 0)
    requires forall a :: a in current ==> a.date == 0
    ensures BestAssignment(ExampleScheduler, slot, [7], [ExampleEntry], [], current, []).Some?
    ensures BestAssignment(ExampleScheduler, slot, [7], [ExampleEntry], [], current, []).value.userId == 7
    ensures BestAssignment(ExampleScheduler, slot, [7], [ExampleEntry], [], current, []).value.date == 0
  {
    ExampleCandidate(slot, current);
    OnlyCandidate(ExampleScheduler, slot, 7, [ExampleEntry], [], current, []);
  }

  /** A roster of one member who is a candidate: that member is chosen. */
  lemma OnlyCandidate(sched: ClinicalScheduler, slot: Slot, userId: int,
                      avail: seq<AvailabilityEntry>, prefs: seq<UserPreferences>,
                      current: seq<Assignment>, existing: seq<Assignment>)
    requires UserCandidate(sched, slot, userId, avail, prefs, current, existing).Some?
    ensures BestAssignment(sched, slot, [userId], avail, prefs, current, existing)
         == Some(NewAssignment(sched, slot, UserCandidate(sched, slot, userId, avail, prefs, current, existing).value))
  {
    var c := UserCandidate(sched, slot, userId, avail, prefs, current, existing).value;
    var opts := CandidateOptions(sched, slot, [userId], avail, prefs, current, existing);
    assert opts == [Some(c)];
    assert opts[..0] == [];
    assert Present(opts) == [c];
    assert SortDesc([c], ScoreKey) == [c];
  }

  /** Two turns on the same slot, each of which finds an assignment, append
      the two assignments in order. */
  lemma RunTwoTurns(sched: ClinicalScheduler, inp: Inputs, slot: Slot)
    requires BestAssignment(sched, slot, inp.roster, inp.availability, inp.preferences, [], inp.existing).Some?
    requires var a1 := BestAssignment(sched, slot, inp.roster, inp.availability, inp.preferences, [], inp.existing).value;
             BestAssignment(sched, slot, inp.roster, inp.availability, inp.preferences, [a1], inp.existing).Some?
    ensures var a1 := BestAssignment(sched, slot, inp.roster, inp.availability, inp.preferences, [], inp.existing).value;
            var a2 := BestAssignment(sched, slot, inp.roster, inp.availability, inp.preferences, [a1], inp.existing).value;
            Run(sched, inp, [slot, slot]).assignments == [a1, a2]
  {
    var a1 := BestAssignment(sched, slot, inp.roster, inp.availability, inp.preferences, [], inp.existing).value;
    assert Run(sched, inp, [slot]).assignments == [a1] by {
      assert Run(sched, inp, []).assignments == [];
      RunSnocAssigned(sched, inp, [], slot);
      assert [] + [slot] == [slot];
    }
    RunSnocAssigned(sched, inp, [slot], slot);
    assert [slot] + [slot] == [slot, slot];
  }

  /** A turn that finds an assignment appends it. */
  lemma RunSnocAssigned(sched: ClinicalScheduler, inp: Inputs, slots: seq<Slot>, slot: Slot)
    requires BestAssignment(sched, slot, inp.roster, inp.availability, inp.preferences,
                            Run(sched, inp, slots).assignments, inp.existing).Some?
    ensures Run(sched, inp, slots + [slot]).assignments
         == Run(sched, inp, slots).assignments
            + [BestAssignment(sched, slot, inp.roster, inp.availability, inp.preferences,
                              Run(sched, inp, slots).assignments, inp.existing).value]
  {
    assert (slots + [slot])[..|slots|] == slots;
  }

  /** Both copies of the example slot go to the only member. */
  lemma ExampleTurns(slot: Slot)
    requires slot == MakeSlot(ExampleService, 0)
    ensures var r := Run(ExampleScheduler, ExampleInputs, [slot, slot]).assignments;
            |r| == 2 && r[0].userId == 7 && r[1].userId == 7 && r[0].date == 0 && r[1].date == 0
  {
    var b1 := BestAssignment(ExampleScheduler, slot, [7], [ExampleEntry], [], [], []);
    ExampleEligible(slot, []);
    var b2 := BestAssignment(ExampleScheduler, slot, [7], [ExampleEntry], [], [b1.value], []);
    ExampleEligible(slot, [b1.value]);
    RunTwoTurns(ExampleScheduler, ExampleInputs, slot);
  }

  /** Nothing keeps one user off two slots of the same day: a weekday service
      needing two staff, with a single available member, gets that member twice. */
  lemma SameDayDoubleBooking()
    ensures var r := Schedule(ExampleScheduler, ExampleInputs).value.assignments;
            |r| == 2 && r[0].userId == 7 && r[1].userId == 7 && r[0].date == 0 && r[1].date == 0
  {
    var slot := MakeSlot(ExampleService, 0);
    ExampleSlots();
    ExampleTurns(slot);
    assert Schedule(ExampleScheduler, ExampleInputs).value.assignments
        == Run(ExampleScheduler, ExampleInputs, [slot, slot]).assignments;
  }
}
