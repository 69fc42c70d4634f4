/** `findBestAssignment` and `generateSchedule`: the greedy pass that walks
    the prioritised slots and gives each one to the best-scoring eligible
    team member, and the satisfaction score of the result. */
module Allocator {
  import opened Wrappers
  import opened Calendar
  import opened Schema
  import opened Config
  import opened StableSort
  import opened SlotGenerator
  import opened ConstraintChecker
  import opened AssignmentScorer

  /** What `generateSchedule` reads from the database: the period (absent when
      no row has the scheduler's period id), the team's active services, the
      user ids of the team's members, and the period's availability entries,
      the team's preference records and the period's existing assignments. */
  datatype Inputs = Inputs(
    period: Option<SchedulePeriod>,
    services: seq<Service>,
    roster: seq<int>,
    availability: seq<AvailabilityEntry>,
    preferences: seq<UserPreferences>,
    existing: seq<Assignment>)

  const NoStaffReason := "No available staff found"

  datatype UnassignedSlot = UnassignedSlot(serviceId: int, date: Day, reason: string)

  /** `Unable to assign ${serviceName} on ${date}`. */
  datatype Warning = UnableToAssign(serviceName: string, date: Day)

  datatype SchedulingResult = SchedulingResult(
    assignments: seq<Assignment>,
    warnings: seq<Warning>,
    unassignedSlots: seq<UnassignedSlot>,
    score: real)

  datatype ScheduleError = PeriodNotFound

  predicate EntryMatches(e: AvailabilityEntry, userId: int, serviceId: int, date: Day)
  {
    e.userId == userId && e.serviceId == serviceId && e.date == date
  }

  /** `userAvailability.find(...)`: the first entry for this user, service and day. */
  function FindAvailability(avail: seq<AvailabilityEntry>, userId: int, serviceId: int, date: Day)
    : (r: Option<AvailabilityEntry>)
    decreases |avail|
    ensures r.Some? ==> r.value in avail && EntryMatches(r.value, userId, serviceId, date)
    ensures r.None? <==> forall e :: e in avail ==> !EntryMatches(e, userId, serviceId, date)
  {
    if avail == [] then None
    else if EntryMatches(avail[0], userId, serviceId, date) then Some(avail[0])
    else FindAvailability(avail[1..], userId, serviceId, date)
  }

  /** `userPrefs.find(p => p.userId === userId)`. */
  function FindPreferences(prefs: seq<UserPreferences>, userId: int): (r: Option<UserPreferences>)
    decreases |prefs|
    ensures r.Some? ==> r.value in prefs && r.value.userId == userId
    ensures r.None? <==> forall p :: p in prefs ==> p.userId != userId
  {
    if prefs == [] then None
    else if prefs[0].userId == userId then Some(prefs[0])
    else FindPreferences(prefs[1..], userId)
  }

  /** The entry found is the first matching one: no entry before it matches. */
  lemma {:induction false} FindAvailabilityFirst(avail: seq<AvailabilityEntry>, userId: int, serviceId: int, date: Day)
    ensures var r := FindAvailability(avail, userId, serviceId, date);
            r.Some? ==> exists i :: 0 <= i < |avail| && avail[i] == r.value &&
                          forall j :: 0 <= j < i ==> !EntryMatches(avail[j], userId, serviceId, date)
    decreases |avail|
  {
    var r := FindAvailability(avail, userId, serviceId, date);
    if avail != [] && !EntryMatches(avail[0], userId, serviceId, date) {
      FindAvailabilityFirst(avail[1..], userId, serviceId, date);
      if r.Some? {
        var i :| 0 <= i < |avail[1..]| && avail[1..][i] == r.value &&
                 forall j :: 0 <= j < i ==> !EntryMatches(avail[1..][j], userId, serviceId, date);
        assert avail[i + 1] == r.value;
        forall j | 0 <= j < i + 1
          ensures !EntryMatches(avail[j], userId, serviceId, date)
        {
          if j > 0 {
            assert avail[j] == avail[1..][j - 1];
          }
        }
      }
    } else if avail != [] {
      assert avail[0] == r.value;
    }
  }

  /** The record found is the user's first one. */
  lemma {:induction false} FindPreferencesFirst(prefs: seq<UserPreferences>, userId: int)
    ensures var r := FindPreferences(prefs, userId);
            r.Some? ==> exists i :: 0 <= i < |prefs| && prefs[i] == r.value &&
                          forall j :: 0 <= j < i ==> prefs[j].userId != userId
    decreases |prefs|
  {
    var r := FindPreferences(prefs, userId);
    if prefs != [] && prefs[0].userId != userId {
      FindPreferencesFirst(prefs[1..], userId);
      if r.Some? {
        var i :| 0 <= i < |prefs[1..]| && prefs[1..][i] == r.value &&
                 forall j :: 0 <= j < i ==> prefs[1..][j].userId != userId;
        assert prefs[i + 1] == r.value;
        forall j | 0 <= j < i + 1
          ensures prefs[j].userId != userId
        {
          if j > 0 {
            assert prefs[j] == prefs[1..][j - 1];
          }
        }
      }
    } else if prefs != [] {
      assert prefs[0] == r.value;
    }
  }

  datatype Candidate = Candidate(userId: int, score: int, entry: AvailabilityEntry)

  function ScoreKey(c: Candidate): real
  {
    c.score as real
  }

  /** The candidate a team member makes for a slot: none when they have no
      entry for it, have marked it unavailable, or would break a constraint. */
  function UserCandidate(sched: ClinicalScheduler, slot: Slot, userId: int,
                         avail: seq<AvailabilityEntry>, prefs: seq<UserPreferences>,
                         current: seq<Assignment>, existing: seq<Assignment>): Option<Candidate>
  {
    var entry := FindAvailability(avail, userId, slot.serviceId, slot.date);
    if entry.None? || entry.value.preferenceType == Unavailable then None
    else
      var p := FindPreferences(prefs, userId);
      if |Violations(sched, userId, slot, current, existing, p)| > 0 then None
      else Some(Candidate(userId, CalculateAssignmentScore(userId, slot, entry.value, p, current), entry.value))
  }

  /** The candidate each roster member makes, member by member. */
  function CandidateOptions(sched: ClinicalScheduler, slot: Slot, roster: seq<int>,
                            avail: seq<AvailabilityEntry>, prefs: seq<UserPreferences>,
                            current: seq<Assignment>, existing: seq<Assignment>): (r: seq<Option<Candidate>>)
    decreases |roster|
    ensures |r| == |roster|
    ensures forall j :: 0 <= j < |roster| ==>
              r[j] == UserCandidate(sched, slot, roster[j], avail, prefs, current, existing)
  {
    if roster == [] then []
    else
      CandidateOptions(sched, slot, roster[..|roster| - 1], avail, prefs, current, existing)
      + [UserCandidate(sched, slot, roster[|roster| - 1], avail, prefs, current, existing)]
  }

  /** The candidates that are present, in order. */
  function Present(opts: seq<Option<Candidate>>): seq<Candidate>
    decreases |opts|
  {
    if opts == [] then []
    else Present(opts[..|opts| - 1]) + (match opts[|opts| - 1] case Some(c) => [c] case None => [])
  }

  /** The candidates of the roster, in roster order. */
  function Candidates(sched: ClinicalScheduler, slot: Slot, roster: seq<int>,
                      avail: seq<AvailabilityEntry>, prefs: seq<UserPreferences>,
                      current: seq<Assignment>, existing: seq<Assignment>): seq<Candidate>
  {
    Present(CandidateOptions(sched, slot, roster, avail, prefs, current, existing))
  }

  /** The assignment built for the winning candidate. */
  function NewAssignment(sched: ClinicalScheduler, slot: Slot, c: Candidate): Assignment
  {
    Assignment(0, c.userId, slot.serviceId, sched.schedulePeriodId, slot.date, Scheduled,
               slot.serviceType == Call, None, AutoAssigned(c.score))
  }

  /** What `findBestAssignment` returns: nothing without candidates, otherwise
      the head of the candidates sorted by score, highest first. */
  function BestAssignment(sched: ClinicalScheduler, slot: Slot, roster: seq<int>,
                          avail: seq<AvailabilityEntry>, prefs: seq<UserPreferences>,
                          current: seq<Assignment>, existing: seq<Assignment>): Option<Assignment>
  {
    var cands := Candidates(sched, slot, roster, avail, prefs, current, existing);
    if cands == [] then None
    else Some(NewAssignment(sched, slot, SortDesc(cands, ScoreKey)[0]))
  }

  /** One turn of the candidate loop: the availability lookup, the
      constraint check and the score of one team member. */
  method EvaluateMember(sched: ClinicalScheduler, slot: Slot, userId: int,
                        userAvailability: seq<AvailabilityEntry>, userPrefs: seq<UserPreferences>,
                        currentAssignments: seq<Assignment>, existingAssignments: seq<Assignment>)
    returns (candidate: Option<Candidate>)
    ensures candidate == UserCandidate(sched, slot, userId, userAvailability, userPrefs,
                                       currentAssignments, existingAssignments)
  {
    candidate := None;
    var availability := FindAvailability(userAvailability, userId, slot.serviceId, slot.date);
    if availability.Some? && availability.value.preferenceType != Unavailable {
      var prefs := FindPreferences(userPrefs, userId);
      var violations := CheckConstraints(sched, userId, slot, currentAssignments, existingAssignments, prefs);
      if |violations| == 0 {
        var score := CalculateAssignmentScore(userId, slot, availability.value, prefs, currentAssignments);
        candidate := Some(Candidate(userId, score, availability.value));
      }
    }
  }

  lemma CandidatesStep(sched: ClinicalScheduler, slot: Slot, roster: seq<int>, k: nat,
                       avail: seq<AvailabilityEntry>, prefs: seq<UserPreferences>,
                       current: seq<Assignment>, existing: seq<Assignment>)
    requires k < |roster|
    ensures Present(CandidateOptions(sched, slot, roster[..k + 1], avail, prefs, current, existing))
         == Present(CandidateOptions(sched, slot, roster[..k], avail, prefs, current, existing))
            + (match UserCandidate(sched, slot, roster[k], avail, prefs, current, existing)
               case Some(c) => [c] case None => [])
  {
    var opts := CandidateOptions(sched, slot, roster[..k + 1], avail, prefs, current, existing);
    assert roster[..k + 1][..k] == roster[..k];
    assert opts[..k] == CandidateOptions(sched, slot, roster[..k], avail, prefs, current, existing);
  }

  method FindBestAssignment(sched: ClinicalScheduler, slot: Slot, teamMembers: seq<int>,
                            userAvailability: seq<AvailabilityEntry>, userPrefs: seq<UserPreferences>,
                            currentAssignments: seq<Assignment>, existingAssignments: seq<Assignment>)
    returns (r: Option<Assignment>)
    ensures r == BestAssignment(sched, slot, teamMembers, userAvailability, userPrefs,
                                currentAssignments, existingAssignments)
  {
    var candidates: seq<Candidate> := [];
    var k := 0;
    while k < |teamMembers|
      invariant 0 <= k <= |teamMembers|
      invariant candidates == Present(CandidateOptions(sched, slot, teamMembers[..k], userAvailability,
                                                        userPrefs, currentAssignments, existingAssignments))
    {
      var candidate := EvaluateMember(sched, slot, teamMembers[k], userAvailability, userPrefs,
                                      currentAssignments, existingAssignments);
      CandidatesStep(sched, slot, teamMembers, k, userAvailability, userPrefs,
                     currentAssignments, existingAssignments);
      if candidate.Some? {
        candidates := candidates + [candidate.value];
      }
      k := k + 1;
    }
    assert teamMembers[..k] == teamMembers;
    if |candidates| == 0 {
      return None;
    }
    var best := BestCandidate(candidates);
    r := Some(NewAssignment(sched, slot, best));
  }

  /** Sorts a copy of the candidates by score, highest first, and takes the head. */
  method BestCandidate(candidates: seq<Candidate>) returns (best: Candidate)
    requires |candidates| > 0
    ensures best == SortDesc(candidates, ScoreKey)[0]
  {
    var sorted := new Candidate[|candidates|](i requires 0 <= i < |candidates| => candidates[i]);
    assert sorted[..] == candidates;
    SortInPlace(sorted, ScoreKey);
    best := sorted[0];
  }

  datatype RunState = RunState(
    assignments: seq<Assignment>,
    warnings: seq<Warning>,
    unassigned: seq<UnassignedSlot>)

  /** One turn of the assignment loop: record the assignment found for the
      slot, or report the slot unassigned with a warning. */
  function Step(st: RunState, slot: Slot, found: Option<Assignment>): RunState
  {
    match found
    case Some(a) => st.(assignments := st.assignments + [a])
    case None =>
      RunState(st.assignments,
               st.warnings + [UnableToAssign(slot.serviceName, slot.date)],
               st.unassigned + [UnassignedSlot(slot.serviceId, slot.date, NoStaffReason)])
  }

  /** The state after the assignment loop has handled `slots`. */
  function Run(sched: ClinicalScheduler, inp: Inputs, slots: seq<Slot>): RunState
    decreases |slots|
  {
    if slots == [] then RunState([], [], [])
    else
      var st := Run(sched, inp, slots[..|slots| - 1]);
      var slot := slots[|slots| - 1];
      Step(st, slot, BestAssignment(sched, slot, inp.roster, inp.availability, inp.preferences,
                                    st.assignments, inp.existing))
  }

  /** `optimizeAssignments` returns its input unchanged. */
  function OptimizeAssignments(assignments: seq<Assignment>, prefs: seq<UserPreferences>)
    : (r: seq<Assignment>)
    ensures r == assignments
  {
    assignments
  }

  /** How satisfied the assigned user is: 100, 75 or 25 for a preferred,
      available or emergency-only entry, and nothing without an entry. */
  function SatisfactionPoints(entry: Option<AvailabilityEntry>): nat
  {
    match entry
    case None => 0
    case Some(e) =>
      match e.preferenceType
      case Prefer => 100
      case Available => 75
      case EmergencyOnly => 25
      case Unavailable => 0
  }

  function TotalSatisfaction(assignments: seq<Assignment>, avail: seq<AvailabilityEntry>): nat
    decreases |assignments|
  {
    if assignments == [] then 0
    else
      var a := assignments[|assignments| - 1];
      TotalSatisfaction(assignments[..|assignments| - 1], avail)
        + SatisfactionPoints(FindAvailability(avail, a.userId, a.serviceId, a.date))
  }

  /** The mean satisfaction over the assignments, 0 when there are none. */
  function SatisfactionScore(assignments: seq<Assignment>, avail: seq<AvailabilityEntry>): real
  {
    if |assignments| == 0 then 0.0
    else (TotalSatisfaction(assignments, avail) as real) / (|assignments| as real)
  }

  method CalculateSatisfactionScore(assignments: seq<Assignment>, userAvailability: seq<AvailabilityEntry>)
    returns (score: real)
    ensures score == SatisfactionScore(assignments, userAvailability)
  {
    var totalScore := 0;
    var totalAssignments := |assignments|;
    var k := 0;
    while k < |assignments|
      invariant 0 <= k <= |assignments|
      invariant totalScore == TotalSatisfaction(assignments[..k], userAvailability)
    {
      var a := assignments[k];
      assert assignments[..k + 1][..k] == assignments[..k];
      var availability := FindAvailability(userAvailability, a.userId, a.serviceId, a.date);
      if availability.Some? {
        match availability.value.preferenceType
        case Prefer => totalScore := totalScore + 100;
        case Available => totalScore := totalScore + 75;
        case EmergencyOnly => totalScore := totalScore + 25;
        case Unavailable =>
      }
      k := k + 1;
    }
    assert assignments[..k] == assignments;
    score := if totalAssignments > 0 then (totalScore as real) / (totalAssignments as real) else 0.0;
  }

  /** The slots of the period, highest priority first. */
  function SortedSlots(period: SchedulePeriod, services: seq<Service>): seq<Slot>
  {
    SortDesc(RequiredSlots(period, services), PriorityKey)
  }

  /** What `generateSchedule` produces; without a period row it fails. */
  function Schedule(sched: ClinicalScheduler, inp: Inputs): (r: Result<SchedulingResult, ScheduleError>)
    ensures r.Failure? <==> inp.period.None?
  {
    match inp.period
    case None => Failure(PeriodNotFound)
    case Some(period) =>
      var st := Run(sched, inp, SortedSlots(period, inp.services));
      var assignments := OptimizeAssignments(st.assignments, inp.preferences);
      Success(SchedulingResult(assignments, st.warnings, st.unassigned,
                               SatisfactionScore(assignments, inp.availability)))
  }

  /** `Run` over one more slot is one more `Step`. */
  lemma RunSnoc(sched: ClinicalScheduler, inp: Inputs, slots: seq<Slot>, k: nat)
    requires k < |slots|
    ensures Run(sched, inp, slots[..k + 1])
         == Step(Run(sched, inp, slots[..k]), slots[k],
                 BestAssignment(sched, slots[k], inp.roster, inp.availability, inp.preferences,
                                Run(sched, inp, slots[..k]).assignments, inp.existing))
  {
    assert slots[..k + 1][..k] == slots[..k];
  }

  /** The required slots of the period, sorted in place by priority. */
  method PrioritizedSlots(period: SchedulePeriod, services: seq<Service>)
    returns (sortedSlots: seq<Slot>)
    ensures sortedSlots == SortedSlots(period, services)
  {
    var requiredSlots := GenerateRequiredSlots(period, services);
    var slotArray := new Slot[|requiredSlots|](i requires 0 <= i < |requiredSlots| => requiredSlots[i]);
    assert slotArray[..] == requiredSlots;
    PrioritizeSlots(slotArray);
    sortedSlots := slotArray[..];
  }

  /** One turn of the `generateSchedule` loop. */
  method ProcessSlot(sched: ClinicalScheduler, inp: Inputs, slot: Slot,
                     assignments0: seq<Assignment>, warnings0: seq<Warning>,
                     unassigned0: seq<UnassignedSlot>)
    returns (assignments: seq<Assignment>, warnings: seq<Warning>, unassignedSlots: seq<UnassignedSlot>)
    ensures RunState(assignments, warnings, unassignedSlots)
         == Step(RunState(assignments0, warnings0, unassigned0), slot,
                 BestAssignment(sched, slot, inp.roster, inp.availability, inp.preferences,
                                assignments0, inp.existing))
  {
    assignments, warnings, unassignedSlots := assignments0, warnings0, unassigned0;
    var assignment := FindBestAssignment(sched, slot, inp.roster, inp.availability, inp.preferences,
                                         assignments, inp.existing);
    if assignment.Some? {
      assignments := assignments + [assignment.value];
    } else {
      unassignedSlots := unassignedSlots + [UnassignedSlot(slot.serviceId, slot.date, NoStaffReason)];
      warnings := warnings + [UnableToAssign(slot.serviceName, slot.date)];
    }
  }

  method GenerateSchedule(sched: ClinicalScheduler, inp: Inputs)
    returns (r: Result<SchedulingResult, ScheduleError>)
    ensures r == Schedule(sched, inp)
  {
    if inp.period.None? {
      return Failure(PeriodNotFound);
    }
    var sortedSlots := PrioritizedSlots(inp.period.value, inp.services);

    var assignments: seq<Assignment> := [];
    var warnings: seq<Warning> := [];
    var unassignedSlots: seq<UnassignedSlot> := [];
    var k := 0;
    while k < |sortedSlots|
      invariant 0 <= k <= |sortedSlots|
      invariant RunState(assignments, warnings, unassignedSlots) == Run(sched, inp, sortedSlots[..k])
    {
      RunSnoc(sched, inp, sortedSlots, k);
      assignments, warnings, unassignedSlots :=
        ProcessSlot(sched, inp, sortedSlots[k], assignments, warnings, unassignedSlots);
      k := k + 1;
    }
    assert sortedSlots[..k] == sortedSlots;
    var optimizedAssignments := OptimizeAssignments(assignments, inp.preferences);
    var score := CalculateSatisfactionScore(optimizedAssignments, inp.availability);
    r := Success(SchedulingResult(optimizedAssignments, warnings, unassignedSlots, score));
  }
}
