/** `SwapSuggestionEngine`: for an assignment a user wants to give away, the
    other users' scheduled assignments of the same period that could be
    swapped with it, best match first. The compatibility of a pair is
    supplied by the caller. */
module SwapSuggester {
  import opened Wrappers
  import opened Schema
  import opened StableSort

  datatype SwapSuggestion = SwapSuggestion(
    targetUserId: int,
    targetAssignment: Assignment,
    compatibility: real)

  datatype SwapSuggestions = SwapSuggestions(
    twoWaySwaps: seq<SwapSuggestion>,
    threeWaySwaps: seq<SwapSuggestion>)

  /** The assignment with the requested id, if the table has one. */
  function FindAssignment(table: seq<Assignment>, id: int): (r: Option<Assignment>)
    decreases |table|
    ensures r.Some? ==> r.value in table && r.value.id == id
    ensures r.None? <==> forall a :: a in table ==> a.id != id
  {
    if table == [] then None
    else if table[0].id == id then Some(table[0])
    else FindAssignment(table[1..], id)
  }

  /** The query of `findTwoWaySwaps`: scheduled assignments of the same period. */
  function PotentialSwaps(table: seq<Assignment>, original: Assignment): seq<Assignment>
    decreases |table|
  {
    if table == [] then []
    else
      var a := table[|table| - 1];
      PotentialSwaps(table[..|table| - 1], original)
        + (if a.schedulePeriodId == original.schedulePeriodId && a.status == Scheduled then [a] else [])
  }

  /** Whether the two users can work each other's shifts; every pair can. */
  predicate CanUsersSwap(a1: Assignment, a2: Assignment): (b: bool)
    ensures b
  {
    true
  }

  /** The suggestions built from `potentials` in order: those owned by
      another user, with the compatibility of the pair. */
  function TwoWayCandidates(original: Assignment, potentials: seq<Assignment>,
                            compat: (Assignment, Assignment) -> real): (r: seq<SwapSuggestion>)
    decreases |potentials|
    ensures forall s :: s in r ==>
              s.targetAssignment in potentials && s.targetUserId == s.targetAssignment.userId
              && s.targetUserId != original.userId
              && s.compatibility == compat(original, s.targetAssignment)
  {
    if potentials == [] then []
    else
      var p := potentials[|potentials| - 1];
      TwoWayCandidates(original, potentials[..|potentials| - 1], compat)
        + (if p.userId != original.userId && CanUsersSwap(original, p)
           then [SwapSuggestion(p.userId, p, compat(original, p))] else [])
  }

  function CompatibilityKey(s: SwapSuggestion): real
  {
    s.compatibility
  }

  /** What `findTwoWaySwaps` returns: the candidates by compatibility, highest first. */
  function TwoWaySwaps(original: Assignment, table: seq<Assignment>,
                       compat: (Assignment, Assignment) -> real): seq<SwapSuggestion>
  {
    SortDesc(TwoWayCandidates(original, PotentialSwaps(table, original), compat), CompatibilityKey)
  }

  /** The three-way search is a stub. */
  function FindThreeWaySwaps(original: Assignment): (r: seq<SwapSuggestion>)
    ensures r == []
  {
    []
  }

  /** What `suggestSwaps` returns. */
  function Suggestions(requesterAssignmentId: int, table: seq<Assignment>,
                       compat: (Assignment, Assignment) -> real): SwapSuggestions
  {
    match FindAssignment(table, requesterAssignmentId)
    case None => SwapSuggestions([], [])
    case Some(original) => SwapSuggestions(TwoWaySwaps(original, table, compat), FindThreeWaySwaps(original))
  }

  method FindTwoWaySwaps(original: Assignment, table: seq<Assignment>,
                         compat: (Assignment, Assignment) -> real)
    returns (r: seq<SwapSuggestion>)
    ensures r == TwoWaySwaps(original, table, compat)
  {
    var potentialSwaps := PotentialSwaps(table, original);
    var swapSuggestions: seq<SwapSuggestion> := [];
    var k := 0;
    while k < |potentialSwaps|
      invariant 0 <= k <= |potentialSwaps|
      invariant swapSuggestions == TwoWayCandidates(original, potentialSwaps[..k], compat)
    {
      var potential := potentialSwaps[k];
      assert potentialSwaps[..k + 1][..k] == potentialSwaps[..k];
      if potential.userId != original.userId {
        var canSwap := CanUsersSwap(original, potential);
        if canSwap {
          swapSuggestions := swapSuggestions
            + [SwapSuggestion(potential.userId, potential, compat(original, potential))];
        }
      }
      k := k + 1;
    }
    assert potentialSwaps[..k] == potentialSwaps;
    var sorted := new SwapSuggestion[|swapSuggestions|](i requires 0 <= i < |swapSuggestions| => swapSuggestions[i]);
    assert sorted[..] == swapSuggestions;
    SortInPlace(sorted, CompatibilityKey);
    r := sorted[..];
  }

  method SuggestSwaps(requesterAssignmentId: int, table: seq<Assignment>,
                      compat: (Assignment, Assignment) -> real)
    returns (r: SwapSuggestions)
    ensures r == Suggestions(requesterAssignmentId, table, compat)
  {
    var originalAssignment := FindAssignment(table, requesterAssignmentId);
    if originalAssignment.None? {
      return SwapSuggestions([], []);
    }
    var twoWaySwaps := FindTwoWaySwaps(originalAssignment.value, table, compat);
    var threeWaySwaps := FindThreeWaySwaps(originalAssignment.value);
    r := SwapSuggestions(twoWaySwaps, threeWaySwaps);
  }

  /** The assignments a swap could target, in one pass: same period as the
      original, scheduled, and owned by someone else. */
  function SwapTargets(table: seq<Assignment>, original: Assignment): seq<Assignment>
    decreases |table|
  {
    if table == [] then []
    else
      var a := table[|table| - 1];
      SwapTargets(table[..|table| - 1], original)
        + (if a.schedulePeriodId == original.schedulePeriodId && a.status == Scheduled
              && a.userId != original.userId then [a] else [])
  }

  function TargetOf(s: SwapSuggestion): Assignment
  {
    s.targetAssignment
  }

  lemma {:induction false} TwoWayCandidatesSnoc(original: Assignment, potentials: seq<Assignment>, p: Assignment,
                                               compat: (Assignment, Assignment) -> real)
    ensures TwoWayCandidates(original, potentials + [p], compat)
         == TwoWayCandidates(original, potentials, compat)
            + (if p.userId != original.userId then [SwapSuggestion(p.userId, p, compat(original, p))] else [])
  {
    assert (potentials + [p])[..|potentials|] == potentials;
  }

  /** Filtering by the query and then skipping the requester's own
      assignments targets exactly `SwapTargets`, in table order. */
  lemma {:induction false} CandidateTargets(original: Assignment, table: seq<Assignment>,
                                            compat: (Assignment, Assignment) -> real)
    ensures MapSeq(TwoWayCandidates(original, PotentialSwaps(table, original), compat), TargetOf)
         == SwapTargets(table, original)
    decreases |table|
  {
    if table != [] {
      var init := table[..|table| - 1];
      var a := table[|table| - 1];
      CandidateTargets(original, init, compat);
      var pinit := PotentialSwaps(init, original);
      var cinit := TwoWayCandidates(original, pinit, compat);
      if a.schedulePeriodId == original.schedulePeriodId && a.status == Scheduled {
        TwoWayCandidatesSnoc(original, pinit, a, compat);
        if a.userId != original.userId {
          var s := SwapSuggestion(a.userId, a, compat(original, a));
          assert (cinit + [s])[..|cinit|] == cinit;
          assert MapSeq(cinit + [s], TargetOf) == MapSeq(cinit, TargetOf) + [a];
        } else {
          assert cinit + [] == cinit;
        }
      } else {
        assert pinit + [] == pinit;
      }
    }
  }

  /** `suggestSwaps` gives two empty lists for an unknown assignment id.
      Otherwise its two-way list targets each scheduled assignment of the
      same period owned by another user exactly as often as the table holds
      it, names that owner, carries the pair's compatibility, and runs from
      the most to the least compatible; the three-way list is empty. */
  lemma SuggestionsCorrect(requesterAssignmentId: int, table: seq<Assignment>,
                           compat: (Assignment, Assignment) -> real)
    ensures var r := Suggestions(requesterAssignmentId, table, compat);
            && r.threeWaySwaps == []
            && (FindAssignment(table, requesterAssignmentId).None? ==> r.twoWaySwaps == [])
            && (FindAssignment(table, requesterAssignmentId).Some? ==>
                  var original := FindAssignment(table, requesterAssignmentId).value;
                  && multiset(MapSeq(r.twoWaySwaps, TargetOf)) == multiset(SwapTargets(table, original))
                  && (forall s :: s in r.twoWaySwaps ==>
                        s.targetUserId == s.targetAssignment.userId
                        && s.compatibility == compat(original, s.targetAssignment))
                  && (forall i, j :: 0 <= i < j < |r.twoWaySwaps| ==>
                        r.twoWaySwaps[i].compatibility >= r.twoWaySwaps[j].compatibility))
  {
    var found := FindAssignment(table, requesterAssignmentId);
    if found.Some? {
      var original := found.value;
      var cands := TwoWayCandidates(original, PotentialSwaps(table, original), compat);
      var sorted := SortDesc(cands, CompatibilityKey);
      SortDescCorrect(cands, CompatibilityKey);
      SortDescMapsPermute(cands, CompatibilityKey, TargetOf);
      CandidateTargets(original, table, compat);
      forall s | s in sorted
        ensures s.targetUserId == s.targetAssignment.userId
                && s.compatibility == compat(original, s.targetAssignment)
      {
        assert s in multiset(sorted);
      }
      forall i, j | 0 <= i < j < |sorted|
        ensures sorted[i].compatibility >= sorted[j].compatibility
      {
        assert CompatibilityKey(sorted[i]) >= CompatibilityKey(sorted[j]);
      }
    }
  }

  /** Suggestions of equal compatibility keep the order the query returned
      them in (the array sort is stable). */
  lemma SuggestionsTiesKeepQueryOrder(original: Assignment, table: seq<Assignment>,
                                      compat: (Assignment, Assignment) -> real, c: real)
    ensures KeyFilter(TwoWaySwaps(original, table, compat), CompatibilityKey, c)
         == KeyFilter(TwoWayCandidates(original, PotentialSwaps(table, original), compat), CompatibilityKey, c)
  {
    SortDescCorrect(TwoWayCandidates(original, PotentialSwaps(table, original), compat), CompatibilityKey);
  }

  lemma {:induction false} SwapTargetsMembers(table: seq<Assignment>, original: Assignment)
    ensures forall a :: a in SwapTargets(table, original) <==>
              a in table && a.schedulePeriodId == original.schedulePeriodId
              && a.status == Scheduled && a.userId != original.userId
    decreases |table|
  {
    if table != [] {
      SwapTargetsMembers(table[..|table| - 1], original);
      assert table == table[..|table| - 1] + [table[|table| - 1]];
    }
  }
}
