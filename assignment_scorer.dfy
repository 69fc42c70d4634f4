/** `calculateAssignmentScore`: how good a candidate is for a slot, from the
    preference type and priority of the availability entry, the candidate's
    assignments so far in this run, and the user's custom preferences. */
module AssignmentScorer {
  import opened Wrappers
  import opened Schema
  import opened SlotGenerator
  import opened ConstraintChecker

  function DigitChar(d: int): char
    requires 0 <= d < 10
  {
    "0123456789"[d]
  }

  function DigitValue(c: char): int
  {
    if '0' <= c <= '9' then (c as int) - ('0' as int) else 0
  }

  /** Decimal digits of a natural number, with no leading zeros. */
  function NatToDecimal(n: nat): (s: string)
    ensures |s| > 0
    ensures forall i :: 0 <= i < |s| ==> '0' <= s[i] <= '9'
  {
    if n < 10 then [DigitChar(n)] else NatToDecimal(n / 10) + [DigitChar(n % 10)]
  }

  /** `Number.prototype.toString()` for an integer: a minus sign and the digits. */
  function DecimalString(n: int): string
  {
    if n < 0 then "-" + NatToDecimal(-n) else NatToDecimal(n)
  }

  /** Reads back a string of digits. */
  function ParseNat(s: string): int
    decreases |s|
  {
    if s == [] then 0 else ParseNat(s[..|s| - 1]) * 10 + DigitValue(s[|s| - 1])
  }

  function ParseDecimal(s: string): int
  {
    if |s| > 0 && s[0] == '-' then -ParseNat(s[1..]) else ParseNat(s)
  }

  lemma {:induction false} NatToDecimalRoundTrip(n: nat)
    ensures ParseNat(NatToDecimal(n)) == n
  {
    if n >= 10 {
      NatToDecimalRoundTrip(n / 10);
      var s := NatToDecimal(n);
      assert s[..|s| - 1] == NatToDecimal(n / 10);
    }
  }

  /** The text `toString` gives a service id reads back as that id, so two
      distinct ids never have the same text. */
  lemma DecimalStringRoundTrip(n: int)
    ensures ParseDecimal(DecimalString(n)) == n
  {
    var s := DecimalString(n);
    if n < 0 {
      var digits := NatToDecimal(-n);
      NatToDecimalRoundTrip(-n);
      assert s == "-" + digits;
      assert s[0] == '-' && s[1..] == digits;
    } else {
      NatToDecimalRoundTrip(n);
      assert '0' <= s[0] <= '9';
    }
  }

  lemma DecimalStringInjective(a: int, b: int)
    requires DecimalString(a) == DecimalString(b)
    ensures a == b
  {
    DecimalStringRoundTrip(a);
    DecimalStringRoundTrip(b);
  }

  /** The base score of an availability entry: 100, 50 or 10, and 25 for
      anything else. */
  function BaseScore(t: PreferenceType): (b: int)
    ensures b in {100, 50, 25, 10}
  {
    match t
    case Prefer => 100
    case Available => 50
    case EmergencyOnly => 10
    case Unavailable => 25
  }

  /** `(availability.priority || 3) * 10`: null and 0 both count as 3. */
  function PriorityModifier(priority: Option<int>): int
  {
    match priority
    case Some(p) => (if p != 0 then p else 3) * 10
    case None => 30
  }

  function CountUser(current: seq<Assignment>, userId: int): nat
  {
    |UserAssignments(current, userId)|
  }

  predicate PrefersDayOff(prefs: Option<UserPreferences>, dayOfWeek: int)
  {
    && prefs.Some? && prefs.value.customPreferences.Some?
    && prefs.value.customPreferences.value.preferredDaysOff.Some?
    && dayOfWeek in prefs.value.customPreferences.value.preferredDaysOff.value
  }

  predicate PrefersService(prefs: Option<UserPreferences>, serviceId: int)
  {
    && prefs.Some? && prefs.value.customPreferences.Some?
    && prefs.value.customPreferences.value.preferredServices.Some?
    && DecimalString(serviceId) in prefs.value.customPreferences.value.preferredServices.value
  }

  /** The score: the base score and the priority term, less five points per
      assignment the user already holds in this run, then at most 20 points
      off for a preferred day off and at most 30 on for a preferred service. */
  function CalculateAssignmentScore(userId: int, slot: Slot, entry: AvailabilityEntry,
                                    prefs: Option<UserPreferences>, current: seq<Assignment>): (r: int)
    ensures var core := BaseScore(entry.preferenceType) + PriorityModifier(entry.priority)
                        - 5 * |UserAssignments(current, userId)|;
            core - 20 <= r <= core + 30
  {
    BaseScore(entry.preferenceType)
    + PriorityModifier(entry.priority)
    - 5 * CountUser(current, userId)
    - (if slot.isWeekend && PrefersDayOff(prefs, slot.dayOfWeek) then 20 else 0)
    + (if PrefersService(prefs, slot.serviceId) then 30 else 0)
  }

  /** Fairness: each assignment the user already holds in this run costs
      exactly five points; another user's assignments cost nothing. */
  lemma ScoreFairnessPenalty(userId: int, slot: Slot, entry: AvailabilityEntry,
                             prefs: Option<UserPreferences>, current: seq<Assignment>, a: Assignment)
    ensures CalculateAssignmentScore(userId, slot, entry, prefs, current + [a])
         == CalculateAssignmentScore(userId, slot, entry, prefs, current) - (if a.userId == userId then 5 else 0)
  {
    UserAssignmentsAppend(current, [a], userId);
    assert UserAssignments([a], userId) == (if a.userId == userId then [a] else []) by {
      assert [a][..0] == [];
    }
  }

  /** With everything else equal, a preferred day outscores an available one
      by 50 points, which outscores an emergency-only one by 40. */
  lemma ScorePreferenceOrder(userId: int, slot: Slot, entry: AvailabilityEntry,
                             prefs: Option<UserPreferences>, current: seq<Assignment>)
    ensures CalculateAssignmentScore(userId, slot, entry.(preferenceType := Prefer), prefs, current)
         == CalculateAssignmentScore(userId, slot, entry.(preferenceType := Available), prefs, current) + 50
    ensures CalculateAssignmentScore(userId, slot, entry.(preferenceType := Available), prefs, current)
         == CalculateAssignmentScore(userId, slot, entry.(preferenceType := EmergencyOnly), prefs, current) + 40
  {
  }

  /** The preferred-days-off penalty only applies to weekend slots. */
  lemma ScoreWeekdayIgnoresDaysOff(userId: int, slot: Slot, entry: AvailabilityEntry,
                                   prefs: Option<UserPreferences>, current: seq<Assignment>)
    requires !slot.isWeekend
    ensures CalculateAssignmentScore(userId, slot, entry, prefs, current)
         == CalculateAssignmentScore(userId, slot, entry, None, current)
            + (if PrefersService(prefs, slot.serviceId) then 30 else 0)
  {
  }

  /** Each point of the entry's priority is worth 10; a missing priority and
      a priority of 0 both count as 3. */
  lemma ScorePriorityTerm(userId: int, slot: Slot, entry: AvailabilityEntry,
                          prefs: Option<UserPreferences>, current: seq<Assignment>, p: int)
    ensures CalculateAssignmentScore(userId, slot, entry.(priority := Some(p)), prefs, current)
         == CalculateAssignmentScore(userId, slot, entry.(priority := None), prefs, current)
            + (if p == 0 then 0 else 10 * p - 30)
  {
  }

  /** On a weekend slot the only effect of the weekend is a 20-point penalty
      when the slot's day of the week is one of the user's preferred days off. */
  lemma ScoreWeekendDayOffPenalty(userId: int, slot: Slot, entry: AvailabilityEntry,
                                  prefs: Option<UserPreferences>, current: seq<Assignment>)
    requires slot.isWeekend
    ensures CalculateAssignmentScore(userId, slot, entry, prefs, current)
         == CalculateAssignmentScore(userId, slot.(isWeekend := false), entry, prefs, current)
            - (if PrefersDayOff(prefs, slot.dayOfWeek) then 20 else 0)
  {
  }
}
