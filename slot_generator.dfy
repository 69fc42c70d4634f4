/** Expansion of a schedule period and the team's services into the coverage
    slots that must be staffed, and their ordering by difficulty
    (`generateRequiredSlots`, `shouldServiceRun`, `calculateSlotPriority`,
    `prioritizeSlots`). */
module SlotGenerator {
  import opened Calendar
  import opened Schema
  import opened StableSort

  /** One required staffing unit of one service on one date. */
  datatype Slot = Slot(
    serviceId: int,
    serviceName: string,
    date: Day,
    dayOfWeek: int,
    isWeekend: bool,
    serviceType: ServiceType,
    priority: int)

  /** Whether `service` needs cover on `date`. */
  function ShouldServiceRun(service: Service, date: Day, isWeekend: bool): bool
  {
    match service.serviceType
    case Weekday => !isWeekend
    case Weekend => isWeekend
    case Holiday => IsHoliday(date)
    case Call => true
  }

  /** Difficulty of filling a slot: 1, plus 2 on a weekend, plus 3 on a
      holiday, plus 1 for a call service. No day is a holiday, so the holiday
      term never applies. */
  function CalculateSlotPriority(service: Service, date: Day, isWeekend: bool): (p: int)
    ensures 1 <= p <= 4
    ensures p == 1 + (if isWeekend then 2 else 0) + (if service.serviceType == Call then 1 else 0)
  {
    1 + (if isWeekend then 2 else 0)
      + (if IsHoliday(date) then 3 else 0)
      + (if service.serviceType == Call then 1 else 0)
  }

  /** The slot `service` needs on `date`. */
  function MakeSlot(service: Service, date: Day): Slot
  {
    var isWeekend := IsWeekendDay(date);
    Slot(service.id, service.name, date, DayOfWeek(date), isWeekend,
         service.serviceType, CalculateSlotPriority(service, date, isWeekend))
  }

  /** The number of iterations of `for (i = 0; i < n; i++)`. */
  function Copies(n: int): nat
  {
    if n > 0 then n else 0
  }

  function Repeat(s: Slot, n: nat): (r: seq<Slot>)
    ensures |r| == n
    ensures forall i :: 0 <= i < n ==> r[i] == s
  {
    if n == 0 then [] else Repeat(s, n - 1) + [s]
  }

  /** The copies of `service`'s slot on `date`, one per required person. */
  function ServiceSlots(service: Service, date: Day): seq<Slot>
  {
    if ShouldServiceRun(service, date, IsWeekendDay(date))
    then Repeat(MakeSlot(service, date), Copies(service.minStaffRequired))
    else []
  }

  /** The slots of one date, service by service. */
  function DaySlots(services: seq<Service>, date: Day): seq<Slot>
    decreases |services|
  {
    if services == [] then []
    else DaySlots(services[..|services| - 1], date) + ServiceSlots(services[|services| - 1], date)
  }

  /** The slots of every date from `first` to `last`, date by date. */
  function SlotsThrough(services: seq<Service>, first: Day, last: Day): seq<Slot>
    decreases last - first
  {
    if last < first then []
    else SlotsThrough(services, first, last - 1) + DaySlots(services, last)
  }

  /** All slots of the period, both end dates included. */
  function RequiredSlots(period: SchedulePeriod, services: seq<Service>): seq<Slot>
  {
    SlotsThrough(services, period.startDate, period.endDate)
  }

  /** The fields a slot derives from its date and service type. */
  ghost predicate WellFormedSlot(s: Slot)
  {
    && s.dayOfWeek == DayOfWeek(s.date)
    && s.isWeekend == IsWeekendDay(s.date)
    && s.priority == 1 + (if s.isWeekend then 2 else 0) + (if s.serviceType == Call then 1 else 0)
  }

  /** The loop over dates; each date's services are appended by `AppendDaySlots`. */
  method GenerateRequiredSlots(period: SchedulePeriod, teamServices: seq<Service>)
    returns (slots: seq<Slot>)
    ensures slots == RequiredSlots(period, teamServices)
  {
    slots := [];
    var date := period.startDate;
    while date <= period.endDate
      invariant date == period.startDate || period.startDate < date <= period.endDate + 1
      invariant slots == SlotsThrough(teamServices, period.startDate, date - 1)
      decreases period.endDate - date
    {
      var dayOfWeek := DayOfWeek(date);
      var isWeekend := dayOfWeek == 0 || dayOfWeek == 6;
      slots := AppendDaySlots(slots, teamServices, date, dayOfWeek, isWeekend);
      date := date + 1;
    }
  }

  /** The loops over the services and over each service's required copies,
      for one date. */
  method AppendDaySlots(slots0: seq<Slot>, teamServices: seq<Service>, date: Day,
                        dayOfWeek: int, isWeekend: bool)
    returns (slots: seq<Slot>)
    requires dayOfWeek == DayOfWeek(date) && isWeekend == (dayOfWeek == 0 || dayOfWeek == 6)
    ensures slots == slots0 + DaySlots(teamServices, date)
  {
    slots := slots0;
    var k := 0;
    while k < |teamServices|
      invariant 0 <= k <= |teamServices|
      invariant slots == slots0 + DaySlots(teamServices[..k], date)
    {
      slots := AppendServiceSlots(slots, teamServices[k], date, dayOfWeek, isWeekend);
      DaySlotsStep(teamServices, k, date);
      assert slots == slots0 + (DaySlots(teamServices[..k], date) + ServiceSlots(teamServices[k], date));
      k := k + 1;
    }
    assert teamServices[..k] == teamServices;
  }

  /** One service's turn on one date: its copies when it runs that day. */
  method AppendServiceSlots(slots0: seq<Slot>, service: Service, date: Day,
                            dayOfWeek: int, isWeekend: bool)
    returns (slots: seq<Slot>)
    requires dayOfWeek == DayOfWeek(date) && isWeekend == (dayOfWeek == 0 || dayOfWeek == 6)
    ensures slots == slots0 + ServiceSlots(service, date)
  {
    slots := slots0;
    var shouldRun := ShouldServiceRun(service, date, isWeekend);
    if shouldRun {
      var slot := Slot(service.id, service.name, date, dayOfWeek, isWeekend,
                       service.serviceType, CalculateSlotPriority(service, date, isWeekend));
      SlotFieldsFromDate(service, date, dayOfWeek, isWeekend);
      slots := AppendCopies(slots, slot, service.minStaffRequired);
    } else {
      assert slots0 + [] == slots0;
    }
  }

  /** The loop pushing one copy of the slot per required person. */
  method AppendCopies(slots0: seq<Slot>, slot: Slot, minStaffRequired: int) returns (slots: seq<Slot>)
    ensures slots == slots0 + Repeat(slot, Copies(minStaffRequired))
  {
    slots := slots0;
    var i := 0;
    while i < minStaffRequired
      invariant 0 <= i <= Copies(minStaffRequired)
      invariant slots == slots0 + Repeat(slot, i)
    {
      slots := slots + [slot];
      i := i + 1;
    }
  }

  lemma SlotFieldsFromDate(service: Service, date: Day, dayOfWeek: int, isWeekend: bool)
    requires dayOfWeek == DayOfWeek(date) && isWeekend == (dayOfWeek == 0 || dayOfWeek == 6)
    ensures Slot(service.id, service.name, date, dayOfWeek, isWeekend, service.serviceType,
                 CalculateSlotPriority(service, date, isWeekend)) == MakeSlot(service, date)
  {
  }

  lemma DaySlotsStep(services: seq<Service>, k: nat, date: Day)
    requires k < |services|
    ensures DaySlots(services[..k + 1], date) == DaySlots(services[..k], date) + ServiceSlots(services[k], date)
  {
    assert services[..k + 1][..k] == services[..k];
  }

  /** Every slot lies in the period, carries the fields its date and service
      type determine, and the slots come out in date order. */
  lemma {:induction false} SlotsThroughShape(services: seq<Service>, first: Day, last: Day)
    ensures forall s :: s in SlotsThrough(services, first, last) ==>
              first <= s.date <= last && WellFormedSlot(s)
    ensures forall i, j :: 0 <= i < j < |SlotsThrough(services, first, last)| ==>
              SlotsThrough(services, first, last)[i].date <= SlotsThrough(services, first, last)[j].date
    decreases last - first
  {
    if first <= last {
      SlotsThroughShape(services, first, last - 1);
      DaySlotsShape(services, last);
    }
  }

  lemma {:induction false} DaySlotsShape(services: seq<Service>, date: Day)
    ensures forall s :: s in DaySlots(services, date) ==> s.date == date && WellFormedSlot(s)
    decreases |services|
  {
    if services != [] {
      DaySlotsShape(services[..|services| - 1], date);
    }
  }

  lemma RequiredSlotsShape(period: SchedulePeriod, services: seq<Service>)
    ensures forall s :: s in RequiredSlots(period, services) ==>
              period.startDate <= s.date <= period.endDate && WellFormedSlot(s)
    ensures forall i, j :: 0 <= i < j < |RequiredSlots(period, services)| ==>
              RequiredSlots(period, services)[i].date <= RequiredSlots(period, services)[j].date
  {
    SlotsThroughShape(services, period.startDate, period.endDate);
  }

  /** The slots on one date, in order. */
  function SlotsOn(slots: seq<Slot>, date: Day): seq<Slot>
    decreases |slots|
  {
    if slots == [] then []
    else SlotsOn(slots[..|slots| - 1], date)
         + (if slots[|slots| - 1].date == date then [slots[|slots| - 1]] else [])
  }

  lemma {:induction false} SlotsOnAppend(a: seq<Slot>, b: seq<Slot>, date: Day)
    ensures SlotsOn(a + b, date) == SlotsOn(a, date) + SlotsOn(b, date)
    decreases |b|
  {
    if b == [] {
      assert a + b == a;
    } else {
      SlotsOnAppend(a, b[..|b| - 1], date);
      assert (a + b)[..|a + b| - 1] == a + b[..|b| - 1];
    }
  }

  lemma {:induction false} SlotsOnAllOrNothing(slots: seq<Slot>, date: Day)
    ensures (forall s :: s in slots ==> s.date == date) ==> SlotsOn(slots, date) == slots
    ensures (forall s :: s in slots ==> s.date != date) ==> SlotsOn(slots, date) == []
    decreases |slots|
  {
    if slots != [] {
      SlotsOnAllOrNothing(slots[..|slots| - 1], date);
      assert slots == slots[..|slots| - 1] + [slots[|slots| - 1]];
    }
  }

  /** Restricted to one date of the period, the generated slots are exactly
      that date's slots, in service order; outside the period there are none. */
  lemma {:induction false} SlotsThroughOnDate(services: seq<Service>, first: Day, last: Day, date: Day)
    ensures SlotsOn(SlotsThrough(services, first, last), date)
         == if first <= date <= last then DaySlots(services, date) else []
    decreases last - first
  {
    if first <= last {
      var prev := SlotsThrough(services, first, last - 1);
      var day := DaySlots(services, last);
      SlotsThroughOnDate(services, first, last - 1, date);
      SlotsOnAppend(prev, day, date);
      if date == last {
        assert SlotsOn(day, date) == day by {
          DaySlotsShape(services, last);
          SlotsOnAllOrNothing(day, date);
        }
        assert SlotsOn(prev, date) == [] by {
          SlotsThroughShape(services, first, last - 1);
          SlotsOnAllOrNothing(prev, date);
        }
      } else {
        assert SlotsOn(day, date) == [] by {
          DaySlotsShape(services, last);
          SlotsOnAllOrNothing(day, date);
        }
      }
    }
  }

  lemma RequiredSlotsOnDate(period: SchedulePeriod, services: seq<Service>, date: Day)
    ensures SlotsOn(RequiredSlots(period, services), date)
         == if period.startDate <= date <= period.endDate then DaySlots(services, date) else []
  {
    SlotsThroughOnDate(services, period.startDate, period.endDate, date);
  }

  /** Number of slots of service `id` on `date`. */
  function CountSlots(slots: seq<Slot>, date: Day, id: int): nat
    decreases |slots|
  {
    if slots == [] then 0
    else CountSlots(slots[..|slots| - 1], date, id)
         + (if slots[|slots| - 1].date == date && slots[|slots| - 1].serviceId == id then 1 else 0)
  }

  lemma {:induction false} CountSlotsAppend(a: seq<Slot>, b: seq<Slot>, date: Day, id: int)
    ensures CountSlots(a + b, date, id) == CountSlots(a, date, id) + CountSlots(b, date, id)
    decreases |b|
  {
    if b == [] {
      assert a + b == a;
    } else {
      CountSlotsAppend(a, b[..|b| - 1], date, id);
      assert (a + b)[..|a + b| - 1] == a + b[..|b| - 1];
    }
  }

  lemma {:induction false} CountRepeat(s: Slot, n: nat, date: Day, id: int)
    ensures CountSlots(Repeat(s, n), date, id) == if s.date == date && s.serviceId == id then n else 0
    decreases n
  {
    if n > 0 {
      CountRepeat(s, n - 1, date, id);
      assert Repeat(s, n)[..n - 1] == Repeat(s, n - 1);
    }
  }

  /** The rule deciding whether a service applies on a date. */
  predicate Applies(service: Service, date: Day)
  {
    || (service.serviceType == Weekday && !IsWeekendDay(date))
    || (service.serviceType == Weekend && IsWeekendDay(date))
    || service.serviceType == Call
  }

  /** `shouldServiceRun` on a date's own weekend flag follows the rule:
      weekday services on weekdays, weekend services on weekends, call
      services every day, and holiday services never. */
  lemma ShouldServiceRunApplies(service: Service, date: Day)
    ensures ShouldServiceRun(service, date, IsWeekendDay(date)) <==> Applies(service, date)
    ensures service.serviceType == Holiday ==> !ShouldServiceRun(service, date, IsWeekendDay(date))
  {
  }

  /** When service ids are distinct, one date's slots hold `minStaffRequired`
      copies of each service that applies on it, and none of the others. */
  lemma {:induction false} DaySlotsCount(services: seq<Service>, date: Day, service: Service)
    requires service in services
    requires DistinctIds(services)
    ensures CountSlots(DaySlots(services, date), date, service.id)
         == if Applies(service, date) then Copies(service.minStaffRequired) else 0
    decreases |services|
  {
    var init := services[..|services| - 1];
    var last := services[|services| - 1];
    CountSlotsAppend(DaySlots(init, date), ServiceSlots(last, date), date, service.id);
    if ShouldServiceRun(last, date, IsWeekendDay(date)) {
      CountRepeat(MakeSlot(last, date), Copies(last.minStaffRequired), date, service.id);
    }
    if last == service {
      DaySlotsNone(init, date, service.id);
      assert ShouldServiceRun(last, date, IsWeekendDay(date)) == Applies(service, date);
    } else {
      DistinctInit(services, service);
      DaySlotsCount(init, date, service);
    }
  }

  /** No two services share an id, as the primary key guarantees. */
  predicate DistinctIds(services: seq<Service>)
  {
    forall i, j :: 0 <= i < j < |services| ==> services[i].id != services[j].id
  }

  /** A service other than the last one of a list with distinct ids is in
      the rest of the list, whose ids are distinct too, and differs in id
      from the last one. */
  lemma DistinctInit(services: seq<Service>, service: Service)
    requires service in services && services[|services| - 1] != service
    requires DistinctIds(services)
    ensures service in services[..|services| - 1]
    ensures services[|services| - 1].id != service.id
    ensures DistinctIds(services[..|services| - 1])
  {
    var init := services[..|services| - 1];
    var k :| 0 <= k < |services| && services[k] == service;
    assert k != |services| - 1;
    assert init[k] == service;
  }

  lemma {:induction false} DaySlotsNone(services: seq<Service>, date: Day, id: int)
    requires forall s :: s in services ==> s.id != id
    ensures CountSlots(DaySlots(services, date), date, id) == 0
    decreases |services|
  {
    if services != [] {
      var init := services[..|services| - 1];
      var last := services[|services| - 1];
      DaySlotsNone(init, date, id);
      CountSlotsAppend(DaySlots(init, date), ServiceSlots(last, date), date, id);
      if ShouldServiceRun(last, date, IsWeekendDay(date)) {
        CountRepeat(MakeSlot(last, date), Copies(last.minStaffRequired), date, id);
      }
    }
  }

  lemma {:induction false} SlotsThroughCount(services: seq<Service>, first: Day, last: Day, date: Day, id: int)
    ensures CountSlots(SlotsThrough(services, first, last), date, id)
         == if first <= date <= last then CountSlots(DaySlots(services, date), date, id) else 0
    decreases last - first
  {
    if first <= last {
      SlotsThroughCount(services, first, last - 1, date, id);
      CountSlotsAppend(SlotsThrough(services, first, last - 1), DaySlots(services, last), date, id);
      if last != date {
        DaySlotsShape(services, last);
        CountOtherDate(DaySlots(services, last), date, id);
      }
    }
  }

  lemma {:induction false} CountOtherDate(slots: seq<Slot>, date: Day, id: int)
    requires forall s :: s in slots ==> s.date != date
    ensures CountSlots(slots, date, id) == 0
    decreases |slots|
  {
    if slots != [] {
      CountOtherDate(slots[..|slots| - 1], date, id);
    }
  }

  /** A service with a unique id contributes exactly `minStaffRequired` slots
      on each date of the period it applies on, and none on the other dates. */
  lemma RequiredSlotsPerService(period: SchedulePeriod, services: seq<Service>, service: Service, date: Day)
    requires service in services
    requires DistinctIds(services)
    ensures CountSlots(RequiredSlots(period, services), date, service.id)
         == if period.startDate <= date <= period.endDate && Applies(service, date)
            then Copies(service.minStaffRequired) else 0
  {
    SlotsThroughCount(services, period.startDate, period.endDate, date, service.id);
    DaySlotsCount(services, date, service);
  }

  function PriorityKey(s: Slot): real
  {
    s.priority as real
  }

  /** Sorts the slots in place, highest priority first. */
  method PrioritizeSlots(slots: array<Slot>)
    modifies slots
    ensures slots[..] == SortDesc(old(slots[..]), PriorityKey)
  {
    SortInPlace(slots, PriorityKey);
  }

  /** The slots of priority `p`, in order. */
  function WithPriority(slots: seq<Slot>, p: int): seq<Slot>
  {
    KeyFilter(slots, PriorityKey, p as real)
  }

  /** The prioritised slots are a permutation of the generated ones, in
      non-increasing priority, and slots of equal priority keep their
      generation order. */
  lemma PrioritizedSlotsOrder(slots: seq<Slot>)
    ensures multiset(SortDesc(slots, PriorityKey)) == multiset(slots)
    ensures forall i, j :: 0 <= i < j < |SortDesc(slots, PriorityKey)| ==>
              SortDesc(slots, PriorityKey)[i].priority >= SortDesc(slots, PriorityKey)[j].priority
    ensures forall p :: WithPriority(SortDesc(slots, PriorityKey), p) == WithPriority(slots, p)
  {
    SortDescCorrect(slots, PriorityKey);
    var r := SortDesc(slots, PriorityKey);
    forall i, j | 0 <= i < j < |r| ensures r[i].priority >= r[j].priority {
      assert PriorityKey(r[i]) >= PriorityKey(r[j]);
    }
  }
}
