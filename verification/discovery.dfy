/** The availability discovery engine of one location
    (`myTurnAvailabilityCheckForLocation` and `revisedDose1Availabilities`).
    Every remote call is an answer supplied by `Remote` (`None` when the call
    throws) and every clock reading comes from `Clock`, so the engine is a
    function of its inputs. */
module Discovery {
  import opened Options
  import opened Seqs
  import opened Text
  import opened CivilDates
  import opened LocalTimes

  /** A day of a day-range answer: its date and the `available` claim. */
  datatype Day = Day(date: Date, available: bool)

  /** A bookable time, `HH:MM:SS` in the location's time zone. */
  datatype Slot = Slot(localStartTime: string)

  /** A date with the slots the slot endpoint returned for it. */
  datatype DoseAvailability = DoseAvailability(date: Date, slots: seq<Slot>)

  datatype Availability = Availability(dose1: seq<DoseAvailability>, dose2: seq<DoseAvailability>)

  /** The result of every early exit and of every error. */
  const NoAvailability := Availability([], [])

  /** The body of a day-range request (`checkData`). */
  datatype Query = Query(vaccineData: string, startDate: string, endDate: string, doseNumber: int)

  /** The remote endpoints, as the answers they give:
      `availability(locationId, query)` for a day-range request, and
      `slots(locationId, dateSegment, doseNumber, vaccineData)` for the slots
      of the day written in the request path. */
  datatype Remote = Remote(
    availability: (string, Query) -> Option<seq<Day>>,
    slots: (string, string, int, string) -> Option<seq<Slot>>)

  /** The clock: the run's date (UTC), and today's date and the current
      `HH:MM:SS` time in a given IANA time zone. `todayIn` is `None` for a
      zone the runtime does not know, where `toLocaleString` throws. */
  datatype Clock = Clock(utcDate: Date, todayIn: string -> Option<Date>, timeIn: string -> string)

  /** How the same-day slot request names the day in its path: as
      `YYYY-MM-DD`, like every other slot request, or as the default string
      form of a `Date` object, which is what collector/collector.js:294-299
      passes. */
  datatype SameDayPath = IsoPath | DateObjectPath

  /** The path segment naming `d`: only the `YYYY-MM-DD` form reads as a day. */
  function SameDaySegment(path: SameDayPath, d: Date): (segment: string)
    ensures path.IsoPath? && d.year <= 9999 ==> ParseIsoDate(segment) == Some(d)
    ensures path.DateObjectPath? ==> ParseIsoDate(segment) == None
  {
    assert d.year <= 9999 ==> ParseIsoDate(IsoDate(d)) == Some(d) by {
      if d.year <= 9999 { IsoDateParses(d); }
    }
    DateObjectStringIsNotIso(d, d);
    match path
    case IsoPath => IsoDate(d)
    case DateObjectPath => DateObjectString(d)
  }

  datatype Env = Env(remote: Remote, clock: Clock)

  /** The request for `[date, date + 2 months)`, dates written `YYYY-MM-DD`. */
  function CheckData(vaccineData: string, date: Date, doseNumber: int): (q: Query)
    ensures q.vaccineData == vaccineData && q.doseNumber == doseNumber
    ensures date.year <= 9999 ==> ParseIsoDate(q.startDate) == Some(date)
    ensures date.year < 9999 ==>
      && ParseIsoDate(q.endDate) == Some(AddMonths(date, 2))
      && DayNumber(date) + 59 <= DayNumber(ParseIsoDate(q.endDate).value) <= DayNumber(date) + 62
  {
    var end := AddMonths(date, 2);
    assert date.year <= 9999 ==> ParseIsoDate(IsoDate(date)) == Some(date) by {
      if date.year <= 9999 { IsoDateParses(date); }
    }
    assert date.year < 9999 ==> ParseIsoDate(IsoDate(end)) == Some(end) by {
      if date.year < 9999 {
        AddTwoMonthsDay(date);
        IsoDateParses(end);
      }
    }
    TwoMonthSpan(date);
    Query(vaccineData, IsoDate(date), IsoDate(end), doseNumber)
  }

  predicate IsAvailable(d: Day) {
    d.available
  }

  /** `availability.filter((a) => a.available)`. */
  function KeepAvailable(days: seq<Day>): seq<Day> {
    Filter(days, IsAvailable)
  }

  /** The dose-1 candidates are exactly the available days, in input order. */
  lemma KeepAvailableSpec(days: seq<Day>)
    ensures IsSubsequence(KeepAvailable(days), days)
    ensures forall d :: multiset(KeepAvailable(days))[d] == if d.available then multiset(days)[d] else 0
    ensures KeepAvailable(days) == [] <==> forall i :: 0 <= i < |days| ==> !days[i].available
  {
    FilterIsSubsequence(days, IsAvailable);
    forall d ensures multiset(KeepAvailable(days))[d] == if d.available then multiset(days)[d] else 0 {
      FilterCount(days, IsAvailable, d);
    }
    FilterEmpty(days, IsAvailable);
  }

  /** A day's slots no longer allow a booking: there are none, or the last
      one does not start strictly after the current time. */
  predicate Expired(slots: seq<Slot>, now: string) {
    |slots| == 0 || !LexLess(now, slots[|slots| - 1].localStartTime)
  }

  /** For well-formed times, `Expired` says the last slot's start is not
      later than now. */
  lemma ExpiredMeansLastSlotPassed(slots: seq<Slot>, now: TimeOfDay, last: TimeOfDay)
    requires IsValidTime(now) && IsValidTime(last)
    requires |slots| > 0 && slots[|slots| - 1].localStartTime == FormatTime(last)
    ensures Expired(slots, FormatTime(now)) <==> SecondsOfDay(last) <= SecondsOfDay(now)
  {
    FormatTimeOrder(now, last);
  }

  function NotOn(date: Date): Day -> bool {
    (d: Day) => d.date != date
  }

  /** The same-day correction: when the first candidate date is today in the
      location's time zone, ask for that day's dose-1 slots and drop every
      entry of that date if they are expired. `None` when the time zone is
      unknown or the slot call throws. `path` says how the request names
      the day. */
  function ReviseDose1(path: SameDayPath, first: Date, locationId: string, timezone: string, days: seq<Day>,
                       vaccineData: string, env: Env): Option<seq<Day>>
  {
    match env.clock.todayIn(timezone)
    case None => None
    case Some(today) =>
      if first != today then Some(days)
      else
        match env.remote.slots(locationId, SameDaySegment(path, first), 1, vaccineData)
        case None => None
        case Some(slots) =>
          if Expired(slots, env.clock.timeIn(timezone)) then Some(Filter(days, NotOn(first)))
          else Some(days)
  }

  /** The correction keeps the list unchanged unless the first date is today
      and its slots are expired; then it removes exactly the entries of that
      date, keeping the order of the rest. It fails exactly when the time
      zone is unknown or the slot call for today fails. */
  lemma ReviseDose1Spec(path: SameDayPath, first: Date, locationId: string, timezone: string, days: seq<Day>,
                        vaccineData: string, env: Env)
    ensures var r := ReviseDose1(path, first, locationId, timezone, days, vaccineData, env);
            var zoneToday := env.clock.todayIn(timezone);
            var isToday := zoneToday == Some(first);
            var answer := env.remote.slots(locationId, SameDaySegment(path, first), 1, vaccineData);
            var removed := isToday && answer.Some? && Expired(answer.value, env.clock.timeIn(timezone));
            && (zoneToday.Some? && !isToday ==> r == Some(days))
            && (r.None? <==> zoneToday.None? || (isToday && answer.None?))
            && (r.Some? ==> IsSubsequence(r.value, days))
            && (r.Some? ==> forall d :: multiset(r.value)[d] ==
                                        if removed && d.date == first then 0 else multiset(days)[d])
  {
    var r := ReviseDose1(path, first, locationId, timezone, days, vaccineData, env);
    var isToday := env.clock.todayIn(timezone) == Some(first);
    var answer := env.remote.slots(locationId, SameDaySegment(path, first), 1, vaccineData);
    var removed := isToday && answer.Some? && Expired(answer.value, env.clock.timeIn(timezone));
    if removed {
      FilterIsSubsequence(days, NotOn(first));
      forall d ensures multiset(r.value)[d] == if d.date == first then 0 else multiset(days)[d] {
        FilterCount(days, NotOn(first), d);
      }
    } else if r.Some? {
      SubsequenceRefl(days);
    }
  }

  lemma {:induction false} SubsequenceRefl<T>(s: seq<T>)
    ensures IsSubsequence(s, s)
    decreases |s|
  {
    if s != [] { SubsequenceRefl(s[1..]); }
  }

  /** `days.map(...)` with a slot request per day, joined by `Promise.all`:
      `None` as soon as one request throws. */
  function AttachSlots(locationId: string, days: seq<Day>, doseNumber: int, vaccineData: string,
                       env: Env): (r: Option<seq<DoseAvailability>>)
    ensures r.Some? <==> forall i :: 0 <= i < |days| ==>
              env.remote.slots(locationId, IsoDate(days[i].date), doseNumber, vaccineData).Some?
    ensures r.Some? ==> Materializes(r.value, days, locationId, doseNumber, vaccineData, env)
  {
    if days == [] then Some([])
    else
      match env.remote.slots(locationId, IsoDate(days[0].date), doseNumber, vaccineData)
      case None => None
      case Some(slots) =>
        match AttachSlots(locationId, days[1..], doseNumber, vaccineData, env)
        case None => None
        case Some(rest) => Some([DoseAvailability(days[0].date, slots)] + rest)
  }

  /** `w` pairs every day of `days`, in order, with the slots the slot
      endpoint returned for it. */
  predicate Materializes(w: seq<DoseAvailability>, days: seq<Day>, locationId: string, doseNumber: int,
                         vaccineData: string, env: Env)
  {
    && |w| == |days|
    && forall i :: 0 <= i < |w| ==>
         && w[i].date == days[i].date
         && env.remote.slots(locationId, IsoDate(days[i].date), doseNumber, vaccineData) == Some(w[i].slots)
  }

  predicate HasSlots(w: DoseAvailability) {
    |w.slots| > 0
  }

  /** The first date with at least one slot: the dose-2 anchor. */
  function Anchor(w: seq<DoseAvailability>): (r: Option<Date>)
    ensures r.Some? <==> exists i :: 0 <= i < |w| && HasSlots(w[i])
    ensures r.Some? ==> exists i :: 0 <= i < |w| && w[i].date == r.value && HasSlots(w[i]) &&
                                    forall j :: 0 <= j < i ==> !HasSlots(w[j])
  {
    var withSlots := Filter(w, HasSlots);
    FilterEmpty(w, HasSlots);
    if withSlots == [] then None
    else
      FilterFirst(w, HasSlots);
      Some(withSlots[0].date)
  }

  /** Stages 1 to 5: the dose-1 query from the run's date, the available
      days, the same-day correction, and the slots of every surviving day.
      `None` on an early exit or an error. */
  function Dose1WithSlots(path: SameDayPath, vaccineData: string, locationId: string, timezone: string, env: Env)
    : (r: Option<seq<DoseAvailability>>)
    ensures r.Some? ==> r.value != []
  {
    match env.remote.availability(locationId, CheckData(vaccineData, env.clock.utcDate, 1))
    case None => None
    case Some(days) =>
      var candidates := KeepAvailable(days);
      if candidates == [] then None
      else
        match ReviseDose1(path, candidates[0].date, locationId, timezone, candidates, vaccineData, env)
        case None => None
        case Some(actual) =>
          if actual == [] then None else AttachSlots(locationId, actual, 1, vaccineData, env)
  }

  /** Stage 7: the dose-2 query from `start` and the slots of every available day. */
  function Dose2WithSlots(vaccineData: string, locationId: string, start: Date, env: Env)
    : Option<seq<DoseAvailability>>
  {
    match env.remote.availability(locationId, CheckData(vaccineData, start, 2))
    case None => None
    case Some(days) => AttachSlots(locationId, KeepAvailable(days), 2, vaccineData, env)
  }

  /** The engine for one location, with the dose interval in days. */
  function Engine(path: SameDayPath, vaccineData: string, locationId: string, timezone: string, interval: nat, env: Env)
    : (r: Availability)
    ensures r.dose1 == [] ==> r.dose2 == []
    ensures r.dose1 != [] ==> exists i :: 0 <= i < |r.dose1| && HasSlots(r.dose1[i])
  {
    match Dose1WithSlots(path, vaccineData, locationId, timezone, env)
    case None => NoAvailability
    case Some(w1) =>
      match Anchor(w1)
      case None => NoAvailability
      case Some(anchor) =>
        match Dose2WithSlots(vaccineData, locationId, AddDays(anchor, interval), env)
        case None => NoAvailability
        case Some(w2) => Availability(w1, w2)
  }

  /** Every early exit and every failed call gives empty lists for both doses:
      no dose-1 answer, no available day, an unknown time zone, a failed
      same-day check, nothing left after the correction, a failed dose-1
      slot call, no dose-1 date with a slot, no dose-2 answer, a failed
      dose-2 slot call. */
  lemma EngineEarlyExits(path: SameDayPath, vaccineData: string, locationId: string, timezone: string, interval: nat, env: Env)
    ensures var r := Engine(path, vaccineData, locationId, timezone, interval, env);
            var answer := env.remote.availability(locationId, CheckData(vaccineData, env.clock.utcDate, 1));
            && (answer.None? ==> r == NoAvailability)
            && (answer.Some? && (forall i :: 0 <= i < |answer.value| ==> !answer.value[i].available) ==> r == NoAvailability)
            && (answer.Some? && KeepAvailable(answer.value) != [] && env.clock.todayIn(timezone).None? ==>
                  r == NoAvailability)
            && (answer.Some? && KeepAvailable(answer.value) != [] ==>
                  var candidates := KeepAvailable(answer.value);
                  var revised := ReviseDose1(path, candidates[0].date, locationId, timezone, candidates, vaccineData, env);
                  && (revised.None? ==> r == NoAvailability)
                  && (revised == Some([]) ==> r == NoAvailability)
                  && (revised.Some? &&
                      (exists i :: 0 <= i < |revised.value| &&
                                   env.remote.slots(locationId, IsoDate(revised.value[i].date), 1, vaccineData).None?)
                      ==> r == NoAvailability))
            && (Dose1WithSlots(path, vaccineData, locationId, timezone, env).Some? ==>
                  var w1 := Dose1WithSlots(path, vaccineData, locationId, timezone, env).value;
                  && ((forall i :: 0 <= i < |w1| ==> !HasSlots(w1[i])) ==> r == NoAvailability)
                  && (Anchor(w1).Some? &&
                      Dose2WithSlots(vaccineData, locationId, AddDays(Anchor(w1).value, interval), env).None?
                      ==> r == NoAvailability))
  {
    var answer := env.remote.availability(locationId, CheckData(vaccineData, env.clock.utcDate, 1));
    if answer.Some? {
      KeepAvailableSpec(answer.value);
    }
  }

  /** The dose-2 list fails when its answer fails or any of its slot calls does. */
  lemma Dose2Failures(vaccineData: string, locationId: string, start: Date, env: Env)
    ensures var answer := env.remote.availability(locationId, CheckData(vaccineData, start, 2));
            var r := Dose2WithSlots(vaccineData, locationId, start, env);
            && (answer.None? ==> r.None?)
            && (answer.Some? &&
                (exists i :: 0 <= i < |KeepAvailable(answer.value)| &&
                             env.remote.slots(locationId, IsoDate(KeepAvailable(answer.value)[i].date), 2, vaccineData).None?)
                ==> r.None?)
  {
  }

  /** A non-empty dose-1 output is the corrected list of available days of the
      dose-1 answer, every date kept (also those without slots) and paired
      with its own dose-1 slots. */
  lemma EngineDose1(path: SameDayPath, vaccineData: string, locationId: string, timezone: string, interval: nat, env: Env)
    ensures var r := Engine(path, vaccineData, locationId, timezone, interval, env);
            var answer := env.remote.availability(locationId, CheckData(vaccineData, env.clock.utcDate, 1));
            r.dose1 != [] ==>
              && answer.Some?
              && var candidates := KeepAvailable(answer.value);
              && candidates != []
              && var revised := ReviseDose1(path, candidates[0].date, locationId, timezone, candidates, vaccineData, env);
              && revised.Some?
              && Materializes(r.dose1, revised.value, locationId, 1, vaccineData, env)
  {
  }

  /** When there is a dose-1 output, the dose-2 search starts `interval`
      calendar days after the first dose-1 date with a slot, and the dose-2
      output pairs every available day of that answer with its dose-2 slots. */
  lemma EngineDose2(path: SameDayPath, vaccineData: string, locationId: string, timezone: string, interval: nat, env: Env)
    ensures var r := Engine(path, vaccineData, locationId, timezone, interval, env);
            r.dose1 != [] ==>
              && Anchor(r.dose1).Some?
              && var start := AddDays(Anchor(r.dose1).value, interval);
              && DayNumber(start) == DayNumber(Anchor(r.dose1).value) + interval
              && (forall e: Date :: DayNumber(e) == DayNumber(Anchor(r.dose1).value) + interval ==> e == start)
              && var answer := env.remote.availability(locationId, CheckData(vaccineData, start, 2));
              && answer.Some?
              && Materializes(r.dose2, KeepAvailable(answer.value), locationId, 2, vaccineData, env)
  {
    var r := Engine(path, vaccineData, locationId, timezone, interval, env);
    if r.dose1 != [] {
      var start := AddDays(Anchor(r.dose1).value, interval);
      AddDaysNumber(Anchor(r.dose1).value, interval);
      forall e: Date | DayNumber(e) == DayNumber(start) ensures e == start {
        DayNumberInjective(e, start);
      }
    }
  }

  /** When every stage succeeds and some dose-1 date has a slot, the engine
      returns both materialized lists. */
  lemma EngineSucceeds(path: SameDayPath, vaccineData: string, locationId: string, timezone: string, interval: nat, env: Env,
                       w1: seq<DoseAvailability>, w2: seq<DoseAvailability>)
    requires Dose1WithSlots(path, vaccineData, locationId, timezone, env) == Some(w1)
    requires exists i :: 0 <= i < |w1| && HasSlots(w1[i])
    requires Dose2WithSlots(vaccineData, locationId, AddDays(Anchor(w1).value, interval), env) == Some(w2)
    ensures Engine(path, vaccineData, locationId, timezone, interval, env) == Availability(w1, w2)
  {
  }

  /** A day kept by the filter was in the answer and available. */
  lemma KeptDayWasAvailable(answer: seq<Day>, d: Day)
    requires d in KeepAvailable(answer)
    ensures exists j :: 0 <= j < |answer| && answer[j].available && answer[j].date == d.date
  {
    FilterMember(answer, IsAvailable, d);
    var j :| 0 <= j < |answer| && answer[j] == d;
  }

  /** Every reported dose-1 date was claimed available by the dose-1 answer. */
  lemma EngineDose1DatesWereAvailable(path: SameDayPath, vaccineData: string, locationId: string, timezone: string, interval: nat,
                                      env: Env)
    ensures var r := Engine(path, vaccineData, locationId, timezone, interval, env);
            var answer := env.remote.availability(locationId, CheckData(vaccineData, env.clock.utcDate, 1));
            r.dose1 != [] ==>
              && answer.Some?
              && forall i :: 0 <= i < |r.dose1| ==>
                   exists j :: 0 <= j < |answer.value| && answer.value[j].available &&
                               answer.value[j].date == r.dose1[i].date
  {
    var r := Engine(path, vaccineData, locationId, timezone, interval, env);
    if r.dose1 != [] {
      EngineDose1(path, vaccineData, locationId, timezone, interval, env);
      var answer := env.remote.availability(locationId, CheckData(vaccineData, env.clock.utcDate, 1)).value;
      var candidates := KeepAvailable(answer);
      var actual := ReviseDose1(path, candidates[0].date, locationId, timezone, candidates, vaccineData, env).value;
      ReviseDose1Spec(path, candidates[0].date, locationId, timezone, candidates, vaccineData, env);
      forall i | 0 <= i < |r.dose1|
        ensures exists j :: 0 <= j < |answer| && answer[j].available && answer[j].date == r.dose1[i].date
      {
        var d := actual[i];
        assert multiset(actual)[d] > 0;
        assert d in candidates;
        KeptDayWasAvailable(answer, d);
      }
    }
  }

  /** Every reported dose-2 date was claimed available by the dose-2 answer. */
  lemma EngineDose2DatesWereAvailable(path: SameDayPath, vaccineData: string, locationId: string, timezone: string, interval: nat,
                                      env: Env)
    ensures var r := Engine(path, vaccineData, locationId, timezone, interval, env);
            r.dose1 != [] ==>
              && Anchor(r.dose1).Some?
              && var answer := env.remote.availability(locationId,
                                 CheckData(vaccineData, AddDays(Anchor(r.dose1).value, interval), 2));
              && answer.Some?
              && forall i :: 0 <= i < |r.dose2| ==>
                   exists j :: 0 <= j < |answer.value| && answer.value[j].available &&
                               answer.value[j].date == r.dose2[i].date
  {
    var r := Engine(path, vaccineData, locationId, timezone, interval, env);
    if r.dose1 != [] {
      EngineDose2(path, vaccineData, locationId, timezone, interval, env);
      var answer := env.remote.availability(locationId,
                       CheckData(vaccineData, AddDays(Anchor(r.dose1).value, interval), 2)).value;
      forall i | 0 <= i < |r.dose2|
        ensures exists j :: 0 <= j < |answer| && answer[j].available && answer[j].date == r.dose2[i].date
      {
        KeptDayWasAvailable(answer, KeepAvailable(answer)[i]);
      }
    }
  }
}
