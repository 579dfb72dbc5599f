/** The same-day correction as the collector writes it: the slot request for
    today interpolates a `Date` object into the request path
    (collector/collector.js:294-299), so the path segment is the date's
    default string form, not the `YYYY-MM-DD` form the slot call's own
    documentation asks for. The engine and the county runner run with
    `DateObjectPath` as written and with `IsoPath` as intended. */
module SameDayRequest {
  import opened Options
  import opened Seqs
  import opened Text
  import opened CivilDates
  import opened Discovery
  import opened LocationSearch
  import opened CountyRunner

  /** The as-written request never names a calendar day the way every other
      slot request does. */
  lemma AsWrittenSegmentIsNeverADay(first: Date)
    ensures ParseIsoDate(SameDaySegment(DateObjectPath, first)) == None
    ensures forall e: Date :: SameDaySegment(DateObjectPath, first) != IsoDate(e)
  {
    forall e: Date ensures DateObjectString(first) != IsoDate(e) {
      DateObjectStringIsNotIso(first, e);
    }
  }

  const AfternoonSlot := [Slot("15:00:00")]

  /** A location where day `t` is available for both doses, a slot at
      15:00:00 is left, it is 11:00:00 on day `t`, and the slot endpoint
      answers only for a path that names a day (any other path is an error
      status, so the call throws). */
  function StrictEnv(t: Date): Env {
    Env(Remote((id: string, q: Query) => Some([Day(t, true)]),
               (id: string, segment: string, dose: int, vd: string) =>
                 if ParseIsoDate(segment).Some? then Some(AfternoonSlot) else None),
        Clock(t, (tz: string) => Some(t), (tz: string) => "11:00:00"))
  }

  /** As written, the same-day request fails, so the whole location reports
      nothing although today still has a bookable slot. */
  lemma AsWrittenEngineReportsNothing(t: Date, locationId: string, timezone: string, vaccineData: string,
                                      interval: nat)
    ensures ReviseDose1(DateObjectPath, t, locationId, timezone, [Day(t, true)], vaccineData, StrictEnv(t)) == None
    ensures Engine(DateObjectPath, vaccineData, locationId, timezone, interval, StrictEnv(t)) == NoAvailability
  {
    var days := [Day(t, true)];
    FilterKeepsAll(days, IsAvailable);
    assert KeepAvailable(days) == days;
    assert ReviseDose1(DateObjectPath, t, locationId, timezone, days, vaccineData, StrictEnv(t)) == None;
    assert Dose1WithSlots(DateObjectPath, vaccineData, locationId, timezone, StrictEnv(t)) == None;
  }

  /** With the day named `YYYY-MM-DD`, the same inputs keep today and report
      it for both doses with its slot. */
  lemma CorrectedEngineKeepsToday(t: Date, locationId: string, timezone: string, vaccineData: string,
                                  interval: nat)
    requires t.year <= 9999
    ensures ReviseDose1(IsoPath, t, locationId, timezone, [Day(t, true)], vaccineData, StrictEnv(t))
            == Some([Day(t, true)])
    ensures Engine(IsoPath, vaccineData, locationId, timezone, interval, StrictEnv(t)).dose1
            == [DoseAvailability(t, AfternoonSlot)]
    ensures Engine(IsoPath, vaccineData, locationId, timezone, interval, StrictEnv(t)).dose2
            == [DoseAvailability(t, AfternoonSlot)]
  {
    var env := StrictEnv(t);
    var days := [Day(t, true)];
    var w := [DoseAvailability(t, AfternoonSlot)];
    IsoDateParses(t);
    assert !Expired(AfternoonSlot, "11:00:00") by {
      assert LexLess("11:00:00", "15:00:00");
    }
    FilterKeepsAll(days, IsAvailable);
    assert KeepAvailable(days) == days;
    assert ReviseDose1(IsoPath, t, locationId, timezone, days, vaccineData, env) == Some(days);
    assert days[1..] == [];
    assert AttachSlots(locationId, days, 1, vaccineData, env) == Some([DoseAvailability(t, AfternoonSlot)] + []);
    assert [DoseAvailability(t, AfternoonSlot)] + [] == w;
    assert Dose1WithSlots(IsoPath, vaccineData, locationId, timezone, env) == Some(w);
    FilterKeepsAll(w, HasSlots);
    assert Anchor(w) == Some(t);
    assert AttachSlots(locationId, days, 2, vaccineData, env) == Some([DoseAvailability(t, AfternoonSlot)] + []);
    assert Dose2WithSlots(vaccineData, locationId, AddDays(t, interval), env) == Some(w);
    EngineSucceeds(IsoPath, vaccineData, locationId, timezone, interval, env, w, w);
  }

  /** For the county document: as written, a site with today still
      bookable for both doses is stored with `hasAvailabilities` false; with
      the day named `YYYY-MM-DD` it is stored as true. */
  lemma AsWrittenRunnerReportsFalse(t: Date, loc: Location)
    requires loc.siteType != ThirdPartyBooking && t.year <= 9999
    ensures ProcessLocation(DateObjectPath, loc, StrictEnv(t)).hasAvailabilities == Some(false)
    ensures ProcessLocation(IsoPath, loc, StrictEnv(t)).hasAvailabilities == Some(true)
  {
    var interval := DoseInterval(loc.name);
    AsWrittenEngineReportsNothing(t, loc.id, loc.timezone, loc.vaccineData, interval);
    CorrectedEngineKeepsToday(t, loc.id, loc.timezone, loc.vaccineData, interval);
  }

  /** The two forms on 2021-03-10 at a Los Angeles site. */
  lemma SameDayRequestCounterexample(t: Date)
    requires t == CivilDate(2021, 3, 10)
    ensures Engine(DateObjectPath, "token", "loc", "America/Los_Angeles", 21, StrictEnv(t)) == NoAvailability
    ensures Engine(IsoPath, "token", "loc", "America/Los_Angeles", 21, StrictEnv(t)).dose1 != []
  {
    AsWrittenEngineReportsNothing(t, "loc", "America/Los_Angeles", "token", 21);
    CorrectedEngineKeepsToday(t, "loc", "America/Los_Angeles", "token", 21);
  }
}
