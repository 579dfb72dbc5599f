/** Concrete runs of the discovery engine on the situations the collector's
    comments describe. */
module DiscoveryScenarios {
  import opened Options
  import opened Seqs
  import opened Text
  import opened CivilDates
  import opened Discovery

  const Mar09: Date := CivilDate(2021, 3, 9)
  const Mar10: Date := CivilDate(2021, 3, 10)
  const Mar12: Date := CivilDate(2021, 3, 12)
  const Mar31: Date := CivilDate(2021, 3, 31)

  /** Only today is available, its slots end at 10:00:00 and it is 11:00:00:
      today is dropped and the location reports nothing. */
  lemma TodayExpiredGivesNothing()
    ensures Engine(IsoPath, "token", "loc", "tz", 21,
              Env(Remote((id: string, q: Query) => Some([Day(Mar10, true)]),
                         (id: string, segment: string, dose: int, vd: string) =>
                           Some([Slot("09:00:00"), Slot("10:00:00")])),
                  Clock(Mar10, (tz: string) => Some(Mar10), (tz: string) => "11:00:00")))
            == NoAvailability
  {
    var env := Env(Remote((id: string, q: Query) => Some([Day(Mar10, true)]),
                          (id: string, segment: string, dose: int, vd: string) =>
                            Some([Slot("09:00:00"), Slot("10:00:00")])),
                   Clock(Mar10, (tz: string) => Some(Mar10), (tz: string) => "11:00:00"));
    assert KeepAvailable([Day(Mar10, true)]) == [Day(Mar10, true)];
    assert Expired([Slot("09:00:00"), Slot("10:00:00")], "11:00:00") by {
      assert !LexLess("11:00:00", "10:00:00");
    }
    assert Filter([Day(Mar10, true)], NotOn(Mar10)) == [];
    assert ReviseDose1(IsoPath, Mar10, "loc", "tz", [Day(Mar10, true)], "token", env) == Some([]);
  }

  const TenOClock := [Slot("10:00:00")]

  /** A location whose day-range answers always list days `a` and `b` as
      available, with slots `slotsOfA` on `a` and `slotsOfB` on any other
      day; today is `today` and it is 08:00:00. */
  function TwoDayEnv(a: Date, b: Date, today: Date, slotsOfA: seq<Slot>, slotsOfB: seq<Slot>): Env {
    Env(Remote((id: string, q: Query) => Some([Day(a, true), Day(b, true)]),
               (id: string, segment: string, dose: int, vd: string) =>
                 if segment == IsoDate(a) then Some(slotsOfA) else Some(slotsOfB)),
        Clock(today, (tz: string) => Some(today), (tz: string) => "08:00:00"))
  }

  /** Two available days, neither of them today: both are reported with
      their own slots, and the anchor is the first of them that has a slot. */
  lemma TwoDayRun(a: Date, b: Date, today: Date, slotsOfA: seq<Slot>, slotsOfB: seq<Slot>, interval: nat)
    requires a != today && IsoDate(b) != IsoDate(a) && |slotsOfB| > 0
    ensures var r := Engine(IsoPath, "token", "loc", "tz", interval, TwoDayEnv(a, b, today, slotsOfA, slotsOfB));
            && r.dose1 == [DoseAvailability(a, slotsOfA), DoseAvailability(b, slotsOfB)]
            && Anchor(r.dose1) == Some(if |slotsOfA| > 0 then a else b)
  {
    var env := TwoDayEnv(a, b, today, slotsOfA, slotsOfB);
    var days := [Day(a, true), Day(b, true)];
    var w := [DoseAvailability(a, slotsOfA), DoseAvailability(b, slotsOfB)];
    FilterKeepsAll(days, IsAvailable);
    assert ReviseDose1(IsoPath, a, "loc", "tz", days, "token", env) == Some(days);
    assert days[1..] == [Day(b, true)] && days[1..][1..] == [];
    assert env.remote.slots("loc", IsoDate(a), 1, "token") == Some(slotsOfA);
    assert env.remote.slots("loc", IsoDate(b), 1, "token") == Some(slotsOfB);
    assert AttachSlots("loc", days[1..][1..], 1, "token", env) == Some([]);
    assert AttachSlots("loc", days[1..], 1, "token", env) == Some([DoseAvailability(b, slotsOfB)] + []);
    assert [DoseAvailability(b, slotsOfB)] + [] == w[1..];
    assert AttachSlots("loc", days, 1, "token", env) == Some([DoseAvailability(a, slotsOfA)] + w[1..]);
    assert [DoseAvailability(a, slotsOfA)] + w[1..] == w;
    assert Dose1WithSlots(IsoPath, "token", "loc", "tz", env) == Some(w);
    assert w[1..] == [DoseAvailability(b, slotsOfB)];
    FilterKeepsAll(w[1..], HasSlots);
    var anchor := if |slotsOfA| > 0 then a else b;
    assert Anchor(w) == Some(anchor);
    var start := AddDays(anchor, interval);
    assert AttachSlots("loc", days[1..][1..], 2, "token", env) == Some([]);
    assert AttachSlots("loc", days[1..], 2, "token", env) == Some(w[1..]);
    assert AttachSlots("loc", days, 2, "token", env) == Some(w);
    assert Dose2WithSlots("token", "loc", start, env) == Some(w);
    EngineSucceeds(IsoPath, "token", "loc", "tz", interval, env, w, w);
  }

  /** Today is the 9th and the 10th and the 12th are open: no same-day
      correction applies and the anchor is the 10th. */
  lemma FirstOpenDayIsTheAnchor()
    ensures var r := Engine(IsoPath, "token", "loc", "tz", 21, TwoDayEnv(Mar10, Mar12, Mar09, TenOClock, TenOClock));
            && r.dose1 == [DoseAvailability(Mar10, TenOClock), DoseAvailability(Mar12, TenOClock)]
            && Anchor(r.dose1) == Some(Mar10)
  {
    assert IsoDate(Mar10) == "2021-03-10";
    assert IsoDate(Mar12) == "2021-03-12";
    TwoDayRun(Mar10, Mar12, Mar09, TenOClock, TenOClock, 21);
  }

  /** With the anchor on 2021-03-10 and 21 days between doses, the dose-2
      query starts on 2021-03-31 (its `startDate` is the ISO form of that
      day, by `CheckData`). */
  lemma SecondDoseStartsThreeWeeksLater()
    ensures AddDays(Mar10, 21) == Mar31
    ensures IsoDate(AddDays(Mar10, 21)) == "2021-03-31"
  {
    AddDaysInMonth(Mar10, 21);
    assert IsoDate(Mar31) == "2021-03-31";
  }

  /** A falsely available 10th without slots stays in the dose-1 output but
      is not the anchor: the dose-2 search starts from the 12th. */
  lemma ZeroSlotDayIsNotTheAnchor()
    ensures var r := Engine(IsoPath, "token", "loc", "tz", 21, TwoDayEnv(Mar10, Mar12, Mar09, [], TenOClock));
            && r.dose1 == [DoseAvailability(Mar10, []), DoseAvailability(Mar12, TenOClock)]
            && Anchor(r.dose1) == Some(Mar12)
  {
    assert IsoDate(Mar10) == "2021-03-10";
    assert IsoDate(Mar12) == "2021-03-12";
    TwoDayRun(Mar10, Mar12, Mar09, [], TenOClock, 21);
  }
}
