/** The per-county run of the collector (`getCountyData` and the per-county
    part of `handler`): every location found for the county is classified
    and, unless it books through a third party, run through the discovery
    engine; the county document is then stored under a file name derived
    from the county name. */
module CountyRunner {
  import opened Options
  import opened Seqs
  import opened Text
  import opened LocationSearch
  import opened CivilDates
  import opened Discovery

  const ThirdPartyBooking := "ThirdPartyBooking"

  const ThirdPartyNote := "Unable to fetch availabilities. Visit external provider website for more information."

  /** The days between doses: 28 when the location's name mentions Moderna
      in any letter case, otherwise 21. */
  function DoseInterval(name: string): (days: nat)
    ensures days == 28 || days == 21
    ensures days == 28 <==> Contains(ToLower(name), "moderna")
  {
    if Contains(ToLower(name), "moderna") then 28 else 21
  }

  /** A name that contains "Moderna" written in any letter case gets 28 days. */
  lemma ModernaNameGives28(name: string, written: string)
    requires Contains(name, written) && ToLower(written) == "moderna"
    ensures DoseInterval(name) == 28
  {
    ContainsLowered(name, written);
  }

  /** A location with its availability, as stored in the county document;
      `hasAvailabilities` is `null` (`None`) for third-party sites. */
  datatype LocationResult = LocationResult(
    location: Location,
    availability: Availability,
    hasAvailabilities: Option<bool>,
    notes: Option<string>)

  /** The result for one location. `path` is how the same-day slot request
      names today: the collector as written runs `DateObjectPath`. */
  function ProcessLocation(path: SameDayPath, loc: Location, env: Env): (r: LocationResult)
    ensures r.location == loc
    ensures loc.siteType == ThirdPartyBooking ==>
              r.availability == NoAvailability && r.hasAvailabilities == None && r.notes.Some?
    ensures loc.siteType != ThirdPartyBooking ==>
              && r.notes == None
              && r.availability == Engine(path, loc.vaccineData, loc.id, loc.timezone, DoseInterval(loc.name), env)
              && r.hasAvailabilities == Some(r.availability.dose1 != [] && r.availability.dose2 != [])
  {
    if loc.siteType == ThirdPartyBooking then
      LocationResult(loc, NoAvailability, None, Some(ThirdPartyNote))
    else
      var availability := Engine(path, loc.vaccineData, loc.id, loc.timezone, DoseInterval(loc.name), env);
      LocationResult(loc, availability, Some(availability.dose1 != [] && availability.dose2 != []), None)
  }

  /** A third-party site's result does not depend on anything the remote
      system or the clock would say: the engine is not consulted. */
  lemma ThirdPartyIgnoresRemote(path: SameDayPath, path': SameDayPath, loc: Location, env: Env, env': Env)
    requires loc.siteType == ThirdPartyBooking
    ensures ProcessLocation(path, loc, env) == ProcessLocation(path', loc, env')
  {
  }

  /** `hasAvailabilities` is true exactly when both dose lists are non-empty,
      and then some dose-1 date has a slot. */
  lemma HasAvailabilitiesMeaning(path: SameDayPath, loc: Location, env: Env)
    ensures var r := ProcessLocation(path, loc, env);
            && (r.hasAvailabilities == Some(true) <==>
                  loc.siteType != ThirdPartyBooking && r.availability.dose1 != [] && r.availability.dose2 != [])
            && (r.hasAvailabilities == Some(true) ==>
                  exists i :: 0 <= i < |r.availability.dose1| && HasSlots(r.availability.dose1[i]))
            && (r.hasAvailabilities == Some(false) ==>
                  loc.siteType != ThirdPartyBooking && (r.availability.dose1 == [] || r.availability.dose2 == []))
  {
  }

  /** A location where every day is open for dose 1 with a slot, but every
      dose-2 day comes back without slots. */
  function NoDose2SlotEnv(day: Date, today: Date): Env {
    Env(Remote((id: string, q: Query) => Some([Day(day, true)]),
               (id: string, segment: string, dose: int, vd: string) =>
                 if dose == 1 then Some([Slot("10:00:00")]) else Some([])),
        Clock(today, (tz: string) => Some(today), (tz: string) => "08:00:00"))
  }

  /** `hasAvailabilities` only asks for non-empty lists: it is true even
      when no dose-2 date has a single slot. */
  lemma HasAvailabilitiesWithoutDose2Slot(path: SameDayPath, loc: Location, day: Date, today: Date)
    requires loc.siteType != ThirdPartyBooking && day != today
    ensures var r := ProcessLocation(path, loc, NoDose2SlotEnv(day, today));
            && r.hasAvailabilities == Some(true)
            && forall i :: 0 <= i < |r.availability.dose2| ==> !HasSlots(r.availability.dose2[i])
  {
    var env := NoDose2SlotEnv(day, today);
    var days := [Day(day, true)];
    var ten := [Slot("10:00:00")];
    var interval := DoseInterval(loc.name);
    FilterKeepsAll(days, IsAvailable);
    assert ReviseDose1(path, day, loc.id, loc.timezone, days, loc.vaccineData, env) == Some(days);
    assert days[1..] == [];
    assert AttachSlots(loc.id, days, 1, loc.vaccineData, env) == Some([DoseAvailability(day, ten)] + []);
    var w1 := [DoseAvailability(day, ten)];
    assert [DoseAvailability(day, ten)] + [] == w1;
    assert Dose1WithSlots(path, loc.vaccineData, loc.id, loc.timezone, env) == Some(w1);
    FilterKeepsAll(w1, HasSlots);
    assert Anchor(w1) == Some(day);
    var w2 := [DoseAvailability(day, [])];
    assert AttachSlots(loc.id, days, 2, loc.vaccineData, env) == Some([DoseAvailability(day, [])] + []);
    assert [DoseAvailability(day, [])] + [] == w2;
    assert Dose2WithSlots(loc.vaccineData, loc.id, AddDays(day, interval), env) == Some(w2);
    EngineSucceeds(path, loc.vaccineData, loc.id, loc.timezone, interval, env, w1, w2);
  }

  /** The county document: the collection time and one result per location,
      in the order of the search result. */
  datatype CountyData = CountyData(collectionTime: string, locations: seq<LocationResult>)

  /** `getCountyData`: `None` (the source's `null`) when the search failed;
      every location is processed with the same path form. */
  function GetCountyData(path: SameDayPath, locations: Option<seq<Location>>, env: Env, collectionTime: string)
    : (r: Option<CountyData>)
    ensures r.None? <==> locations.None?
    ensures r.Some? ==>
              && r.value.collectionTime == collectionTime
              && |r.value.locations| == |locations.value|
              && forall i :: 0 <= i < |locations.value| ==>
                   r.value.locations[i] == ProcessLocation(path, locations.value[i], env)
  {
    match locations
    case None => None
    case Some(ls) =>
      Some(CountyData(collectionTime, seq(|ls|, i requires 0 <= i < |ls| => ProcessLocation(path, ls[i], env))))
  }

  /** The county file name: the name lower-cased, every white space removed,
      then ".json". */
  function CountyFilename(countyName: string): string {
    RemoveWhitespace(ToLower(countyName)) + ".json"
  }

  /** The stem keeps exactly the non-blank characters, in order. */
  lemma StemSpec(s: string)
    ensures IsSubsequence(RemoveWhitespace(s), s)
    ensures forall c :: multiset(RemoveWhitespace(s))[c] == if IsJsWhitespace(c) then 0 else multiset(s)[c]
    ensures forall i :: 0 <= i < |RemoveWhitespace(s)| ==> NotWhitespace(RemoveWhitespace(s)[i])
  {
    var stem := RemoveWhitespace(s);
    FilterIsSubsequence(s, NotWhitespace);
    forall c ensures multiset(stem)[c] == if IsJsWhitespace(c) then 0 else multiset(s)[c] {
      FilterCount(s, NotWhitespace, c);
    }
    forall i | 0 <= i < |stem| ensures NotWhitespace(stem[i]) {
      FilterMember(s, NotWhitespace, stem[i]);
    }
  }

  /** A county file as uploaded: its storage key and its one-member
      document `{ countyName: data }`. */
  datatype CountyFile = CountyFile(key: string, countyName: string, data: CountyData)

  /** The upload for one county: nothing when the location search failed,
      otherwise the document under "counties/" and the derived file name. */
  function CountyUpload(countyName: string, data: Option<CountyData>): (r: Option<CountyFile>)
    ensures r.None? <==> data.None?
    ensures r.Some? ==>
              && r.value.countyName == countyName
              && r.value.data == data.value
              && r.value.key == "counties/" + CountyFilename(countyName)
              && |r.value.key| >= 14
              && r.value.key[..9] == "counties/"
              && r.value.key[|r.value.key| - 5..] == ".json"
  {
    match data
    case None => None
    case Some(d) => Some(CountyFile("counties/" + CountyFilename(countyName), countyName, d))
  }

  /** Two county names that differ only in letter case or white space are
      stored under the same key, so the later upload replaces the earlier. */
  lemma SameStemSameKey(a: string, b: string, data: CountyData, data': CountyData)
    requires RemoveWhitespace(ToLower(a)) == RemoveWhitespace(ToLower(b))
    ensures CountyUpload(a, Some(data)).value.key == CountyUpload(b, Some(data')).value.key
  {
  }

  /** The file name is ".json" preceded by exactly the non-blank characters
      of the name, in order, each lower-cased: no white space and no
      upper-case letter remains. */
  lemma CountyFilenameSpec(countyName: string)
    ensures var f := CountyFilename(countyName);
            var stem := f[..|f| - 5];
            && |f| >= 5 && f[|f| - 5..] == ".json"
            && IsSubsequence(stem, ToLower(countyName))
            && (forall c :: NotWhitespace(c) ==> multiset(stem)[c] == multiset(ToLower(countyName))[c])
            && (forall i :: 0 <= i < |stem| ==> NotWhitespace(stem[i]) && !('A' <= stem[i] <= 'Z'))
  {
    var lowered := ToLower(countyName);
    var stem := RemoveWhitespace(lowered);
    assert CountyFilename(countyName)[..|CountyFilename(countyName)| - 5] == stem;
    StemSpec(lowered);
    forall i | 0 <= i < |stem| ensures !('A' <= stem[i] <= 'Z') {
      FilterMember(lowered, NotWhitespace, stem[i]);
    }
  }

  /** A single space between two blank-free words disappears. */
  lemma RemoveSingleSpace(a: string, b: string)
    requires forall i :: 0 <= i < |a| ==> NotWhitespace(a[i])
    requires forall i :: 0 <= i < |b| ==> NotWhitespace(b[i])
    ensures RemoveWhitespace(a + " " + b) == a + b
  {
    FilterAppend(a + " ", b, NotWhitespace);
    FilterAppend(a, " ", NotWhitespace);
    FilterKeepsAll(a, NotWhitespace);
    FilterKeepsAll(b, NotWhitespace);
    assert Filter(" ", NotWhitespace) == [];
  }

  /** A name that lower-cases to two blank-free words around one space is
      stored under the two words run together. */
  lemma TwoWordFilename(name: string, a: string, b: string)
    requires ToLower(name) == a + " " + b
    requires forall i :: 0 <= i < |a| ==> NotWhitespace(a[i])
    requires forall i :: 0 <= i < |b| ==> NotWhitespace(b[i])
    ensures CountyFilename(name) == a + b + ".json"
  {
    RemoveSingleSpace(a, b);
  }

  lemma LosAngelesLowered()
    ensures ToLower("Los Angeles") == "los" + " " + "angeles"
  {
  }

  /** The file name of the "Los Angeles" county document. */
  lemma LosAngelesFilename(name: string)
    requires name == "Los Angeles"
    ensures CountyFilename(name) == "losangeles.json"
  {
    LosAngelesLowered();
    LosAngelesWords();
    TwoWordFilename(name, "los", "angeles");
  }

  lemma LosAngelesWords()
    ensures forall i :: 0 <= i < 3 ==> NotWhitespace("los"[i])
    ensures forall i :: 0 <= i < 7 ==> NotWhitespace("angeles"[i])
  {
  }

  /** Deriving the file name from a name that is already a stem changes
      nothing: the stem is lower case and has no white space. */
  lemma CountyFilenameIdempotent(countyName: string)
    ensures var stem := RemoveWhitespace(ToLower(countyName));
            CountyFilename(stem) == CountyFilename(countyName)
  {
    var lowered := ToLower(countyName);
    var stem := RemoveWhitespace(lowered);
    LowerIsLower(countyName);
    FilterLowered(lowered);
    StemSpec(lowered);
    WhitespaceFreeFilter(stem);
  }

  /** Every character of a lower-cased string is already lower case. */
  lemma LowerIsLower(s: string)
    ensures ToLower(ToLower(s)) == ToLower(s)
  {
  }

  /** Removing white space from a lower-cased string leaves it lower-cased. */
  lemma {:induction false} FilterLowered(s: string)
    requires ToLower(s) == s
    ensures ToLower(RemoveWhitespace(s)) == RemoveWhitespace(s)
    decreases |s|
  {
    if s != [] {
      assert ToLower(s[1..]) == s[1..];
      FilterLowered(s[1..]);
      var rest := RemoveWhitespace(s[1..]);
      if NotWhitespace(s[0]) {
        assert RemoveWhitespace(s) == [s[0]] + rest;
        assert LowerChar(s[0]) == s[0];
      }
    }
  }

  /** A string without white space is its own stem. */
  lemma WhitespaceFreeFilter(s: string)
    requires ToLower(s) == s
    requires forall i :: 0 <= i < |s| ==> NotWhitespace(s[i])
    ensures RemoveWhitespace(ToLower(s)) == s
  {
    FilterKeepsAll(s, NotWhitespace);
  }
}
