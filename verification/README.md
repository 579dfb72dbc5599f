# Vaccine appointment availability: collector and reducer

The system watches California's MyTurn vaccination booking service. The
**collector** runs once per invocation:

- It asks the eligibility endpoint for an opaque `vaccineData` token.
- For every configured county, it searches the locations near the county.
- For each location, the collector works out which days have bookable
  slots. It covers the first dose and, when a first dose is bookable, the
  second dose.
- The second dose is searched from 21 days after the first bookable
  first-dose day, or from 28 days when the location's name mentions
  Moderna.
- It writes one JSON document per county under `counties/<name>.json`.

The **reducer** lists those county files. It reads each one and combines
them into a single document keyed by county name.

This project models the decision logic of both programs in Dafny and proves
properties of it. Every remote call and every clock reading is an input:

- `Discovery.Remote` gives the answers of the availability and slot
  endpoints. `None` means the call threw.
- `Discovery.Clock` gives the run's UTC date and, per IANA time zone, today's
  date and the current `HH:MM:SS`. Today's date is `None` for a zone the
  runtime does not know, where `toLocaleString` throws.
- The reducer's listing is a `seq` of keys, and each file read is a parsed
  JSON value.

Modules:

- `Options`: the `Option` type.
- `Seqs`: an order-keeping `Filter`, subsequences and exact multiset counts.
- `Text`:
  - JavaScript string `<` (`LexLess`)
  - ASCII `toLowerCase`
  - `includes`
  - the `\s` class
  - zero-padded decimal fields
- `CivilDates`: proleptic Gregorian dates with day numbers, plus:
  - `setDate`-style day addition
  - `setMonth(+2)` with day overflow
  - `toISOString().slice(0, 10)` and reading `YYYY-MM-DD` back
  - the default `Date` string form
- `LocalTimes`: `HH:MM:SS` strings and why comparing them as strings is
  comparing times.
- `Eligibility`: acceptance of the eligibility answer.
- `LocationSearch`: the search answer, classified and mapped.
- `Discovery`: the per-location engine. The engine takes a `SameDayPath`,
  which says how the same-day slot request names the day. `DateObjectPath`
  is the code as written and `IsoPath` is the intended form (see Findings).
  Every engine lemma holds for both forms, and so does every county-runner
  lemma. The concrete scenarios use `IsoPath`.
- `SameDayRequest`: the same-day request as the code writes it, set against
  the intended one.
- `DiscoveryScenarios`: concrete runs of the engine.
- `CountyRunner`: per-location classification, the county document, its
  file name and its upload.
- `Reducer`: the listing filter and the merge. `Reduce` is the in-place
  fold, a loop over a dictionary, proved against the functional `Merge`.

The collector's own comment (collector/collector.js:355-360) says that
no notification should go out when the first dose is bookable but the
second is not. The code, though, sets `hasAvailabilities` from list
lengths only (collector/collector.js:566-569). It keeps dose-2 dates that
have no slots, so `hasAvailabilities` can be true without a bookable
second dose. The model follows the code, and
`CountyRunner.HasAvailabilitiesWithoutDose2Slot` exhibits the difference.

## Model

| member | source | states |
|---|---|---|
| Eligibility.VaccineDataToken | collector/collector.js:130-150 | A token is returned exactly when the answer has status 200, is eligible and carries a non-empty `vaccineData`, and it is that value. A thrown call, any other status or an ineligible answer gives `null`. |
| LocationSearch.MapLocations | collector/collector.js:191-203 | Every record maps field by field to a location, in order and one to one. Mapping fails exactly when some record lacks coordinates. |
| LocationSearch.SearchResult | collector/collector.js:185-210 | `null` exactly for an answer whose status is not 200. A thrown call gives `[]`. A non-empty result is the in-order mapping of the answer's records. A 200 answer whose records all have coordinates yields one location per record. |
| Discovery.CheckData | collector/collector.js:340-351 | The query keeps the token and dose number. Its start date reads back as the given day. Its end date reads back as exactly `AddMonths(date, 2)`, the `setMonth(getMonth() + 2)` day, which lies 59 to 62 days later. |
| CivilDates.AddMonths | collector/collector.js:342-343 | `setMonth(getMonth() + k)`: the same day of the month `k` months on, overflowing when that month is shorter. Its contract for `k = 2` is stated by `CivilDates.AddTwoMonthsDay` and `CivilDates.AddTwoMonthsNumber`. |
| CivilDates.AddTwoMonthsDay | collector/collector.js:342-343 | `setMonth(month + 2)` lands on the same day of the month after next. When that month is too short, it lands in the month after that, overflowing by the missing days. |
| CivilDates.AddTwoMonthsNumber | collector/collector.js:342-343 | The two-month step moves the day number forward by the lengths of the start month and the month after it. |
| CivilDates.TwoMonthSpan | collector/collector.js:342-343 | The two-month window spans between 59 and 62 days. |
| CivilDates.IsoDate | collector/collector.js:347-348 | `toISOString().slice(0, 10)`: always ten characters. For a four-digit year it is `YYYY-MM-DD`, which `CivilDates.IsoDateParses` reads back. |
| CivilDates.ParseIsoDate | collector/collector.js:386 | Reading a `YYYY-MM-DD` answer date: only strings of that shape that name a valid day are accepted. `CivilDates.ParsedIsoDateFormats` and `CivilDates.IsoDateParses` make it the inverse of `IsoDate`. |
| CivilDates.IsoDateParses | collector/collector.js:347-348 | A date with a four-digit year, written `YYYY-MM-DD` and read back, is the same date. |
| CivilDates.ParsedIsoDateFormats | collector/collector.js:386-394 | A `YYYY-MM-DD` string that reads as a valid day is rewritten unchanged by `toISOString().slice(0, 10)`. So reading an answer's date and normalising it keeps the day. |
| CivilDates.AddDays | collector/collector.js:458-461 | `setDate(getDate() + n)`, one calendar day at a time. Its contract is stated by `CivilDates.AddDaysNumber`. |
| CivilDates.AddDaysNumber | collector/collector.js:458-461 | Adding `n` days with `setDate` moves the day number forward by exactly `n`, across month and year ends. |
| Discovery.KeepAvailable | collector/collector.js:371-373 | `availability.filter((a) => a.available)`, used for both doses. Its contract is stated by `Discovery.KeepAvailableSpec`. |
| Discovery.KeepAvailableSpec | collector/collector.js:371-373 | The filtered days are a subsequence of the answer. Each day occurs as often as in the answer if it is available, and not at all otherwise. The result is empty exactly when no day is available. |
| Text.LexLess | collector/collector.js:317 | JavaScript's string `<`. `LocalTimes.FormatTimeOrder` shows it orders `HH:MM:SS` times chronologically. |
| LocalTimes.FormatTimeOrder | collector/collector.js:312-317 | For valid times, the string `<` on `HH:MM:SS` holds exactly when the first time is earlier in the day. |
| Discovery.Expired | collector/collector.js:306-320 | Today's slots are spent: there are none, or the last does not start after now. Its meaning is stated by `Discovery.ExpiredMeansLastSlotPassed`. |
| Discovery.ExpiredMeansLastSlotPassed | collector/collector.js:306-320 | Today's date is dropped exactly when it has no slot or its last slot does not start after the current time. |
| CivilDates.DateObjectString | collector/collector.js:294-299 | The string form a `Date` object takes in the request path of line 228 (`Wed Mar 10 2021 00:00:00 GMT+0000 (Coordinated Universal Time)`). The year is padded to four digits and otherwise written with all its digits. The string is longer than ten characters and has a space at index 3. |
| CivilDates.DateObjectStringIsNotIso | collector/collector.js:294-299 | The default string form of a `Date` never reads as a day and differs from the `YYYY-MM-DD` form of every date. |
| Discovery.SameDaySegment | collector/collector.js:294-299 | The same-day request's path segment. As written (`DateObjectPath`) it never reads as a day. As intended (`IsoPath`) it reads back as the day, for four-digit years. |
| Discovery.ReviseDose1 | collector/collector.js:254-324 | `revisedDose1Availabilities`, with the path form as a parameter. Its contract is stated by `Discovery.ReviseDose1Spec`. |
| Discovery.ReviseDose1Spec | collector/collector.js:262-323 | It fails exactly when the location's time zone is unknown, or when the first candidate date is today and today's slot call fails. Otherwise the list is unchanged unless the first date is today and its slots are expired. In that case exactly the entries of that date are removed, order kept. |
| Discovery.AttachSlots | collector/collector.js:419-435 | Pairing days with their slots succeeds exactly when every slot call succeeds. Then each day, in order, carries the slots its own call returned. |
| Discovery.Anchor | collector/collector.js:437-452 | The dose-2 anchor exists exactly when some dose-1 date has a slot. It is the first such date. |
| Discovery.Dose1WithSlots | collector/collector.js:361-435 | A successful dose-1 stage is never empty. |
| Discovery.Dose2WithSlots | collector/collector.js:476-507 | The dose-2 stage: the day-range query from the start day, then slots for each available day. Its contract is stated by `Discovery.Dose2Failures` and `Discovery.EngineDose2`. |
| Discovery.Engine | collector/collector.js:354-520 | `myTurnAvailabilityCheckForLocation`, for either path form. An empty dose-1 list forces an empty dose-2 list, and a non-empty dose-1 list contains a date with a slot. |
| Discovery.EngineEarlyExits | collector/collector.js:375-449 | Every early exit and every failed call gives empty lists for both doses. This covers: no dose-1 answer, no available day, an unknown time zone, a failed same-day check, nothing left after it, a failed slot call, no date with a slot, a failed dose-2 answer. |
| Discovery.Dose2Failures | collector/collector.js:476-507 | The dose-2 stage fails when its day-range call fails or any of its slot calls fails. |
| Discovery.EngineDose1 | collector/collector.js:400-435 | A non-empty dose-1 output is the corrected list of available days. Each day is paired with its own dose-1 slots, and days without slots stay in. |
| Discovery.EngineDose2 | collector/collector.js:450-507 | The dose-2 search starts on the one date exactly `interval` days after the anchor. The dose-2 output pairs each available day of that answer with its dose-2 slots. |
| Discovery.EngineSucceeds | collector/collector.js:509-512 | When every stage succeeds and some dose-1 date has a slot, the engine returns both lists. |
| Discovery.EngineDose1DatesWereAvailable | collector/collector.js:371-373 | Every reported dose-1 date was listed as available by the dose-1 answer. |
| Discovery.EngineDose2DatesWereAvailable | collector/collector.js:486-488 | Every reported dose-2 date was listed as available by the dose-2 answer. |
| DiscoveryScenarios.TodayExpiredGivesNothing | collector/collector.js:396-416 | Only today is available and its last slot (10:00:00) has passed at 11:00:00. Today is dropped and the location reports nothing. |
| DiscoveryScenarios.TwoDayRun | collector/collector.js:419-452 | Two distinct available days, the first not today and the second with at least one slot, are both reported with their own slots. The anchor is the first of them that has a slot. |
| DiscoveryScenarios.FirstOpenDayIsTheAnchor | collector/collector.js:437-452 | With 2021-03-10 and 2021-03-12 open and bookable, the anchor is 2021-03-10. |
| DiscoveryScenarios.ZeroSlotDayIsNotTheAnchor | collector/collector.js:437-441 | A day marked available but without slots stays in the dose-1 output, but the anchor is the next day that has a slot. |
| DiscoveryScenarios.SecondDoseStartsThreeWeeksLater | collector/collector.js:457-461 | 21 days after 2021-03-10 is 2021-03-31. |
| SameDayRequest.AsWrittenSegmentIsNeverADay | collector/collector.js:294-299 | The path segment of the as-written request never reads as a day and equals no day's `YYYY-MM-DD` form. |
| SameDayRequest.AsWrittenEngineReportsNothing | collector/collector.js:294-299 | Take a day that is today and available, with a 15:00 slot left at 11:00, and an endpoint that answers only paths naming a day. As written, the same-day check fails and the whole location reports nothing. |
| SameDayRequest.CorrectedEngineKeepsToday | collector/collector.js:294-299 | On the same inputs, with the day named `YYYY-MM-DD`, the check keeps today and the location reports it with its slot for both doses. |
| SameDayRequest.AsWrittenRunnerReportsFalse | collector/collector.js:559-569 | On the same inputs, a site that does not book through a third party is stored with `hasAvailabilities` false as written, and true with the day named `YYYY-MM-DD`. |
| SameDayRequest.SameDayRequestCounterexample | collector/collector.js:294-299 | On 2021-03-10 at a Los Angeles site, the as-written engine reports nothing while the intended one reports a dose-1 date. |
| Text.ToLower | collector/collector.js:555-556 | `toLowerCase` on ASCII letters: same length, each character lower-cased, everything else kept. |
| Text.Contains | collector/collector.js:555-556 | `includes`: the substring occurs at some position. `Text.ContainsLowered` shows that an occurrence survives lower-casing. |
| CountyRunner.DoseInterval | collector/collector.js:555-558 | The interval is 28 days exactly when the lower-cased name contains "moderna", and 21 otherwise. |
| CountyRunner.ModernaNameGives28 | collector/collector.js:555-558 | A name containing "Moderna" in any letter case gets 28 days. |
| CountyRunner.ProcessLocation | collector/collector.js:543-571 | A third-party site gets empty lists, a `null` `hasAvailabilities` and the note. Any other site gets the engine's result, for the given same-day path form (`DateObjectPath` as the collector runs it), for its token, id, time zone and interval. It gets no note, and `hasAvailabilities` equal to "both lists non-empty". |
| CountyRunner.ThirdPartyIgnoresRemote | collector/collector.js:543-553 | A third-party site's result is the same whatever the remote system and the clock say: the engine is not consulted. |
| CountyRunner.HasAvailabilitiesMeaning | collector/collector.js:566-569 | `hasAvailabilities` is true exactly for a non-third-party site with both lists non-empty. Then some dose-1 date has a slot. It is false exactly when one list is empty. |
| CountyRunner.HasAvailabilitiesWithoutDose2Slot | collector/collector.js:566-569 | `hasAvailabilities` is true even when no dose-2 date has a slot. |
| CountyRunner.GetCountyData | collector/collector.js:522-577 | `null` exactly when the search returned `null`. Otherwise the document holds one result per location, in search order, each processed with the same path form, with the collection time. |
| Text.RemoveWhitespace | collector/collector.js:617 | `replace(/\s+/g, "")`. Its contract is stated by `CountyRunner.StemSpec`. |
| CountyRunner.StemSpec | collector/collector.js:616-617 | Removing white space keeps exactly the non-blank characters, in order, each as often as before, and leaves no white space. |
| CountyRunner.CountyFilename | collector/collector.js:616-617 | The county file name. Its contract is stated by `CountyRunner.CountyFilenameSpec`. |
| CountyRunner.CountyFilenameSpec | collector/collector.js:616-617 | The file name is ".json" preceded by a subsequence of the lower-cased name. That subsequence holds every non-blank character as often as the name does, and contains no white space and no upper-case letter. |
| CountyRunner.CountyFilenameIdempotent | collector/collector.js:616-617 | Deriving a file name from a stem gives the same file name again. |
| CountyRunner.TwoWordFilename | collector/collector.js:615-617 | A name that lower-cases to two blank-free words around a space is stored under the words run together. |
| CountyRunner.LosAngelesFilename | collector/collector.js:615-617 | "Los Angeles" is stored as "losangeles.json". |
| CountyRunner.CountyUpload | collector/collector.js:606-623 | A county whose search failed writes nothing. Otherwise its document is stored under exactly `"counties/" + CountyFilename(countyName)`, holding the data under the county name. |
| CountyRunner.SameStemSameKey | collector/collector.js:616-623 | Two names that differ only in case or white space share one key, so the later upload overwrites the earlier. |
| Reducer.ListCountyKeys | reducer/reducer.js:33 | `filter((obj) => obj.Key !== prefix)` on the listing. Its contract is stated by `Reducer.ListCountyKeysSpec`. |
| Reducer.ListCountyKeysSpec | reducer/reducer.js:33 | The listing keeps its order, drops exactly the key equal to the prefix, and keeps every other key as often as listed. |
| Reducer.FirstEntry | reducer/reducer.js:67-69 | A file contributes nothing exactly when it is falsy or has no own keys. An object contributes its first member. |
| Reducer.Merge | reducer/reducer.js:65-72 | The left fold over the files. Its contract is stated by `Reducer.Reduce`, `Reducer.MergeKeys`, `Reducer.MergeLastWriterWins`, `Reducer.MergeSkipsEmpty` and `Reducer.MergeSeesOnlyFirstEntries`. |
| Reducer.Reduce | reducer/reducer.js:65-72 | The in-place fold over the files yields the functional merge. |
| Reducer.MergeKeys | reducer/reducer.js:65-72 | The combined document's keys are exactly the keys some file writes as its first key. |
| Reducer.MergeLastWriterWins | reducer/reducer.js:54-72 | Each value is the one written by the last file, in listing order, whose first key it is. |
| Reducer.MergeSkipsEmpty | reducer/reducer.js:67 | Removing a null, falsy or keyless file leaves the combined document unchanged. |
| Reducer.MergeSeesOnlyFirstEntries | reducer/reducer.js:68-69 | Files that agree on their first entries merge to the same document: later keys are ignored. |
| Reducer.Consolidate | reducer/reducer.js:48-72 | A run fails, and nothing is uploaded, exactly when the listing fails or a listed file cannot be read. Otherwise the result is the merge of the files, in listing order. |

## Left out

- Network and storage I/O (HTTP requests, storage reads and writes, the
  Lambda callbacks and status codes, logging and the call counter) is not
  modelled.
- Remote answers, the clock and the listing are inputs to the model.
- The county coordinates table and the request bodies' fixed fields (URLs,
  `includePools`) are not modelled; only the fields the logic reads are.
- The handler continues after answering 422 when no token is returned
  (collector/collector.js:587-593): there is no `return`. This
  callback-level control flow is not modelled.
- Concurrency: each `Promise.all` is modelled as an order-preserving
  sequential map that fails when any element fails. The uploads of
  different counties are independent, and their interleaving is not
  modelled.
- The storage listing is capped at 15 keys with no continuation
  (reducer/reducer.js:27). The model takes the listing as given, so a
  truncated listing is outside it.
- JSON text: `JSON.parse` and `JSON.stringify` are not modelled. Files are
  parsed values. The key order of the output document is not kept, because
  the merge result is a `map`.
- Reducer.FirstEntry: takes an object's members in the order the runtime
  enumerates them. It does not model the runtime putting integer-like keys
  first.
- Reducer.FirstEntry: a `JObject` whose member list repeats a key
  corresponds to no parsed file, since `JSON.parse` keeps one member per
  key. Such values are not excluded by the type, and what they contribute
  is not meaningful.
- The host time zone is taken to be UTC, so the offset correction at
  collector/collector.js:391-394 and 453-456 is the identity. Under that
  assumption, `new Date("YYYY-MM-DD")` followed by `toISOString()` keeps
  the day (`CivilDates.ParsedIsoDateFormats`).
- The two `new Date()` readings (collector/collector.js:262 and 367) are
  taken to be the same instant.
- `toLocaleString` with a time zone is the `Clock` input. An unknown zone
  (a thrown `RangeError`) is modelled as `None`, which ends the location
  with both lists empty. A `24:00:00` rendering at midnight is not
  modelled.
- Dates in answers are taken to be valid calendar days written
  `YYYY-MM-DD` (the `Date` type). An invalid date string, which makes
  `toISOString` throw, is not modelled.
- The source compares dates as `YYYY-MM-DD` strings and the model compares
  dates. The two agree for four-digit years (`CivilDates.IsoDateParses`).
- CivilDates.IsoDateParses: stated for years up to 9999 only. Larger years
  are written with six digits and a sign, which the `YYYY-MM-DD` reader
  rejects.
- Discovery.CheckData: the end date is characterised only for years below
  9999, for the same reason.
- `toLowerCase` is modelled for ASCII letters only. This is exact for the
  "moderna" test and for the county names.
- JavaScript compares strings by UTF-16 code units, and the model compares
  characters. They differ only for characters outside the Basic
  Multilingual Plane, which never occur in `HH:MM:SS`.
- Coordinates are carried as `real` and not computed with.
- Opening hours, addresses and URLs are carried as opaque strings.

## Findings

| source | as written | input that shows it | evidently intended | confidence | as-written member | corrected member |
|---|---|---|---|---|---|---|
| collector/collector.js:294-299 | The same-day slot request passes the `Date` object `normalizedFirstDoseDate` as `dateString`. The request path therefore holds its default string form, e.g. `Wed Mar 10 2021 00:00:00 GMT+0000 (Coordinated Universal Time)`. | The first available day is today (2021-03-10), it is 11:00:00, and the slot endpoint answers only for a path naming a day, with a 15:00:00 slot. The as-written check fails, so the whole location reports nothing and is stored with `hasAvailabilities` false. The intended check keeps today and stores it as true. | The path names the day as `YYYY-MM-DD`, as the slot call's documentation (collector/collector.js:216) and every other slot request (lines 423 and 495) do. | not executed; medium: depends on how the remote service answers a non-ISO date segment | SameDayRequest.AsWrittenEngineReportsNothing, SameDayRequest.AsWrittenRunnerReportsFalse, SameDayRequest.SameDayRequestCounterexample | SameDayRequest.CorrectedEngineKeepsToday, SameDayRequest.AsWrittenRunnerReportsFalse, Discovery.ReviseDose1Spec |
