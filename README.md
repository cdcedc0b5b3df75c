# padel-bot availability pipeline in Dafny

This project models the backend of padel-bot, a service that polls the
booking planner of four padel clubs on the French Riviera and reports free
courts. The model covers the part with logic in it:

- the shared time helpers (`timeToMinutes`, `minutesToTime`, the French day
  names and `getDayName`);
- `PadelService`:
  - the construction of the slot strings inside `checkAvailabilityApi`;
  - the eight-day window of `checkMultipleDays`;
  - the filtered search of `checkFilteredAvailability` over every club,
    selected weekdays and a time range;
  - `parseSlotInfo`, `filterSlotsByTime` and the slot totals;
- `PadelController`:
  - the validation guards of the filtered-search endpoint;
  - the club lookup and its default in the two single-club endpoints;
  - the club listing of `getClubs`.

The upstream planning call is a parameter. `fetch: (ClubConfig, int) ->
Option<ApiResponse>` stands for it, and None stands for every way the call can
fail: a bad status, an undecodable body or a thrown error. A date is a whole
number of days after today. Today's weekday (`new Date().getDay()`) is the
parameter `todayDow`, so the weekday of offset `i` is `(todayDow + i) % 7`.

Files, one module each:

| file | module | source |
|---|---|---|
| `wrappers.dfy` | `Wrappers` | `Option` and `Result` |
| `strings.dfy` | `Strings` | `split`, `indexOf`, `join`, `toString` and digit strings |
| `time.dfy` | `Time` | `packages/shared/src/utils/time.ts` |
| `types.dfy` | `PadelTypes` | the records of both type files, and JavaScript records as ordered key lists |
| `config.dfy` | `Config` | `CLUBS` and `DAYS_TO_CHECK` |
| `slot_format.dfy` | `SlotFormat` | what `checkAvailabilityApi` returns, as functions |
| `slot_parse.dfy` | `SlotParse` | `parseSlotInfo`, `filterSlotsByTime` |
| `slot_roundtrip.dfy` | `SlotRoundTrip` | parsing a formatted slot string back |
| `service.dfy` | `PadelService` | the loops of the three service operations and their properties |
| `controller.dfy` | `PadelController` | the request guards, club lookup and listing |

The service's loops are Dafny methods with loop invariants:

- `SlotLines`, `PlaygroundSlotLines` and `CheckAvailabilityApi` are the nested
  loops of the slot construction, including the `isBookable` pre-check and its
  `break`.
- `CheckMultipleDays` is the counted loop of `checkMultipleDays`.
- `CheckDay` and `SearchClub` are the day loop of the filtered search.
- `CheckFilteredAvailability` is the club loop.

Each method is proved equal to a specification function, and the properties
are lemmas about those functions:

- `Availability`, `ResponseLines`, `DayEntry`, `ClubResultsOf` and
  `FilteredAvailability` are the specification functions.
- The per-day specification takes a day's outcome as a parameter:
  `ScanDays(outcome, lo, hi)`.
- `DayOutcomeOf` is what the source does with one day.

## Model

Paths are relative to the repository root.

| member | source | states |
|---|---|---|
| `Time.JsNumber` | packages/shared/src/utils/time.ts:5 | in this model, `Number(piece)` is a number exactly when the piece is a digit string, and NaN otherwise |
| `Time.TimeToMinutes` | packages/shared/src/utils/time.ts:4-7 | a result other than NaN needs a ":" in the text; for "HH:MM" made of digits the result is 60·HH + MM |
| `Time.MinutesToTime` | packages/shared/src/utils/time.ts:12-16 | the result has at least five characters; its value is stated by `MinutesRoundTrip` and `MinutesToTimeShape` |
| `Time.ClockToMinutes` | packages/shared/src/utils/time.ts:4-7 | for "HH:MM" made of digits, `timeToMinutes` is 60·HH + MM, where HH and MM are the two digit pairs |
| `Time.Midnight` | packages/shared/src/utils/time.ts:4-7 | "00:00" is 0 minutes |
| `Time.LastMinute` | packages/shared/src/utils/time.ts:4-7 | "23:59" is 1439 minutes |
| `Time.MinutesRoundTrip` | packages/shared/src/utils/time.ts:4-16 | `timeToMinutes(minutesToTime(m)) == m` for every m ≥ 0 |
| `Time.ClockRoundTrip` | packages/shared/src/utils/time.ts:4-16 | `minutesToTime(timeToMinutes(s)) == s` for every "HH:MM" with HH ≤ 23 and MM ≤ 59 |
| `Time.MinutesToTimeShape` | packages/shared/src/utils/time.ts:12-16 | below 100 hours the result is "DD:DD" holding m / 60 and m % 60; below 1440 it is a valid time of day |
| `Time.NoWrapPastMidnight` | packages/shared/src/utils/time.ts:12-16 | from 1440 minutes on, the hours go on counting past 23, so the result is not a valid time of day |
| `Time.HalfPastMidnightNextDay` | packages/shared/src/utils/time.ts:12-16 | 1470 minutes print as "24:30" |
| `Time.ClockOrder` | packages/shared/src/utils/time.ts:4-7 | on valid "HH:MM" strings, JavaScript's string `<` agrees with `<` on their minute counts, in both directions |
| `Time.DayName` | packages/shared/src/utils/time.ts:34-36 | `getDayName(d)` is `DAYS_OF_WEEK_NAMES[d]` for d in 0..6, and "Unknown" exactly when d is outside 0..6 |
| `Time.DayNamesDistinct` | packages/shared/src/utils/time.ts:21-29 | the seven names are pairwise distinct and day 0 is "Dimanche" |
| `Strings.NatToStringDigits` | packages/shared/src/utils/time.ts:15 | `n.toString()` is a non-empty digit string with no leading zero, and it denotes n |
| `PadelTypes.Lookup` | packages/backend/src/controllers/padel.controller.ts:18 | in this model, `CLUBS[key]` is undefined exactly when `key` is not one of the record's own keys; otherwise it is the value stored under `key` |
| `PadelTypes.Assign` | packages/backend/src/services/padel.service.ts:197 | assigning to a new key appends the entry; assigning to an existing key keeps the key list; every other key keeps its value |
| `PadelTypes.AssignThenLookup` | packages/backend/src/services/padel.service.ts:197 | after `rec[key] = value`, reading `rec[key]` gives `value` |
| `Config.ClubKeys` | packages/backend/src/config/constants.ts:3-36 | the keys of `CLUBS`, in declaration order |
| `Config.ClubsWellFormed` | packages/backend/src/config/constants.ts:3-36 | the keys are distinct, each club's `id` is its key, and "mouratoglou" is a key |
| `SlotFormat.Availability` | packages/backend/src/services/padel.service.ts:83-96 | `available` is true exactly when `slots` is non-empty; a failed call gives `{available: false, slots: []}`; otherwise `slots` are the strings built from the response |
| `SlotFormat.FormatCents` | packages/backend/src/services/padel.service.ts:69-71 | `toFixed(2)` on a whole number of cents reads back as the same cents; a negative amount is a minus sign before the text of its magnitude |
| `SlotFormat.SlotLine` | packages/backend/src/services/padel.service.ts:66-73 | the string is the court name, " - Heure: ", the start, " (", some minutes text, " min), Prix: ", the formatted price and "€" |
| `SlotFormat.PriceRoundTrip` | packages/backend/src/services/padel.service.ts:69-73 | a non-negative price in cents prints as digits, a point and two decimals, and the text reads back as the same cents |
| `SlotFormat.ZeroTierPieces` | packages/backend/src/services/padel.service.ts:66-70 | a missing duration prints as "0" minutes and a missing price as "0.00" |
| `SlotFormat.MissingFieldsDefaults` | packages/backend/src/services/padel.service.ts:47-73 | a nameless court, a slot without `startAt` and a bookable tier without duration or price give "Unknown Padel Court - Heure: N/A (0 min), Prix: 0.00€" |
| `SlotFormat.NoBookableNoLines` | packages/backend/src/services/padel.service.ts:51-60 | a slot with no bookable tier contributes nothing, so the `isBookable` pre-check does not change the result |
| `SlotFormat.LinesAreBookableTiers` | packages/backend/src/services/padel.service.ts:43-81 | the strings are exactly one per bookable price tier of the first activity of each playground, in playground, slot, tier order |
| `SlotFormat.OnlyFirstActivityRead` | packages/backend/src/services/padel.service.ts:49-50 | activities after the first never contribute strings |
| `PadelService.SlotLines` | packages/backend/src/services/padel.service.ts:51-76 | the slot loop body (bookable pre-check with `break`, then one push per bookable tier) yields that slot's strings of the construction |
| `PadelService.PlaygroundSlotLines` | packages/backend/src/services/padel.service.ts:47-79 | the playground loop body yields the strings of every slot of the first activity |
| `PadelService.CheckAvailabilityApi` | packages/backend/src/services/padel.service.ts:43-96 | the nested loops return exactly `Availability` of the response |
| `PadelService.CheckMultipleDays` | packages/backend/src/services/padel.service.ts:108-128 | exactly `DAYS_TO_CHECK` entries, the i-th holding offset i and that day's `available` and `slots` |
| `PadelService.DayEntryFacts` | packages/backend/src/services/padel.service.ts:112-124 | each entry is dated by its position and is available exactly when it lists a slot |
| `PadelService.CheckDay` | packages/backend/src/services/padel.service.ts:147-190 | one day of the search: skipped when its weekday is not selected, otherwise recorded with or without slots as `DayOutcomeOf` says |
| `PadelService.SearchClub` | packages/backend/src/services/padel.service.ts:136-201 | the day loop of one club builds exactly `ClubResultsOf`: the two lists of the scan over [startDay, endDay) and the slot total |
| `PadelService.CheckFilteredAvailability` | packages/backend/src/services/padel.service.ts:130-213 | the club loop returns exactly `FilteredAvailability` |
| `PadelService.DayOutcomeOf` | packages/backend/src/services/padel.service.ts:147-190 | a day is skipped exactly when its weekday is not selected; a listed day carries its offset and weekday; a day listed with slots has some, one listed without has none |
| `PadelService.DayOutcomeFacts` | packages/backend/src/services/padel.service.ts:147-190 | a day is skipped iff its weekday is unselected; a selected day has slots iff the time filter keeps some slot, and then it holds exactly those; it is dated by its offset and named by its weekday |
| `PadelService.ScanEntries` | packages/backend/src/services/padel.service.ts:143-194 | every listed day lies in the window and is listed in the bucket its outcome names |
| `PadelService.ScanComplete` | packages/backend/src/services/padel.service.ts:143-194 | every day of the window that is not skipped is listed in its bucket |
| `PadelService.ScanOrdered` | packages/backend/src/services/padel.service.ts:143-194 | both buckets are in strictly increasing date order |
| `PadelService.ClubSearch` | packages/backend/src/services/padel.service.ts:140-194 | a day is in `results` iff it is in the window and matched, and in `daysWithNoSlots` iff it is in the window and unmatched; both lists are date-ordered |
| `PadelService.WeekListsSelectedDay` | packages/backend/src/services/padel.service.ts:140-152 | every seven-day stretch of the window lists each selected weekday |
| `PadelService.WeekListsDayOnce` | packages/backend/src/services/padel.service.ts:140-152 | within a seven-day stretch, two listed days with the same weekday are the same entry |
| `PadelService.LastWeekListsEachSelectedDayOnce` | packages/backend/src/services/padel.service.ts:140-152 | without `includePriorWeeks`, each selected weekday is listed exactly once per club |
| `PadelService.TotalSlotsAtLeastDays` | packages/backend/src/services/padel.service.ts:200 | when every listed day has a slot, the reduce total is at least the number of days |
| `PadelService.ClubTotal` | packages/backend/src/services/padel.service.ts:196-201 | a club's `totalSlots` is at least its number of result days, and is 0 exactly when it has none |
| `PadelService.ResultsByClubTable` | packages/backend/src/services/padel.service.ts:197 | with distinct ids equal to the keys (none an array index), `resultsByClub` holds one entry per club, in registry order, keyed by its id |
| `PadelService.ClubsTotalZero` | packages/backend/src/services/padel.service.ts:205 | the grand total is 0 exactly when every club's total is |
| `PadelService.TableSummary` | packages/backend/src/services/padel.service.ts:196-205 | the table for any well-formed registry (distinct ids equal to the keys, none an array index), and when its total is zero |
| `PadelService.RegistrySummary` | packages/backend/src/services/padel.service.ts:196-205 | for any well-formed registry (distinct ids equal to the keys, none an array index): one entry per club with its search results; total 0 iff no club has a result day |
| `PadelService.FilteredSummary` | packages/backend/src/services/padel.service.ts:196-212 | `success` is true, `searchCriteria` is the request, one entry per club of `CLUBS` in order, and `totalSlots` is 0 iff no club has a day with slots |
| `SlotParse.FindHeure` | packages/backend/src/services/padel.service.ts:232 | a match of `Heure: dd:dd` captures a "DD:DD" string; no match means no position matches |
| `SlotParse.FindHeureLeftmost` | packages/backend/src/services/padel.service.ts:232 | a match is the capture of the leftmost position where `Heure: dd:dd` occurs |
| `SlotParse.RunAtMatches` | packages/backend/src/services/padel.service.ts:235-240 | at one position, the pattern prefix, a run of the class and the suffix match exactly when the capture is that run |
| `SlotParse.NoMatchWhereRunFails` | packages/backend/src/services/padel.service.ts:235-240 | where the capture attempt fails, the pattern does not match at that position, whatever the end |
| `SlotParse.FindRunLeftmost` | packages/backend/src/services/padel.service.ts:235-240 | no capture exactly when the pattern matches nowhere; a capture is the run of the leftmost match |
| `SlotParse.DurationMatch` | packages/backend/src/services/padel.service.ts:235 | a match of `\((\d+) min\)` captures a non-empty digit string |
| `SlotParse.DurationMatchLeftmost` | packages/backend/src/services/padel.service.ts:235 | no capture exactly when `\((\d+) min\)` occurs nowhere; a capture is the digits of the leftmost occurrence |
| `SlotParse.PriceMatch` | packages/backend/src/services/padel.service.ts:239 | a match of `Prix: ([\d.]+)€` captures a non-empty text of digits and points |
| `SlotParse.PriceMatchLeftmost` | packages/backend/src/services/padel.service.ts:239 | no capture exactly when `Prix: ([\d.]+)€` occurs nowhere; a capture is the text of the leftmost occurrence |
| `SlotParse.StartTimeOf` | packages/backend/src/services/padel.service.ts:232-233 | the start time always has the shape "DD:DD" |
| `SlotParse.ParseSlotInfo` | packages/backend/src/services/padel.service.ts:226-254 | `fullInfo` is the input; the playground is the text before the first " - " (the whole input when there is none), or "Unknown Court" when that text is empty; start, duration and price are the patterns' captures, or "00:00", 60 and "0" when their pattern is missing; the end is start plus duration |
| `SlotParse.EndTimeFromMinutes` | packages/backend/src/services/padel.service.ts:243-245 | the end time is `minutesToTime(timeToMinutes(start) + duration)` |
| `SlotParse.DefaultEnd` | packages/backend/src/services/padel.service.ts:233-245 | the default slot from "00:00" for 60 minutes ends at "01:00" |
| `SlotParse.UnrecognisedFallsBack` | packages/backend/src/services/padel.service.ts:228-240 | a string with no pattern and no " - " keeps itself as the playground and takes every default |
| `SlotParse.EmptyFallsBack` | packages/backend/src/services/padel.service.ts:228-229 | the empty string parses with playground "Unknown Court" and every default |
| `SlotParse.FilterSlotsByTime` | packages/backend/src/services/padel.service.ts:215-224 | the result is no longer than the input |
| `SlotParse.FilterMembership` | packages/backend/src/services/padel.service.ts:215-224 | a parsed slot is kept exactly when it is the parse of some input and its start lies in [timeStart, timeEnd] |
| `SlotParse.FilterAppend` | packages/backend/src/services/padel.service.ts:219-223 | filtering distributes over concatenation, so input order is kept |
| `SlotParse.EmptyRange` | packages/backend/src/services/padel.service.ts:220-223 | with valid bounds and timeStart after timeEnd, nothing is kept |
| `SlotParse.ReversedMinutes` | packages/backend/src/services/padel.service.ts:216-223 | with any two readable bounds, well-formed or not ("9:00" reads as 540), nothing is kept when the start's minutes exceed the end's |
| `SlotParse.UnreadableBoundKeepsNothing` | packages/backend/src/services/padel.service.ts:216-222 | a bound that reads as NaN keeps nothing |
| `SlotRoundTrip.FirstSeparator` | packages/backend/src/services/padel.service.ts:228 | in a formatted line, the first " - " is the one after the court name |
| `SlotRoundTrip.ReadBackPlayground` | packages/backend/src/services/padel.service.ts:228-229 | the playground read back is the court name |
| `SlotRoundTrip.ReadBackStart` | packages/backend/src/services/padel.service.ts:232-233 | the start time read back is the printed `startAt` |
| `SlotRoundTrip.DurationMatchOfLine` | packages/backend/src/services/padel.service.ts:235-236 | the duration pattern captures the printed minutes |
| `SlotRoundTrip.PriceMatchOfLine` | packages/backend/src/services/padel.service.ts:239-240 | the price pattern captures the printed price |
| `SlotRoundTrip.LineRoundTrip` | packages/backend/src/services/padel.service.ts:226-254 | parsing a line built from name, start, duration text and price text gives back exactly those pieces and start + duration as end |
| `SlotRoundTrip.FormatParseRoundTrip` | packages/backend/src/services/padel.service.ts:226-254 | for an "HH:MM" start, a duration and a price that are not negative, and a court name meeting the conditions under Left out, parsing the line printed for a tier recovers court, start, duration, price text and end time, and the price text reads back as the tier's cents |
| `SlotRoundTrip.TrailingDashCutsName` | packages/backend/src/services/padel.service.ts:228-229 | a court name ending in " -" is cut short: "Court -" reads back as "Court" |
| `SlotRoundTrip.NegativeDurationReadsDefault` | packages/backend/src/services/padel.service.ts:235-236 | a tier with a negative duration prints "(-N min)", which the duration pattern does not match, so the parse reads 60 minutes |
| `SlotRoundTrip.NegativePriceReadsZero` | packages/backend/src/services/padel.service.ts:239-240 | a tier with a negative price prints "Prix: -…€", which the price pattern does not match, so the parse reads the price "0" |
| `SlotRoundTrip.MissingStartReadsMidnight` | packages/backend/src/services/padel.service.ts:232-233 | a slot without `startAt` (line 61) prints "Heure: N/A", which the time pattern does not match, so the parse reads the start "00:00" |
| `SlotRoundTrip.IntToStringChars` | packages/backend/src/services/padel.service.ts:67-73 | the printed minutes hold only digits and, when negative, a leading minus sign |
| `SlotRoundTrip.FormatCentsChars` | packages/backend/src/services/padel.service.ts:69-73 | the printed price holds only digits, a point and, when negative, a leading minus sign |
| `SlotRoundTrip.ExampleParse` | packages/backend/src/services/padel.service.ts:226-254 | 5400 s at 18:30 for 1250 cents on "Court 1" prints as "Court 1 - Heure: 18:30 (90 min), Prix: 12.50€" and parses back to 18:30–20:00, 90 min, "12.50" |
| `PadelController.ToNumber` | packages/backend/src/controllers/padel.controller.ts:46-48 | in this model, JavaScript's `Number()` of a body field: a number is itself, null and `[]` are 0, a string is a number exactly when it is a digit string, and undefined, objects and longer arrays are NaN |
| `PadelController.ValidateFilterRequest` | packages/backend/src/controllers/padel.controller.ts:42-56 | every rejection is a 400 carrying one of the four messages; a body passes exactly when the days, weeks, times and prior-weeks guards all hold |
| `PadelController.ValidationOrder` | packages/backend/src/controllers/padel.controller.ts:42-56 | every rejection is a 400; each message is returned iff its guard is the first to fail, in the order days, weeks, times, prior weeks; a body passes iff all four hold |
| `PadelController.NumericWeeksAhead` | packages/backend/src/controllers/padel.controller.ts:46-48 | a numeric `weeksAhead` passes iff it lies in [1, 4], fractions included |
| `PadelController.NaNWeeksAheadPasses` | packages/backend/src/controllers/padel.controller.ts:46-48 | a `weeksAhead` of "two" reads as NaN and is not rejected |
| `PadelController.SelectedDaysIncludes` | packages/backend/src/services/padel.service.ts:150 | `daysOfWeek.includes(d)` holds exactly when the array holds the number d |
| `PadelController.CheckFilteredAvailabilityHandler` | packages/backend/src/controllers/padel.controller.ts:38-60 | a body failing validation gets the first failing guard's error; any other body is searched and its result returned |
| `PadelController.ValidatedWindow` | packages/backend/src/controllers/padel.controller.ts:46-48 | after validation 1 ≤ weeksAhead ≤ 4; the window is all weeks from today, or exactly the last week |
| `PadelController.ResolveClub` | packages/backend/src/controllers/padel.controller.ts:11-21 | the club is found exactly when the parameter (or "mouratoglou" when it is missing or empty) is a key, and then its id is that key; otherwise a 400 listing the keys joined by ", " |
| `PadelController.DefaultClub` | packages/backend/src/controllers/padel.controller.ts:28-29 | a missing or empty club parameter selects Mouratoglou |
| `PadelController.KnownClub` | packages/backend/src/controllers/padel.controller.ts:18-21 | a key of `CLUBS` selects the club whose id it is |
| `PadelController.AvailableClubsText` | packages/backend/src/controllers/padel.controller.ts:20 | the keys joined by ", ", in declaration order |
| `PadelController.UnknownClub` | packages/backend/src/controllers/padel.controller.ts:18-21 | any other key is a 400 whose message lists all four keys |
| `PadelController.CheckAvailabilityForDate` | packages/backend/src/controllers/padel.controller.ts:9-25 | an invalid date is rejected first, then an unknown club; otherwise the day's availability is returned |
| `PadelController.CheckAvailabilityForNextDays` | packages/backend/src/controllers/padel.controller.ts:27-36 | an unknown club is rejected; otherwise the result is the eight entries of `checkMultipleDays` |
| `PadelController.GetClubs` | packages/backend/src/controllers/padel.controller.ts:70-79 | `total` is the number of entries and of registry keys, and each entry carries its key and its club |
| `PadelController.ClubsListed` | packages/backend/src/controllers/padel.controller.ts:70-79 | one entry per registry key, in order, each with its club's fields and its key; `total` is their count |
| `PadelController.FourClubs` | packages/backend/src/controllers/padel.controller.ts:70-79 | the configured listing has four clubs, Mouratoglou first |

## Left out

- The network call (`node-fetch`), the request URL, `response.json()` and all `console` output. The fetch result is the `fetch` parameter.
- JavaScript `Date`. Dates are day offsets, and today's weekday is a parameter. The source takes the date string from UTC `toISOString` and the weekday from local `getDay`, so the two can disagree by a day depending on the host time zone. That effect is not modelled. `DayAvailability.date` and `FilteredDayResult.date` hold the offset, not the "YYYY-MM-DD" string.
- `CheckAvailabilityForDate` takes the parsed date as `Option<int>`, where None is an invalid `Date`. Parsing the date string is not modelled.
- Floating point:
  - Prices are whole cents, and `priceInEuros.toFixed(2)` is written out on cents, so fractional cents from the planner are not modelled.
  - `SlotInfo.price` holds the matched price text instead of `parseFloat` of it. `PriceCents` gives that text's value in cents for the shape `toFixed(2)` prints.
- Regular expressions in general. Only the three fixed patterns are modelled, as searches for the leftmost match.
- Time.JsNumber: models `Number()` for the empty string and plain digit strings only. Strings with spaces, signs, decimals or exponents read as NaN here, while JavaScript reads `Number(" 7")` as 7 and `Number("1.5")` as 1.5.
- PadelController.ToNumber: the same restriction for string fields, so a `weeksAhead` of "2.5" or " 3" reads as NaN here and as a number in JavaScript.
- PadelController.CheckFilteredAvailabilityHandler: requires that a body passing validation has the declared field types, which the source does not demand:
  - an integer `weeksAhead`;
  - string `timeStart` and `timeEnd`;
  - a boolean flag.
- PadelController.CheckFilteredAvailabilityHandler: effects of untyped bodies are not modelled:
  - A body such as `weeksAhead: "two"` or `2.5` passes validation, and the source then searches with that value. `NaNWeeksAheadPasses` shows the first half.
  - The `catch` at padel.service.ts:191-193 can only be reached with a non-string time bound, so it is unreachable in the model.
  - `searchCriteria` is the typed request rather than the raw body object.
- PadelTypes.Lookup: `CLUBS[key]` in JavaScript also finds keys inherited from `Object.prototype`, so `CLUBS["constructor"]` is a function, not undefined. The model only knows the record's own keys.
- PadelController.UnknownClub: for the same reason, an inherited key such as "constructor" is truthy in JavaScript and would not be rejected.
- PadelTypes.Assign: JavaScript enumerates array-index keys ("0", "42") first, in numeric order, whatever the insertion order. The model always appends a new key, so it holds only for keys that are not array indices. Club ids are not, so `CLUBS` and `resultsByClub` are unaffected; `ResultsByClubTable`, `TableSummary` and `RegistrySummary` match JavaScript only for registries whose ids are not array indices.
- PadelService.WeekListsSelectedDay: holds with today fixed for the whole search. The source reads `new Date()` again for every day (padel.service.ts:144, and :113 in `checkMultipleDays`), so a search running across midnight shifts the later offsets by one day and can skip or repeat a weekday.
- PadelService.WeekListsDayOnce: holds with today fixed for the whole search, for the same reason.
- PadelService.LastWeekListsEachSelectedDayOnce: holds with today fixed for the whole search, for the same reason.
- PadelService.CheckMultipleDays: the entries are dated from one fixed today; a run across midnight would date the later entries one day later.
- `getHealthCheck`, `startAutomaticChecks`, `stopAutomaticChecks`, `runManualCheck`, the cron jobs, the Express routes and app, the error-handler middleware, the logger and the frontend. They are wiring, scheduling or UI.
- The routes never bind `:club`, so in the running service the club parameter is always missing and `DefaultClub` applies. The model keeps the parameter so that the lookup can be stated.
- The playground of a parsed slot (padel.service.ts:228-229) is the text before the first " - ", or the whole string when it has none. "Unknown Court" is used only when that text is empty, that is for the empty string or a string starting with " - ". A string without recognisable patterns therefore keeps itself as its playground: see `UnrecognisedFallsBack` and `EmptyFallsBack`.
- SlotRoundTrip.FormatParseRoundTrip: holds only under these conditions:
  - for the court name: it is non-empty, has no " - " and does not end in " -" (`TrailingDashCutsName` shows why the last is needed);
  - for the other fields, the court name holds no "Heure: " (start), no "(" (duration) and no "Prix: " (price);
  - the start is an "HH:MM" string;
  - the duration in minutes and the price in cents are not negative.
  Outside the last two, the source's round trip fails: see `MissingStartReadsMidnight`, `NegativeDurationReadsDefault` and `NegativePriceReadsZero`.
