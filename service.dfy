/**
 * `PadelService`: one availability check for a club and a day, the eight-day
 * window, and the filtered search over every club, selected weekdays and a
 * time range. The upstream planning call is the `fetch` parameter, today's
 * weekday (`new Date().getDay()`) is `todayDow`, and a date is the number of
 * days after today.
 */
module PadelService {
  import opened Wrappers
  import opened Strings
  import opened Time
  import opened PadelTypes
  import opened SlotFormat
  import opened SlotParse
  import opened Config

  // ---- checkAvailabilityApi ----

  lemma PlaygroundsStep(pgs: seq<Playground>, i: nat)
    requires i < |pgs|
    ensures PlaygroundsLines(pgs[..i + 1]) == PlaygroundsLines(pgs[..i]) + PlaygroundLines(pgs[i])
  {
    assert pgs[..i + 1][..i] == pgs[..i];
  }

  lemma SlotsStep(name: string, slots: seq<Slot>, j: nat)
    requires j < |slots|
    ensures SlotsLines(name, slots[..j + 1])
         == SlotsLines(name, slots[..j]) + PriceLines(name, StartLabel(slots[j].startAt), PricesOf(slots[j]))
  {
    assert slots[..j + 1][..j] == slots[..j];
  }

  lemma PricesStep(name: string, startTime: string, prices: seq<PriceInfo>, k: nat)
    requires k < |prices|
    ensures PriceLines(name, startTime, prices[..k + 1])
         == PriceLines(name, startTime, prices[..k])
            + (if prices[k].bookable then [SlotLine(name, startTime, prices[k])] else [])
  {
    assert prices[..k + 1][..k] == prices[..k];
  }

  /**
   * The body of the slot loop: when some price tier of `slot` is bookable, one
   * string per bookable tier, in order; otherwise nothing.
   */
  method SlotLines(name: string, slot: Slot) returns (lines: seq<string>)
    ensures lines == PriceLines(name, StartLabel(slot.startAt), PricesOf(slot))
  {
    var prices := PricesOf(slot);
    var isBookable := false;
    var k := 0;
    while k < |prices|
      invariant 0 <= k <= |prices| && !isBookable
      invariant forall q :: 0 <= q < k ==> !prices[q].bookable
    {
      if prices[k].bookable {
        isBookable := true;
        break;
      }
      k := k + 1;
    }
    var startTime := StartLabel(slot.startAt);
    lines := [];
    if isBookable {
      var n := 0;
      while n < |prices|
        invariant 0 <= n <= |prices|
        invariant lines == PriceLines(name, startTime, prices[..n])
      {
        PricesStep(name, startTime, prices, n);
        if prices[n].bookable {
          lines := lines + [SlotLine(name, startTime, prices[n])];
        }
        n := n + 1;
      }
      assert prices[..n] == prices;
    } else {
      NoBookableNoLines(name, startTime, prices);
    }
  }

  /** The body of the playground loop: the strings of every slot of the first activity. */
  method PlaygroundSlotLines(pg: Playground) returns (lines: seq<string>)
    ensures lines == PlaygroundLines(pg)
  {
    var name := NameLabel(pg.name);
    var activitySlots := FirstActivitySlots(pg);
    lines := [];
    if activitySlots.Some? {
      var slots := activitySlots.value;
      var j := 0;
      while j < |slots|
        invariant 0 <= j <= |slots|
        invariant lines == SlotsLines(name, slots[..j])
      {
        var more := SlotLines(name, slots[j]);
        SlotsStep(name, slots, j);
        lines := lines + more;
        j := j + 1;
      }
      assert slots[..j] == slots;
    }
  }

  /**
   * `checkAvailabilityApi(date, club)` for the day `day` days after today: the
   * slot strings of every bookable price tier, built playground by playground,
   * slot by slot and tier by tier; a slot with no bookable tier is skipped.
   */
  method CheckAvailabilityApi(club: ClubConfig, day: int, fetch: Fetcher) returns (r: AvailabilityResult)
    ensures r == Availability(fetch(club, day))
  {
    var response := fetch(club, day);
    if response.None? {
      return AvailabilityResult(false, []);
    }
    var data := response.value;
    var availableSlots: seq<string> := [];
    if data.members.Some? {
      var pgs := data.members.value;
      var i := 0;
      while i < |pgs|
        invariant 0 <= i <= |pgs|
        invariant availableSlots == PlaygroundsLines(pgs[..i])
      {
        var more := PlaygroundSlotLines(pgs[i]);
        PlaygroundsStep(pgs, i);
        availableSlots := availableSlots + more;
        i := i + 1;
      }
      assert pgs[..i] == pgs;
    }
    if |availableSlots| > 0 {
      r := AvailabilityResult(true, availableSlots);
    } else {
      r := AvailabilityResult(false, []);
    }
  }

  // ---- checkMultipleDays ----

  /** The entry `checkMultipleDays` records for the day `i` days after today. */
  function DayEntry(club: ClubConfig, fetch: Fetcher, i: int): DayAvailability
  {
    var a := Availability(fetch(club, i));
    DayAvailability(i, a.available, a.slots)
  }

  /**
   * `checkMultipleDays(club)`: today and the next `DAYS_TO_CHECK - 1` days, in
   * order, each with the outcome of its availability check.
   */
  method CheckMultipleDays(club: ClubConfig, fetch: Fetcher) returns (results: seq<DayAvailability>)
    ensures |results| == DaysToCheck
    ensures forall i :: 0 <= i < |results| ==> results[i] == DayEntry(club, fetch, i)
  {
    results := [];
    var i := 0;
    while i < DaysToCheck
      invariant 0 <= i <= DaysToCheck && |results| == i
      invariant forall k :: 0 <= k < i ==> results[k] == DayEntry(club, fetch, k)
    {
      var result := CheckAvailabilityApi(club, i, fetch);
      results := results + [DayAvailability(i, result.available, result.slots)];
      i := i + 1;
    }
  }

  /** Each entry of the window is dated by its position and is available exactly when it lists a slot. */
  lemma DayEntryFacts(club: ClubConfig, fetch: Fetcher, i: int)
    ensures DayEntry(club, fetch, i).date == i
    ensures DayEntry(club, fetch, i).available <==> |DayEntry(club, fetch, i).slots| > 0
    ensures fetch(club, i).Some? ==> DayEntry(club, fetch, i).slots == ResponseLines(fetch(club, i).value)
    ensures fetch(club, i).None? ==> DayEntry(club, fetch, i).slots == []
  {
  }

  // ---- checkFilteredAvailability: specification ----

  /** `date.getDay()` for the day `i` days after a day whose weekday is `todayDow`. */
  function WeekdayOf(todayDow: int, i: int): int
  {
    (todayDow + i) % 7
  }

  /** The first day offset searched: 0 with `includePriorWeeks`, else the first day of the last week. */
  function StartDay(req: FilterRequest): int
  {
    if req.includePriorWeeks then 0 else (req.weeksAhead - 1) * 7
  }

  /** One past the last day offset searched. */
  function EndDay(req: FilterRequest): int
  {
    req.weeksAhead * 7
  }

  /** What the search does with one day: skip it, or record it among the days with or without slots. */
  datatype DayOutcome = Skipped | Matched(day: FilteredDayResult) | Unmatched(day: FilteredDayResult)

  /**
   * A day is skipped exactly when its weekday is not selected; a listed day
   * carries its offset, its weekday and that weekday's name, and is listed
   * with slots only when it has some.
   */
  function DayOutcomeOf(req: FilterRequest, club: ClubConfig, todayDow: int, fetch: Fetcher, i: int): (o: DayOutcome)
    ensures o.Skipped? <==> WeekdayOf(todayDow, i) !in req.daysOfWeek
    ensures !o.Skipped? ==> o.day.date == i && o.day.dayOfWeek == WeekdayOf(todayDow, i)
    ensures o.Matched? ==> o.day.slots != []
    ensures o.Unmatched? ==> o.day.slots == []
  {
    var dow := WeekdayOf(todayDow, i);
    if dow !in req.daysOfWeek then Skipped
    else
      var a := Availability(fetch(club, i));
      var noSlots := FilteredDayResult(i, DaysOfWeekNames[dow], dow, []);
      if a.available && |a.slots| > 0 then
        var kept := FilterSlotsByTime(a.slots, req.timeStart, req.timeEnd);
        if |kept| > 0 then Matched(FilteredDayResult(i, DaysOfWeekNames[dow], dow, kept)) else Unmatched(noSlots)
      else Unmatched(noSlots)
  }

  /**
   * A selected day is listed with slots exactly when some slot of its
   * availability check starts within the time range, and then with exactly
   * those slots.
   */
  lemma DayOutcomeFacts(req: FilterRequest, club: ClubConfig, todayDow: int, fetch: Fetcher, i: int)
    ensures var o := DayOutcomeOf(req, club, todayDow, fetch, i);
            var kept := FilterSlotsByTime(Availability(fetch(club, i)).slots, req.timeStart, req.timeEnd);
            (o.Matched? <==> WeekdayOf(todayDow, i) in req.daysOfWeek && kept != [])
            && (o.Matched? ==> o.day.slots == kept)
            && (!o.Skipped? ==> 0 <= o.day.dayOfWeek < 7 && o.day.dayName == DayName(o.day.dayOfWeek))
  {
    var a := Availability(fetch(club, i));
    if !(a.available && |a.slots| > 0) {
      assert a.slots == [];
      assert FilterSlotsByTime(a.slots, req.timeStart, req.timeEnd) == [];
    }
  }

  /** The outcome of every day for one club and one request. */
  function DayOutcomes(req: FilterRequest, club: ClubConfig, todayDow: int, fetch: Fetcher): int -> DayOutcome
  {
    i => DayOutcomeOf(req, club, todayDow, fetch, i)
  }

  /** The two lists a club's search builds. */
  datatype Scan = Scan(results: seq<FilteredDayResult>, noSlots: seq<FilteredDayResult>)

  /** Files one day's outcome: a day with slots goes to the results, one without to the empty days. */
  function Record(s: Scan, o: DayOutcome): Scan
  {
    match o
    case Skipped => s
    case Matched(d) => Scan(s.results + [d], s.noSlots)
    case Unmatched(d) => Scan(s.results, s.noSlots + [d])
  }

  /** The lists built by visiting the days `lo` up to `hi - 1` in order. */
  function ScanDays(outcome: int -> DayOutcome, lo: int, hi: int): Scan
    decreases hi - lo
  {
    if hi <= lo then Scan([], []) else Record(ScanDays(outcome, lo, hi - 1), outcome(hi - 1))
  }

  /** `results.reduce((total, day) => total + day.slots.length, 0)`. */
  function TotalSlots(days: seq<FilteredDayResult>): nat
  {
    if days == [] then 0 else TotalSlots(days[..|days| - 1]) + |days[|days| - 1].slots|
  }

  function ClubResultsOf(req: FilterRequest, club: ClubConfig, todayDow: int, fetch: Fetcher): ClubResults
  {
    var s := ScanDays(DayOutcomes(req, club, todayDow, fetch), StartDay(req), EndDay(req));
    ClubResults(s.results, s.noSlots, TotalSlots(s.results))
  }

  /** The search of every club for one request. */
  function ClubSearches(req: FilterRequest, todayDow: int, fetch: Fetcher): ClubConfig -> ClubResults
  {
    club => ClubResultsOf(req, club, todayDow, fetch)
  }

  /** `resultsByClub` after the clubs of `clubs` were searched in order. */
  function ResultsByClub(search: ClubConfig -> ClubResults, clubs: Registry): seq<(string, ClubResults)>
  {
    if clubs == [] then []
    else
      var club := clubs[|clubs| - 1].1;
      Assign(ResultsByClub(search, clubs[..|clubs| - 1]), club.id, search(club))
  }

  /** `Object.values(resultsByClub).reduce((total, c) => total + c.totalSlots, 0)`. */
  function ClubsTotal(byClub: seq<(string, ClubResults)>): nat
  {
    if byClub == [] then 0 else ClubsTotal(byClub[..|byClub| - 1]) + byClub[|byClub| - 1].1.totalSlots
  }

  function FilteredAvailability(req: FilterRequest, todayDow: int, fetch: Fetcher): FilteredAvailabilityResult
  {
    var byClub := ResultsByClub(ClubSearches(req, todayDow, fetch), Clubs);
    FilteredAvailabilityResult(true, byClub, ClubsTotal(byClub), req)
  }

  // ---- checkFilteredAvailability: the loops ----

  lemma ScanStep(outcome: int -> DayOutcome, lo: int, i: int)
    requires lo <= i
    ensures ScanDays(outcome, lo, i + 1) == Record(ScanDays(outcome, lo, i), outcome(i))
  {
  }

  /** Filing the outcome of day `i` into the lists built so far gives the lists up to day `i`. */
  lemma RecordStep(outcome: int -> DayOutcome, lo: int, i: int, s: Scan, o: DayOutcome)
    requires lo <= i && s == ScanDays(outcome, lo, i) && o == outcome(i)
    ensures Record(s, o) == ScanDays(outcome, lo, i + 1)
  {
    ScanStep(outcome, lo, i);
  }

  /** The body of the day loop: skip an unselected weekday, else check the day and filter its slots. */
  method CheckDay(req: FilterRequest, club: ClubConfig, todayDow: int, fetch: Fetcher, i: int) returns (o: DayOutcome)
    ensures o == DayOutcomes(req, club, todayDow, fetch)(i)
  {
    var dayOfWeek := (todayDow + i) % 7;
    if dayOfWeek !in req.daysOfWeek {
      return Skipped;
    }
    var availability := CheckAvailabilityApi(club, i, fetch);
    if availability.available && |availability.slots| > 0 {
      var filteredSlots := FilterSlotsByTime(availability.slots, req.timeStart, req.timeEnd);
      if |filteredSlots| > 0 {
        o := Matched(FilteredDayResult(i, DaysOfWeekNames[dayOfWeek], dayOfWeek, filteredSlots));
      } else {
        o := Unmatched(FilteredDayResult(i, DaysOfWeekNames[dayOfWeek], dayOfWeek, []));
      }
    } else {
      o := Unmatched(FilteredDayResult(i, DaysOfWeekNames[dayOfWeek], dayOfWeek, []));
    }
  }

  /** The day loop of one club: visit `startDay` up to `endDay - 1`, filing each selected day. */
  method SearchClub(req: FilterRequest, club: ClubConfig, todayDow: int, fetch: Fetcher) returns (c: ClubResults)
    ensures c == ClubResultsOf(req, club, todayDow, fetch)
  {
    ghost var outcome := DayOutcomes(req, club, todayDow, fetch);
    var results: seq<FilteredDayResult> := [];
    var daysWithNoSlots: seq<FilteredDayResult> := [];
    var startDay := if req.includePriorWeeks then 0 else (req.weeksAhead - 1) * 7;
    var endDay := req.weeksAhead * 7;
    var i := startDay;
    while i < endDay
      invariant startDay <= i && (i <= endDay || i == startDay)
      invariant Scan(results, daysWithNoSlots) == ScanDays(outcome, startDay, i)
      decreases endDay - i
    {
      var day := CheckDay(req, club, todayDow, fetch, i);
      RecordStep(outcome, startDay, i, Scan(results, daysWithNoSlots), day);
      match day {
        case Skipped =>
        case Matched(d) => results := results + [d];
        case Unmatched(d) => daysWithNoSlots := daysWithNoSlots + [d];
      }
      i := i + 1;
    }
    c := ClubResults(results, daysWithNoSlots, TotalSlots(results));
  }

  lemma ResultsByClubStep(search: ClubConfig -> ClubResults, clubs: Registry, c: nat)
    requires c < |clubs|
    ensures ResultsByClub(search, clubs[..c + 1]) == Assign(ResultsByClub(search, clubs[..c]), clubs[c].1.id, search(clubs[c].1))
  {
    assert clubs[..c + 1][..c] == clubs[..c];
  }

  /**
   * `checkFilteredAvailability(filterRequest)`: every configured club is
   * searched in turn, its results stored under its id, and the slot counts
   * summed over the clubs.
   */
  method CheckFilteredAvailability(req: FilterRequest, todayDow: int, fetch: Fetcher) returns (r: FilteredAvailabilityResult)
    ensures r == FilteredAvailability(req, todayDow, fetch)
  {
    ghost var search := ClubSearches(req, todayDow, fetch);
    var resultsByClub: seq<(string, ClubResults)> := [];
    var c := 0;
    while c < |Clubs|
      invariant 0 <= c <= |Clubs|
      invariant resultsByClub == ResultsByClub(search, Clubs[..c])
    {
      var club := Clubs[c].1;
      var clubResults := SearchClub(req, club, todayDow, fetch);
      ResultsByClubStep(search, Clubs, c);
      resultsByClub := Assign(resultsByClub, club.id, clubResults);
      c := c + 1;
    }
    assert Clubs[..c] == Clubs;
    var totalSlots := ClubsTotal(resultsByClub);
    r := FilteredAvailabilityResult(true, resultsByClub, totalSlots, req);
  }

  // ---- checkFilteredAvailability: properties ----

  /** Every recorded day carries its own offset as its date. */
  ghost predicate Dated(outcome: int -> DayOutcome)
  {
    forall i :: !outcome(i).Skipped? ==> outcome(i).day.date == i
  }

  lemma OutcomesDated(req: FilterRequest, club: ClubConfig, todayDow: int, fetch: Fetcher)
    ensures Dated(DayOutcomes(req, club, todayDow, fetch))
  {
    forall i ensures !DayOutcomes(req, club, todayDow, fetch)(i).Skipped? ==> DayOutcomes(req, club, todayDow, fetch)(i).day.date == i {
    }
  }

  /** Every listed day lies in the window and is listed as its own outcome says. */
  lemma {:induction false} ScanEntries(outcome: int -> DayOutcome, lo: int, hi: int)
    requires Dated(outcome)
    ensures var s := ScanDays(outcome, lo, hi);
            (forall d :: d in s.results ==> lo <= d.date < hi && outcome(d.date) == Matched(d))
            && (forall d :: d in s.noSlots ==> lo <= d.date < hi && outcome(d.date) == Unmatched(d))
    decreases hi - lo
  {
    if lo < hi {
      ScanEntries(outcome, lo, hi - 1);
    }
  }

  /** Every day of the window that is not skipped is listed. */
  lemma {:induction false} ScanComplete(outcome: int -> DayOutcome, lo: int, hi: int)
    ensures var s := ScanDays(outcome, lo, hi);
            forall i :: lo <= i < hi ==>
              (outcome(i).Matched? ==> outcome(i).day in s.results) && (outcome(i).Unmatched? ==> outcome(i).day in s.noSlots)
    decreases hi - lo
  {
    if lo < hi {
      ScanComplete(outcome, lo, hi - 1);
    }
  }

  /** Both lists are in increasing date order, so no day is listed twice. */
  lemma {:induction false} ScanOrdered(outcome: int -> DayOutcome, lo: int, hi: int)
    requires Dated(outcome)
    ensures var s := ScanDays(outcome, lo, hi);
            (forall j, k :: 0 <= j < k < |s.results| ==> s.results[j].date < s.results[k].date)
            && (forall j, k :: 0 <= j < k < |s.noSlots| ==> s.noSlots[j].date < s.noSlots[k].date)
    decreases hi - lo
  {
    if lo < hi {
      ScanOrdered(outcome, lo, hi - 1);
      ScanEntries(outcome, lo, hi - 1);
      var s := ScanDays(outcome, lo, hi - 1);
      assert forall j :: 0 <= j < |s.results| ==> s.results[j] in s.results;
      assert forall j :: 0 <= j < |s.noSlots| ==> s.noSlots[j] in s.noSlots;
    }
  }

  /**
   * A club's search lists with slots exactly the days of the window with a
   * matching slot, and without slots exactly the other selected days, each in
   * date order.
   */
  lemma ClubSearch(req: FilterRequest, club: ClubConfig, todayDow: int, fetch: Fetcher, d: FilteredDayResult)
    ensures var c := ClubResultsOf(req, club, todayDow, fetch);
            (d in c.results <==> StartDay(req) <= d.date < EndDay(req) && DayOutcomeOf(req, club, todayDow, fetch, d.date) == Matched(d))
            && (d in c.daysWithNoSlots <==> StartDay(req) <= d.date < EndDay(req) && DayOutcomeOf(req, club, todayDow, fetch, d.date) == Unmatched(d))
            && (forall j, k :: 0 <= j < k < |c.results| ==> c.results[j].date < c.results[k].date)
            && (forall j, k :: 0 <= j < k < |c.daysWithNoSlots| ==> c.daysWithNoSlots[j].date < c.daysWithNoSlots[k].date)
  {
    var outcome := DayOutcomes(req, club, todayDow, fetch);
    OutcomesDated(req, club, todayDow, fetch);
    ScanEntries(outcome, StartDay(req), EndDay(req));
    ScanComplete(outcome, StartDay(req), EndDay(req));
    ScanOrdered(outcome, StartDay(req), EndDay(req));
    assert outcome(d.date) == DayOutcomeOf(req, club, todayDow, fetch, d.date);
  }

  /** Two days less than a week apart fall on different weekdays. */
  lemma SameWeekdayWithinAWeek(todayDow: int, i: int, j: int)
    requires i <= j < i + 7 && WeekdayOf(todayDow, i) == WeekdayOf(todayDow, j)
    ensures i == j
  {
    var a, b := todayDow + i, todayDow + j;
    assert a == 7 * (a / 7) + a % 7;
    assert b == 7 * (b / 7) + b % 7;
  }

  /** Any seven consecutive days contain every weekday. */
  lemma WeekHasWeekday(todayDow: int, lo: int, dow: int)
    requires 0 <= dow < 7
    ensures var i := lo + (dow - todayDow - lo) % 7;
            lo <= i < lo + 7 && WeekdayOf(todayDow, i) == dow
  {
    var x := dow - todayDow - lo;
    var i := lo + x % 7;
    assert x == 7 * (x / 7) + x % 7;
    var y := todayDow + i;
    assert y == dow - 7 * (x / 7);
    assert y == 7 * (y / 7) + y % 7;
  }

  /** An entry of either list of a club. */
  predicate Listed(c: ClubResults, d: FilteredDayResult)
  {
    d in c.results || d in c.daysWithNoSlots
  }

  /** Each selected weekday is listed once in every week-long stretch of the window. */
  lemma WeekListsSelectedDay(req: FilterRequest, club: ClubConfig, todayDow: int, fetch: Fetcher, lo: int, dow: int)
    requires StartDay(req) <= lo && lo + 7 <= EndDay(req)
    requires 0 <= dow < 7 && dow in req.daysOfWeek
    ensures exists d :: Listed(ClubResultsOf(req, club, todayDow, fetch), d) && lo <= d.date < lo + 7 && d.dayOfWeek == dow
  {
    WeekHasWeekday(todayDow, lo, dow);
    var i := lo + (dow - todayDow - lo) % 7;
    var d := DayOutcomeOf(req, club, todayDow, fetch, i).day;
    ClubSearch(req, club, todayDow, fetch, d);
    assert Listed(ClubResultsOf(req, club, todayDow, fetch), d);
  }

  /** Two listed days of the same weekday less than a week apart are the same entry. */
  lemma WeekListsDayOnce(req: FilterRequest, club: ClubConfig, todayDow: int, fetch: Fetcher, lo: int,
                         d1: FilteredDayResult, d2: FilteredDayResult)
    requires Listed(ClubResultsOf(req, club, todayDow, fetch), d1) && Listed(ClubResultsOf(req, club, todayDow, fetch), d2)
    requires lo <= d1.date < lo + 7 && lo <= d2.date < lo + 7
    requires d1.dayOfWeek == d2.dayOfWeek
    ensures d1 == d2
  {
    ClubSearch(req, club, todayDow, fetch, d1);
    ClubSearch(req, club, todayDow, fetch, d2);
    if d1.date <= d2.date {
      SameWeekdayWithinAWeek(todayDow, d1.date, d2.date);
    } else {
      SameWeekdayWithinAWeek(todayDow, d2.date, d1.date);
    }
  }

  /**
   * Without `includePriorWeeks` the window is the last week alone, so each
   * selected weekday is listed exactly once, with or without slots.
   */
  lemma LastWeekListsEachSelectedDayOnce(req: FilterRequest, club: ClubConfig, todayDow: int, fetch: Fetcher, dow: int)
    requires !req.includePriorWeeks && 0 <= dow < 7 && dow in req.daysOfWeek
    ensures var c := ClubResultsOf(req, club, todayDow, fetch);
            (exists d :: Listed(c, d) && d.dayOfWeek == dow)
            && (forall d1, d2 :: Listed(c, d1) && Listed(c, d2) && d1.dayOfWeek == dow && d2.dayOfWeek == dow ==> d1 == d2)
  {
    var c := ClubResultsOf(req, club, todayDow, fetch);
    var lo := StartDay(req);
    WeekListsSelectedDay(req, club, todayDow, fetch, lo, dow);
    forall d1, d2 | Listed(c, d1) && Listed(c, d2) && d1.dayOfWeek == dow && d2.dayOfWeek == dow
      ensures d1 == d2
    {
      ClubSearch(req, club, todayDow, fetch, d1);
      ClubSearch(req, club, todayDow, fetch, d2);
      WeekListsDayOnce(req, club, todayDow, fetch, lo, d1, d2);
    }
  }

  /** When every listed day has a slot, the total counts at least one slot per day. */
  lemma {:induction false} TotalSlotsAtLeastDays(days: seq<FilteredDayResult>)
    requires forall k :: 0 <= k < |days| ==> |days[k].slots| > 0
    ensures TotalSlots(days) >= |days|
  {
    if days != [] {
      TotalSlotsAtLeastDays(days[..|days| - 1]);
    }
  }

  /** A club's total counts the slots of its days with slots; it is zero exactly when there are none. */
  lemma ClubTotal(req: FilterRequest, club: ClubConfig, todayDow: int, fetch: Fetcher)
    ensures var c := ClubResultsOf(req, club, todayDow, fetch);
            c.totalSlots >= |c.results| && (c.totalSlots == 0 <==> c.results == [])
  {
    var c := ClubResultsOf(req, club, todayDow, fetch);
    forall k | 0 <= k < |c.results| ensures |c.results[k].slots| > 0 {
      var d := c.results[k];
      ClubSearch(req, club, todayDow, fetch, d);
    }
    TotalSlotsAtLeastDays(c.results);
  }

  lemma WellFormedPrefix(clubs: Registry, n: nat)
    requires WellFormedRegistry(clubs) && n <= |clubs|
    ensures WellFormedRegistry(clubs[..n])
  {
  }

  /** The key of a later club is not among the keys of a table of earlier ones. */
  lemma FreshKey(clubs: Registry, prev: seq<(string, ClubResults)>, n: nat)
    requires WellFormedRegistry(clubs) && n < |clubs| && |prev| == n
    requires forall k :: 0 <= k < n ==> prev[k].0 == clubs[k].0
    ensures clubs[n].1.id !in Keys(prev)
  {
    forall k | 0 <= k < n ensures Keys(prev)[k] != clubs[n].1.id {
      assert Keys(prev)[k] == clubs[k].0;
    }
  }

  /** A table for all clubs but the last, extended by the last club under its own id. */
  lemma TableExtends(search: ClubConfig -> ClubResults, clubs: Registry, prev: seq<(string, ClubResults)>)
    requires WellFormedRegistry(clubs) && |prev| + 1 == |clubs|
    requires forall k :: 0 <= k < |prev| ==> prev[k] == (clubs[k].0, search(clubs[k].1))
    ensures var byClub := prev + [(clubs[|prev|].1.id, search(clubs[|prev|].1))];
            forall k :: 0 <= k < |clubs| ==> byClub[k] == (clubs[k].0, search(clubs[k].1))
  {
  }

  /** With distinct ids, storing each club under its id appends one entry per club, in order. */
  lemma {:induction false} ResultsByClubTable(search: ClubConfig -> ClubResults, clubs: Registry)
    requires WellFormedRegistry(clubs)
    ensures var byClub := ResultsByClub(search, clubs);
            |byClub| == |clubs| && forall k :: 0 <= k < |clubs| ==> byClub[k] == (clubs[k].0, search(clubs[k].1))
  {
    if clubs != [] {
      var n := |clubs| - 1;
      var front := clubs[..n];
      WellFormedPrefix(clubs, n);
      ResultsByClubTable(search, front);
      var prev := ResultsByClub(search, front);
      forall k | 0 <= k < n ensures prev[k] == (clubs[k].0, search(clubs[k].1)) {
        assert front[k] == clubs[k];
      }
      FreshKey(clubs, prev, n);
      assert ResultsByClub(search, clubs) == prev + [(clubs[n].1.id, search(clubs[n].1))];
      TableExtends(search, clubs, prev);
    }
  }

  /** The sum over the clubs is zero exactly when every club's total is. */
  lemma {:induction false} ClubsTotalZero(byClub: seq<(string, ClubResults)>)
    ensures ClubsTotal(byClub) == 0 <==> forall k :: 0 <= k < |byClub| ==> byClub[k].1.totalSlots == 0
  {
    if byClub != [] {
      var n := |byClub| - 1;
      ClubsTotalZero(byClub[..n]);
      assert forall k :: 0 <= k < n ==> byClub[..n][k] == byClub[k];
    }
  }

  /** The table of a well-formed registry, and its total. */
  lemma TableSummary(search: ClubConfig -> ClubResults, clubs: Registry)
    requires WellFormedRegistry(clubs)
    ensures var byClub := ResultsByClub(search, clubs);
            |byClub| == |clubs|
            && (forall k :: 0 <= k < |clubs| ==> byClub[k] == (clubs[k].0, search(clubs[k].1)))
            && (ClubsTotal(byClub) == 0 <==> forall k :: 0 <= k < |clubs| ==> search(clubs[k].1).totalSlots == 0)
  {
    ResultsByClubTable(search, clubs);
    ClubsTotalZero(ResultsByClub(search, clubs));
  }

  /** Over any well-formed registry, the search total is zero exactly when no club has a day with slots. */
  lemma RegistrySummary(req: FilterRequest, todayDow: int, fetch: Fetcher, reg: Registry)
    requires WellFormedRegistry(reg)
    ensures var byClub := ResultsByClub(ClubSearches(req, todayDow, fetch), reg);
            |byClub| == |reg|
            && (forall k :: 0 <= k < |reg| ==> byClub[k] == (reg[k].0, ClubResultsOf(req, reg[k].1, todayDow, fetch)))
            && (ClubsTotal(byClub) == 0 <==> forall k :: 0 <= k < |byClub| ==> byClub[k].1.results == [])
  {
    var search := ClubSearches(req, todayDow, fetch);
    TableSummary(search, reg);
    forall k | 0 <= k < |reg| ensures search(reg[k].1).totalSlots == 0 <==> search(reg[k].1).results == [] {
      ClubTotal(req, reg[k].1, todayDow, fetch);
    }
  }

  /**
   * The filtered search succeeds, echoes the request, holds one entry per
   * configured club under its key and in registry order, and finds no slot
   * at all exactly when no club has a day with slots.
   */
  lemma FilteredSummary(req: FilterRequest, todayDow: int, fetch: Fetcher)
    ensures var r := FilteredAvailability(req, todayDow, fetch);
            r.success && r.searchCriteria == req
            && |r.resultsByClub| == |Clubs|
            && (forall k :: 0 <= k < |Clubs| ==> r.resultsByClub[k] == (Clubs[k].0, ClubResultsOf(req, Clubs[k].1, todayDow, fetch)))
            && (r.totalSlots == 0 <==> forall k :: 0 <= k < |r.resultsByClub| ==> r.resultsByClub[k].1.results == [])
  {
    ClubsWellFormed();
    RegistrySummary(req, todayDow, fetch, Clubs);
  }
}
