/**
 * `PadelController`: the guard clauses of the three availability endpoints
 * and the club listing. A request body is a JSON object, read field by field
 * with JavaScript's truthiness, `Array.isArray`, `typeof` and relational
 * comparison; a thrown `AppError` is the `Err` outcome.
 */
module PadelController {
  import opened Wrappers
  import opened Strings
  import opened PadelTypes
  import opened SlotFormat
  import opened Config
  import opened PadelService

  /** A decoded JSON value, plus JavaScript's `undefined` for a missing field. */
  datatype Json =
    | JUndefined
    | JNull
    | JBool(b: bool)
    | JNumber(n: real)
    | JString(s: string)
    | JArray(items: seq<Json>)
    | JObject(fields: map<string, Json>)

  /** `new AppError(statusCode, message)`. */
  datatype AppError = AppError(statusCode: int, message: string)

  /** The request body: `req.body` as decoded from JSON. */
  type Body = map<string, Json>

  /** `body.key`: a missing field reads as `undefined`. */
  function Field(body: Body, key: string): Json
  {
    if key in body then body[key] else JUndefined
  }

  /** JavaScript truthiness: false, 0, "" , null and undefined are falsy. */
  predicate Truthy(v: Json)
  {
    match v
    case JUndefined => false
    case JNull => false
    case JBool(b) => b
    case JNumber(n) => n != 0.0
    case JString(s) => s != ""
    case JArray(_) => true
    case JObject(_) => true
  }

  /**
   * `Number(v)` as a relational comparison applies it; None is NaN. Strings
   * are read as plain decimal digit strings ("" is 0); an array is read through
   * its comma-joined text, so `[]` is 0, `[x]` is x read as text and longer
   * arrays are NaN.
   */
  function ToNumber(v: Json): (r: Option<real>)
    ensures v.JNumber? ==> r == Some(v.n)
    ensures v.JNull? || (v.JArray? && v.items == []) ==> r == Some(0.0)
    ensures v.JString? ==> (r.Some? <==> AllDigits(v.s)) && (r.Some? ==> r.value == DecimalValue(v.s) as real)
    ensures v.JUndefined? || v.JObject? || (v.JArray? && |v.items| > 1) ==> r.None?
  {
    match v
    case JUndefined => None
    case JNull => Some(0.0)
    case JBool(b) => Some(if b then 1.0 else 0.0)
    case JNumber(n) => Some(n)
    case JString(s) => if AllDigits(s) then Some(DecimalValue(s) as real) else None
    case JObject(_) => None
    case JArray(items) =>
      if |items| == 0 then Some(0.0)
      else if |items| > 1 then None
      else
        var x := items[0];
        if x.JUndefined? || x.JNull? then Some(0.0)
        else if x.JBool? then None
        else ToNumber(x)
  }

  /** `v < k` for a number k: false when `v` is NaN. */
  predicate LessThan(v: Json, k: real)
  {
    ToNumber(v).Some? && ToNumber(v).value < k
  }

  /** `v > k` for a number k: false when `v` is NaN. */
  predicate GreaterThan(v: Json, k: real)
  {
    ToNumber(v).Some? && ToNumber(v).value > k
  }

  const DaysMessage := "daysOfWeek must be a non-empty array"
  const WeeksMessage := "weeksAhead must be between 1 and 4"
  const TimesMessage := "timeStart and timeEnd are required"
  const PriorMessage := "includePriorWeeks must be a boolean"

  /** The validation of `checkFilteredAvailability`: the first failing guard throws; None lets the request through. */
  function ValidateFilterRequest(body: Body): (r: Option<AppError>)
    ensures r.Some? ==> r.value.statusCode == 400
    ensures r.Some? ==> r.value.message in {DaysMessage, WeeksMessage, TimesMessage, PriorMessage}
    ensures r.None? <==> DaysGiven(body) && WeeksInRange(body) && TimesGiven(body)
                         && Field(body, "includePriorWeeks").JBool?
  {
    var days, weeks := Field(body, "daysOfWeek"), Field(body, "weeksAhead");
    if !Truthy(days) || !days.JArray? || |days.items| == 0 then Some(AppError(400, DaysMessage))
    else if !Truthy(weeks) || LessThan(weeks, 1.0) || GreaterThan(weeks, 4.0) then Some(AppError(400, WeeksMessage))
    else if !Truthy(Field(body, "timeStart")) || !Truthy(Field(body, "timeEnd")) then Some(AppError(400, TimesMessage))
    else if !Field(body, "includePriorWeeks").JBool? then Some(AppError(400, PriorMessage))
    else None
  }

  /** `daysOfWeek` is a non-empty array. */
  predicate DaysGiven(body: Body)
  {
    Field(body, "daysOfWeek").JArray? && Field(body, "daysOfWeek").items != []
  }

  /** `weeksAhead` is present and not zero, and is not a number outside 1..4 (NaN is not). */
  predicate WeeksInRange(body: Body)
  {
    var w := Field(body, "weeksAhead");
    Truthy(w) && (ToNumber(w).None? || 1.0 <= ToNumber(w).value <= 4.0)
  }

  /** Both bounds of the time range are present and non-empty. */
  predicate TimesGiven(body: Body)
  {
    Truthy(Field(body, "timeStart")) && Truthy(Field(body, "timeEnd"))
  }

  /**
   * Every rejection is a 400, and its message names the first condition, in
   * the order days, weeks, times, prior weeks, that the body fails; a body
   * meeting all four passes.
   */
  lemma ValidationOrder(body: Body)
    ensures var r := ValidateFilterRequest(body);
            (r.Some? ==> r.value.statusCode == 400)
            && (r == Some(AppError(400, DaysMessage)) <==> !DaysGiven(body))
            && (r == Some(AppError(400, WeeksMessage)) <==> DaysGiven(body) && !WeeksInRange(body))
            && (r == Some(AppError(400, TimesMessage)) <==> DaysGiven(body) && WeeksInRange(body) && !TimesGiven(body))
            && (r == Some(AppError(400, PriorMessage)) <==>
                  DaysGiven(body) && WeeksInRange(body) && TimesGiven(body) && !Field(body, "includePriorWeeks").JBool?)
            && (r.None? <==> DaysGiven(body) && WeeksInRange(body) && TimesGiven(body) && Field(body, "includePriorWeeks").JBool?)
  {
    assert DaysMessage != WeeksMessage && DaysMessage != TimesMessage && DaysMessage != PriorMessage;
    assert WeeksMessage != TimesMessage && WeeksMessage != PriorMessage && TimesMessage != PriorMessage;
  }

  /** A numeric `weeksAhead` passes its guard exactly when it lies in [1, 4], whole or not. */
  lemma NumericWeeksAhead(n: real)
    ensures WeeksInRange(map["weeksAhead" := JNumber(n)]) <==> 1.0 <= n <= 4.0
  {
  }

  /** A `weeksAhead` that reads as NaN, such as "two", is not rejected by its guard. */
  lemma NaNWeeksAheadPasses()
    ensures WeeksInRange(map["weeksAhead" := JString("two")])
  {
    var two := "two";
    assert !IsDigit(two[0]);
  }

  /** The weekday numbers `daysOfWeek.includes(d)` can find: the whole numbers in the array. */
  function SelectedDays(items: seq<Json>): (days: seq<int>)
  {
    if items == [] then []
    else
      var rest := SelectedDays(items[1..]);
      if items[0].JNumber? && items[0].n == items[0].n.Floor as real then [items[0].n.Floor] + rest else rest
  }

  /** `daysOfWeek.includes(d)` holds exactly when `d` is in `SelectedDays`. */
  lemma {:induction false} SelectedDaysIncludes(items: seq<Json>, d: int)
    ensures d in SelectedDays(items) <==> JNumber(d as real) in items
  {
    if items != [] {
      SelectedDaysIncludes(items[1..], d);
      assert items == [items[0]] + items[1..];
    }
  }

  /**
   * The body as the service reads it, when its fields have the declared types:
   * string bounds, a boolean flag and a `weeksAhead` that reads as a whole number.
   */
  function AsFilterRequest(body: Body): Option<FilterRequest>
  {
    var days, weeks := Field(body, "daysOfWeek"), ToNumber(Field(body, "weeksAhead"));
    var ts, te, prior := Field(body, "timeStart"), Field(body, "timeEnd"), Field(body, "includePriorWeeks");
    if days.JArray? && weeks.Some? && weeks.value == weeks.value.Floor as real && ts.JString? && te.JString? && prior.JBool?
    then Some(FilterRequest(SelectedDays(days.items), weeks.value.Floor, ts.s, te.s, prior.b))
    else None
  }

  /**
   * `checkFilteredAvailability(req, res)`: a body failing validation is
   * answered with the first failing guard's error; any other body is searched.
   */
  method CheckFilteredAvailabilityHandler(body: Body, todayDow: int, fetch: Fetcher)
    returns (r: Result<FilteredAvailabilityResult, AppError>)
    requires ValidateFilterRequest(body).None? ==> AsFilterRequest(body).Some?
    ensures ValidateFilterRequest(body).Some? ==> r == Err(ValidateFilterRequest(body).value)
    ensures ValidateFilterRequest(body).None? ==> r == Ok(FilteredAvailability(AsFilterRequest(body).value, todayDow, fetch))
  {
    var invalid := ValidateFilterRequest(body);
    if invalid.Some? {
      return Err(invalid.value);
    }
    var filterRequest := AsFilterRequest(body).value;
    var result := CheckFilteredAvailability(filterRequest, todayDow, fetch);
    r := Ok(result);
  }

  /** A validated request has 1 <= weeksAhead <= 4, so the search covers the last week or all of them. */
  lemma ValidatedWindow(body: Body)
    requires ValidateFilterRequest(body).None? && AsFilterRequest(body).Some?
    ensures var req := AsFilterRequest(body).value;
            1 <= req.weeksAhead <= 4 && 0 <= StartDay(req) && EndDay(req) <= 28
            && (req.includePriorWeeks ==> StartDay(req) == 0 && EndDay(req) == 7 * req.weeksAhead)
            && (!req.includePriorWeeks ==> EndDay(req) == StartDay(req) + 7)
  {
    ValidationOrder(body);
  }

  // ---- Club lookup ----

  const DefaultClubMessage := "Invalid club. Available clubs: "

  /** `req.params.club || 'mouratoglou'`: the key looked up. */
  function ClubKey(clubParam: Option<string>): string
  {
    if clubParam.Some? && clubParam.value != "" then clubParam.value else DefaultClubKey
  }

  /**
   * `CLUBS[clubParam]` after the default: a registry key selects the club whose
   * id it is; any other key is a 400 listing the available keys.
   */
  function ResolveClub(clubParam: Option<string>): (r: Result<ClubConfig, AppError>)
    ensures r.Ok? <==> ClubKey(clubParam) in Keys(Clubs)
    ensures r.Ok? ==> r.value.id == ClubKey(clubParam)
    ensures r.Err? ==> r.error == AppError(400, DefaultClubMessage + Join(Keys(Clubs), ", "))
  {
    var key := ClubKey(clubParam);
    ClubsWellFormed();
    match Lookup(Clubs, key)
    case Some(club) =>
      LookupId(Clubs, key);
      Ok(club)
    case None => Err(AppError(400, DefaultClubMessage + Join(Keys(Clubs), ", ")))
  }

  /** A missing or empty club parameter selects Mouratoglou. */
  lemma DefaultClub(clubParam: Option<string>)
    requires clubParam.None? || clubParam == Some("")
    ensures ResolveClub(clubParam) == Ok(Clubs[0].1)
    ensures Clubs[0].1.id == DefaultClubKey
  {
  }

  /** In a well-formed registry, the club found under a key has that key as its id. */
  lemma LookupId(reg: Registry, key: string)
    requires WellFormedRegistry(reg) && Lookup(reg, key).Some?
    ensures Lookup(reg, key).value.id == key
  {
    var c := Lookup(reg, key).value;
    var i :| 0 <= i < |reg| && reg[i] == (key, c);
  }

  /** A registry key selects the club whose id it is. */
  lemma KnownClub(key: string)
    requires key != "" && key in Keys(Clubs)
    ensures ResolveClub(Some(key)).Ok? && ResolveClub(Some(key)).value.id == key
  {
    ClubsWellFormed();
    LookupId(Clubs, key);
  }

  /** The keys as the error message lists them. */
  lemma AvailableClubsText()
    ensures Join(Keys(Clubs), ", ") == "mouratoglou" + ", " + "allinpadel" + ", " + "stadiumantibes" + ", " + "padelriviera"
  {
    ClubKeys();
    JoinFour("mouratoglou", "allinpadel", "stadiumantibes", "padelriviera", ", ");
  }

  /** Any other value is a 400 whose message lists every key. */
  lemma UnknownClub(key: string)
    requires key != "" && key !in Keys(Clubs)
    ensures ResolveClub(Some(key))
         == Err(AppError(400, "Invalid club. Available clubs: "
                              + "mouratoglou" + ", " + "allinpadel" + ", " + "stadiumantibes" + ", " + "padelriviera"))
  {
    var keysText := Join(Keys(Clubs), ", ");
    assert ResolveClub(Some(key)) == Err(AppError(400, DefaultClubMessage + keysText));
    AvailableClubsText();
    var k1, k2, k3, k4, sep := "mouratoglou", "allinpadel", "stadiumantibes", "padelriviera", ", ";
    assert DefaultClubMessage + (k1 + sep + k2 + sep + k3 + sep + k4)
        == DefaultClubMessage + k1 + sep + k2 + sep + k3 + sep + k4;
  }

  const DateMessage := "Invalid date format. Use YYYY-MM-DD"

  /**
   * `checkAvailabilityForDate(req, res)`: an unparsable date is rejected first
   * (None stands for an invalid `Date`), then the club is resolved, then the
   * day is checked.
   */
  method CheckAvailabilityForDate(date: Option<int>, clubParam: Option<string>, fetch: Fetcher)
    returns (r: Result<AvailabilityResult, AppError>)
    ensures date.None? ==> r == Err(AppError(400, DateMessage))
    ensures date.Some? && ResolveClub(clubParam).Err? ==> r == Err(ResolveClub(clubParam).error)
    ensures date.Some? && ResolveClub(clubParam).Ok? ==>
              r == Ok(Availability(fetch(ResolveClub(clubParam).value, date.value)))
  {
    if date.None? {
      return Err(AppError(400, DateMessage));
    }
    var club := ResolveClub(clubParam);
    if club.Err? {
      return Err(club.error);
    }
    var result := CheckAvailabilityApi(club.value, date.value, fetch);
    r := Ok(result);
  }

  /** `checkAvailabilityForNextDays(req, res)`: resolve the club, then check the eight-day window. */
  method CheckAvailabilityForNextDays(clubParam: Option<string>, fetch: Fetcher)
    returns (r: Result<seq<DayAvailability>, AppError>)
    ensures ResolveClub(clubParam).Err? ==> r == Err(ResolveClub(clubParam).error)
    ensures ResolveClub(clubParam).Ok? ==> r.Ok? && |r.value| == DaysToCheck
    ensures ResolveClub(clubParam).Ok? && r.Ok? ==>
              forall i :: 0 <= i < |r.value| ==> r.value[i] == DayEntry(ResolveClub(clubParam).value, fetch, i)
  {
    var club := ResolveClub(clubParam);
    if club.Err? {
      return Err(club.error);
    }
    var results := CheckMultipleDays(club.value, fetch);
    r := Ok(results);
  }

  // ---- getClubs ----

  /** One club as listed: its fields spread, plus its registry key. */
  datatype ClubEntry = ClubEntry(club: ClubConfig, key: string)

  datatype ClubsListing = ClubsListing(clubs: seq<ClubEntry>, total: nat)

  /** `getClubs`: `Object.entries(CLUBS).map(([key, club]) => ({...club, key}))` and its length. */
  function GetClubs(reg: Registry): (r: ClubsListing)
    ensures r.total == |r.clubs| == |reg|
    ensures forall i :: 0 <= i < |reg| ==> r.clubs[i].key == reg[i].0 && r.clubs[i].club == reg[i].1
  {
    var entries := seq(|reg|, i requires 0 <= i < |reg| => ClubEntry(reg[i].1, reg[i].0));
    ClubsListing(entries, |entries|)
  }

  /** The listing has one entry per registry key, in order, and `total` counts them; each key is its club's id. */
  lemma ClubsListed(reg: Registry)
    requires WellFormedRegistry(reg)
    ensures var r := GetClubs(reg);
            r.total == |r.clubs| == |reg|
            && (forall i :: 0 <= i < |reg| ==> r.clubs[i].key == reg[i].0 && r.clubs[i].club == reg[i].1)
            && (forall i :: 0 <= i < |reg| ==> r.clubs[i].club.id == r.clubs[i].key)
  {
  }

  /** The configured registry lists four clubs, Mouratoglou first. */
  lemma FourClubs()
    ensures GetClubs(Clubs).total == 4 && GetClubs(Clubs).clubs[0].key == DefaultClubKey
  {
  }
}
