/**
 * The records the backend passes around: the provider's planning response, the
 * availability results, and the filtered-search request and response shared
 * with the frontend. Dates are whole-day offsets from "today".
 */
module PadelTypes {
  import opened Wrappers

  /** One price tier of a slot. A missing `bookable` is falsy, so it is false here. */
  datatype PriceInfo = PriceInfo(bookable: bool, duration: Option<int>, pricePerParticipant: Option<int>)

  datatype Slot = Slot(startAt: Option<string>, prices: Option<seq<PriceInfo>>)

  datatype Activity = Activity(slots: Option<seq<Slot>>)

  datatype Playground = Playground(name: Option<string>, activities: Option<seq<Activity>>)

  /** The decoded planning response; `members` is its `hydra:member` list. */
  datatype ApiResponse = ApiResponse(members: Option<seq<Playground>>)

  datatype AvailabilityResult = AvailabilityResult(available: bool, slots: seq<string>)

  datatype DayAvailability = DayAvailability(date: int, available: bool, slots: seq<string>)

  datatype FilterRequest = FilterRequest(
    daysOfWeek: seq<int>,
    weeksAhead: int,
    timeStart: string,
    timeEnd: string,
    includePriorWeeks: bool)

  /** A parsed slot; `price` is the matched price text ("12.50"), "0" when absent. */
  datatype SlotInfo = SlotInfo(
    startTime: string,
    endTime: string,
    playground: string,
    price: string,
    duration: nat,
    fullInfo: string)

  datatype FilteredDayResult = FilteredDayResult(date: int, dayName: string, dayOfWeek: int, slots: seq<SlotInfo>)

  datatype ClubConfig = ClubConfig(
    id: string,
    name: string,
    clubId: string,
    activityId: string,
    baseUrl: string,
    bookingUrl: string)

  datatype ClubResults = ClubResults(
    results: seq<FilteredDayResult>,
    daysWithNoSlots: seq<FilteredDayResult>,
    totalSlots: nat)

  /** `resultsByClub` keeps the key order of the JavaScript record it models. */
  datatype FilteredAvailabilityResult = FilteredAvailabilityResult(
    success: bool,
    resultsByClub: seq<(string, ClubResults)>,
    totalSlots: nat,
    searchCriteria: FilterRequest)

  /** The upstream planning call for a club and a day offset; None is any failure. */
  type Fetcher = (ClubConfig, int) -> Option<ApiResponse>

  /** The keys of a record, in order. */
  function Keys<V>(rec: seq<(string, V)>): (ks: seq<string>)
    ensures |ks| == |rec| && forall i :: 0 <= i < |rec| ==> ks[i] == rec[i].0
  {
    seq(|rec|, i requires 0 <= i < |rec| => rec[i].0)
  }

  /** The keys of a non-empty record: its first key, then the keys of the rest. */
  lemma KeysCons<V>(rec: seq<(string, V)>)
    requires rec != []
    ensures Keys(rec) == [rec[0].0] + Keys(rec[1..])
  {
    assert forall i :: 1 <= i < |rec| ==> Keys(rec)[i] == Keys(rec[1..])[i - 1];
  }

  /** `rec[key]`: the value stored under `key`, if any. */
  function Lookup<V>(rec: seq<(string, V)>, key: string): (r: Option<V>)
    ensures r.None? <==> key !in Keys(rec)
    ensures r.Some? ==> exists i :: 0 <= i < |rec| && rec[i] == (key, r.value)
  {
    if rec == [] then None
    else if rec[0].0 == key then Some(rec[0].1)
    else
      KeysCons(rec);
      Lookup(rec[1..], key)
  }

  /**
   * `rec[key] = value` on a JavaScript record whose keys are not array indices
   * (such as "0" or "42", which JavaScript enumerates first): an existing key
   * keeps its position and takes the new value; a new key goes last; every
   * other key keeps its value.
   */
  function Assign<V>(rec: seq<(string, V)>, key: string, value: V): (r: seq<(string, V)>)
    ensures key !in Keys(rec) ==> r == rec + [(key, value)]
    ensures key in Keys(rec) ==> Keys(r) == Keys(rec)
    ensures forall k :: k != key ==> Lookup(r, k) == Lookup(rec, k)
  {
    if rec == [] then [(key, value)]
    else if rec[0].0 == key then [(key, value)] + rec[1..]
    else
      KeysCons(rec);
      var r := [rec[0]] + Assign(rec[1..], key, value);
      assert r[1..] == Assign(rec[1..], key, value);
      KeysCons(r);
      r
  }

  /** After `rec[key] = value`, reading `rec[key]` gives `value`. */
  lemma {:induction false} AssignThenLookup<V>(rec: seq<(string, V)>, key: string, value: V)
    ensures Lookup(Assign(rec, key, value), key) == Some(value)
  {
    if rec != [] && rec[0].0 != key {
      AssignThenLookup(rec[1..], key, value);
      assert Assign(rec, key, value)[1..] == Assign(rec[1..], key, value);
    }
  }

  predicate DistinctKeys<V>(rec: seq<(string, V)>)
  {
    forall i, j :: 0 <= i < j < |rec| ==> rec[i].0 != rec[j].0
  }
}
