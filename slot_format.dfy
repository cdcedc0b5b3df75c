/**
 * How `checkAvailabilityApi` turns a planning response into slot strings of the
 * form "<name> - Heure: <startAt> (<min> min), Prix: <x.yy>€": defaults for
 * missing fields, the price in euros with two decimals, and the order
 * playground, then slot, then price tier. The loop that builds the list is
 * `PadelService.CheckAvailabilityApi`; this module holds its specification.
 */
module SlotFormat {
  import opened Wrappers
  import opened Strings
  import opened PadelTypes

  const Euro: char := '\U{20AC}'

  /** `playground.name || "Unknown Padel Court"`: a missing or empty name takes the default. */
  function NameLabel(name: Option<string>): string
  {
    if name.Some? && name.value != "" then name.value else "Unknown Padel Court"
  }

  /** `slot.startAt || "N/A"`. */
  function StartLabel(startAt: Option<string>): string
  {
    if startAt.Some? && startAt.value != "" then startAt.value else "N/A"
  }

  /** `slot.prices || []`. */
  function PricesOf(slot: Slot): seq<PriceInfo>
  {
    if slot.prices.Some? then slot.prices.value else []
  }

  /** `playground.activities?.[0]?.slots`: only the first activity is read. */
  function FirstActivitySlots(pg: Playground): Option<seq<Slot>>
  {
    if pg.activities.Some? && |pg.activities.value| > 0 then pg.activities.value[0].slots else None
  }

  /** `Math.floor((priceInfo.duration || 0) / 60)`; for a positive divisor Dafny's `/` is the floor. */
  function DurationMinutes(p: PriceInfo): int
  {
    (if p.duration.Some? then p.duration.value else 0) / 60
  }

  /** `priceInfo.pricePerParticipant || 0`, in cents. */
  function PriceCentsOf(p: PriceInfo): int
  {
    if p.pricePerParticipant.Some? then p.pricePerParticipant.value else 0
  }

  /**
   * `(cents / 100).toFixed(2)` for a whole number of cents: units, a point, two
   * digits, after a minus sign when negative. The text reads back as the amount.
   */
  function FormatCents(cents: int): (r: string)
    ensures cents >= 0 ==> PriceCents(r) == Some(cents)
    ensures cents < 0 ==> |r| >= 1 && r[0] == '-' && PriceCents(r[1..]) == Some(-cents)
  {
    if cents < 0 then
      var u := FormatUnsignedCents(-cents);
      assert ("-" + u)[1..] == u;
      "-" + u
    else FormatUnsignedCents(cents)
  }

  function FormatUnsignedCents(cents: nat): (r: string)
    ensures PriceCents(r) == Some(cents)
  {
    var units := NatToString(cents / 100);
    var rest := cents % 100;
    var frac := [DigitChar(rest / 10), DigitChar(rest % 10)];
    NatToStringDigits(cents / 100);
    CentsDigits(rest);
    DigitsDotDigits(units, frac);
    units + "." + frac
  }

  /**
   * The value in cents of a price text of the shape `toFixed(2)` produces for a
   * non-negative amount ("12.50"), as `parseFloat` reads it; None for other texts.
   */
  function PriceCents(text: string): Option<nat>
  {
    var parts := Split(text, ".");
    if |parts| == 2 && |parts[0]| >= 1 && AllDigits(parts[0]) && |parts[1]| == 2 && AllDigits(parts[1])
    then Some(DecimalValue(parts[0]) * 100 + DecimalValue(parts[1]))
    else None
  }

  lemma {:induction false} DigitsDotDigits(units: string, frac: string)
    requires 1 <= |units| && AllDigits(units) && |frac| == 2 && AllDigits(frac)
    ensures PriceCents(units + "." + frac) == Some(DecimalValue(units) * 100 + DecimalValue(frac))
  {
    assert '.' !in units by {
      forall i | 0 <= i < |units| ensures units[i] != '.' { assert IsDigit(units[i]); }
    }
    assert '.' !in frac by {
      forall i | 0 <= i < |frac| ensures frac[i] != '.' { assert IsDigit(frac[i]); }
    }
    SplitAtSoleSeparator(units, '.', frac);
  }

  /** The two digits after the point denote the cents below one euro. */
  lemma CentsDigits(rest: nat)
    requires rest < 100
    ensures var frac := [DigitChar(rest / 10), DigitChar(rest % 10)];
            AllDigits(frac) && DecimalValue(frac) == rest
  {
    TwoDigitValue([DigitChar(rest / 10), DigitChar(rest % 10)]);
  }

  /** Digits, a point and two digits: at least four characters, each a digit or the point. */
  lemma PriceTextShape(units: string, frac: string)
    requires 1 <= |units| && AllDigits(units) && |frac| == 2 && AllDigits(frac)
    ensures var t := units + "." + frac;
            |t| >= 4 && forall i :: 0 <= i < |t| ==> IsDigit(t[i]) || t[i] == '.'
  {
    var t := units + "." + frac;
    forall i | 0 <= i < |t| ensures IsDigit(t[i]) || t[i] == '.' {
      if i < |units| {
        assert t[i] == units[i];
      } else if i > |units| {
        assert t[i] == frac[i - |units| - 1];
      }
    }
  }

  /** A non-negative price is printed as digits and one point, and reads back as the same number of cents. */
  lemma {:induction false} PriceRoundTrip(cents: nat)
    ensures |FormatCents(cents)| >= 4
    ensures forall i :: 0 <= i < |FormatCents(cents)| ==> IsDigit(FormatCents(cents)[i]) || FormatCents(cents)[i] == '.'
    ensures PriceCents(FormatCents(cents)) == Some(cents)
  {
    var units := NatToString(cents / 100);
    var rest := cents % 100;
    var frac := [DigitChar(rest / 10), DigitChar(rest % 10)];
    assert FormatCents(cents) == units + "." + frac;
    NatToStringDigits(cents / 100);
    CentsDigits(rest);
    PriceTextShape(units, frac);
    DigitsDotDigits(units, frac);
  }

  /** The layout of a slot line around its four printed pieces. */
  function LineOf(name: string, startTime: string, duration: string, price: string): string
  {
    name + " - Heure: " + startTime + " (" + duration + " min), Prix: " + price + [Euro]
  }

  /** The string emitted for one bookable price tier (padel.service.ts line 73). */
  function SlotLine(name: string, startTime: string, p: PriceInfo): (r: string)
    ensures exists minutes :: r == name + " - Heure: " + startTime + " (" + minutes + " min), Prix: "
                                   + FormatCents(PriceCentsOf(p)) + [Euro]
  {
    var minutes := IntToString(DurationMinutes(p));
    assert LineOf(name, startTime, minutes, FormatCents(PriceCentsOf(p)))
        == name + " - Heure: " + startTime + " (" + minutes + " min), Prix: " + FormatCents(PriceCentsOf(p)) + [Euro];
    LineOf(name, startTime, IntToString(DurationMinutes(p)), FormatCents(PriceCentsOf(p)))
  }

  // ---- The list the loops build, one level of the response at a time ----

  function PriceLines(name: string, startTime: string, prices: seq<PriceInfo>): seq<string>
  {
    if prices == [] then []
    else
      var last := prices[|prices| - 1];
      PriceLines(name, startTime, prices[..|prices| - 1])
        + (if last.bookable then [SlotLine(name, startTime, last)] else [])
  }

  function SlotsLines(name: string, slots: seq<Slot>): seq<string>
  {
    if slots == [] then []
    else
      var last := slots[|slots| - 1];
      SlotsLines(name, slots[..|slots| - 1]) + PriceLines(name, StartLabel(last.startAt), PricesOf(last))
  }

  function PlaygroundLines(pg: Playground): seq<string>
  {
    match FirstActivitySlots(pg)
    case None => []
    case Some(slots) => SlotsLines(NameLabel(pg.name), slots)
  }

  function PlaygroundsLines(pgs: seq<Playground>): seq<string>
  {
    if pgs == [] then [] else PlaygroundsLines(pgs[..|pgs| - 1]) + PlaygroundLines(pgs[|pgs| - 1])
  }

  /** The slot strings of a decoded response; a missing `hydra:member` gives none. */
  function ResponseLines(data: ApiResponse): seq<string>
  {
    if data.members.Some? then PlaygroundsLines(data.members.value) else []
  }

  /**
   * What one availability check returns for the upstream outcome: a failed call
   * (bad status, undecodable body, thrown error) is "not available, no slots";
   * otherwise the slot strings, available exactly when there is at least one.
   */
  function Availability(response: Option<ApiResponse>): (r: AvailabilityResult)
    ensures r.available <==> |r.slots| > 0
    ensures response.None? ==> r == AvailabilityResult(false, [])
    ensures response.Some? ==> r.slots == ResponseLines(response.value)
  {
    match response
    case None => AvailabilityResult(false, [])
    case Some(data) =>
      var lines := ResponseLines(data);
      if |lines| > 0 then AvailabilityResult(true, lines) else AvailabilityResult(false, [])
  }

  /** When no tier of a slot is bookable it contributes nothing, so the pre-check changes nothing. */
  lemma {:induction false} NoBookableNoLines(name: string, startTime: string, prices: seq<PriceInfo>)
    requires forall j :: 0 <= j < |prices| ==> !prices[j].bookable
    ensures PriceLines(name, startTime, prices) == []
  {
    if prices != [] {
      NoBookableNoLines(name, startTime, prices[..|prices| - 1]);
    }
  }

  // ---- Reference: the flat list of price tiers, in reading order ----

  /** One price tier together with the labels of its playground and slot. */
  datatype Tier = Tier(name: string, startTime: string, price: PriceInfo)

  function PriceTiers(name: string, startTime: string, prices: seq<PriceInfo>): seq<Tier>
  {
    seq(|prices|, i requires 0 <= i < |prices| => Tier(name, startTime, prices[i]))
  }

  function SlotsTiers(name: string, slots: seq<Slot>): seq<Tier>
  {
    if slots == [] then []
    else
      var last := slots[|slots| - 1];
      SlotsTiers(name, slots[..|slots| - 1]) + PriceTiers(name, StartLabel(last.startAt), PricesOf(last))
  }

  function PlaygroundsTiers(pgs: seq<Playground>): seq<Tier>
  {
    if pgs == [] then []
    else
      var pg := pgs[|pgs| - 1];
      PlaygroundsTiers(pgs[..|pgs| - 1])
        + match FirstActivitySlots(pg) case None => [] case Some(slots) => SlotsTiers(NameLabel(pg.name), slots)
  }

  /** Every price tier of the first activity of every playground, playground by playground, slot by slot. */
  function ResponseTiers(data: ApiResponse): seq<Tier>
  {
    if data.members.Some? then PlaygroundsTiers(data.members.value) else []
  }

  function BookableOnly(ts: seq<Tier>): (r: seq<Tier>)
    ensures |r| <= |ts|
  {
    if ts == [] then []
    else BookableOnly(ts[..|ts| - 1]) + (if ts[|ts| - 1].price.bookable then [ts[|ts| - 1]] else [])
  }

  function FormatTiers(ts: seq<Tier>): seq<string>
  {
    seq(|ts|, i requires 0 <= i < |ts| => SlotLine(ts[i].name, ts[i].startTime, ts[i].price))
  }

  lemma {:induction false} BookableOnlyAppend(a: seq<Tier>, b: seq<Tier>)
    ensures BookableOnly(a + b) == BookableOnly(a) + BookableOnly(b)
    decreases |b|
  {
    if b != [] {
      assert (a + b)[..|a + b| - 1] == a + b[..|b| - 1];
      BookableOnlyAppend(a, b[..|b| - 1]);
    } else {
      assert a + b == a;
    }
  }

  lemma {:induction false} FormatTiersAppend(a: seq<Tier>, b: seq<Tier>)
    ensures FormatTiers(a + b) == FormatTiers(a) + FormatTiers(b)
  {
    forall i | 0 <= i < |a| + |b|
      ensures FormatTiers(a + b)[i] == (FormatTiers(a) + FormatTiers(b))[i]
    {
      if i >= |a| { assert (a + b)[i] == b[i - |a|]; }
    }
  }

  /** One price tier gives its line when it is bookable and nothing otherwise. */
  lemma OneTierLines(name: string, startTime: string, p: PriceInfo)
    ensures FormatTiers(BookableOnly([Tier(name, startTime, p)]))
         == if p.bookable then [SlotLine(name, startTime, p)] else []
  {
    assert [Tier(name, startTime, p)][..0] == [];
  }

  lemma {:induction false} PriceLinesAreBookableTiers(name: string, startTime: string, prices: seq<PriceInfo>)
    ensures PriceLines(name, startTime, prices) == FormatTiers(BookableOnly(PriceTiers(name, startTime, prices)))
  {
    if prices != [] {
      var n := |prices| - 1;
      PriceLinesAreBookableTiers(name, startTime, prices[..n]);
      var ts := PriceTiers(name, startTime, prices);
      var last := [Tier(name, startTime, prices[n])];
      assert ts[..n] == PriceTiers(name, startTime, prices[..n]);
      assert ts == ts[..n] + last;
      BookableOnlyAppend(ts[..n], last);
      FormatTiersAppend(BookableOnly(ts[..n]), BookableOnly(last));
      OneTierLines(name, startTime, prices[n]);
    }
  }

  lemma {:induction false} SlotsLinesAreBookableTiers(name: string, slots: seq<Slot>)
    ensures SlotsLines(name, slots) == FormatTiers(BookableOnly(SlotsTiers(name, slots)))
  {
    if slots != [] {
      var n := |slots| - 1;
      var last := slots[n];
      SlotsLinesAreBookableTiers(name, slots[..n]);
      PriceLinesAreBookableTiers(name, StartLabel(last.startAt), PricesOf(last));
      var front, back := SlotsTiers(name, slots[..n]), PriceTiers(name, StartLabel(last.startAt), PricesOf(last));
      BookableOnlyAppend(front, back);
      FormatTiersAppend(BookableOnly(front), BookableOnly(back));
    }
  }

  lemma {:induction false} PlaygroundsLinesAreBookableTiers(pgs: seq<Playground>)
    ensures PlaygroundsLines(pgs) == FormatTiers(BookableOnly(PlaygroundsTiers(pgs)))
  {
    if pgs != [] {
      var n := |pgs| - 1;
      var pg := pgs[n];
      PlaygroundsLinesAreBookableTiers(pgs[..n]);
      var front := PlaygroundsTiers(pgs[..n]);
      var back := match FirstActivitySlots(pg) case None => [] case Some(slots) => SlotsTiers(NameLabel(pg.name), slots);
      if FirstActivitySlots(pg).Some? {
        SlotsLinesAreBookableTiers(NameLabel(pg.name), FirstActivitySlots(pg).value);
      } else {
        assert BookableOnly(back) == [];
      }
      BookableOnlyAppend(front, back);
      FormatTiersAppend(BookableOnly(front), BookableOnly(back));
    }
  }

  /**
   * Construction emits exactly one string per bookable price tier of the first
   * activity of each playground, in playground, slot, price order, and nothing
   * for tiers that are not bookable.
   */
  lemma {:induction false} LinesAreBookableTiers(data: ApiResponse)
    ensures ResponseLines(data) == FormatTiers(BookableOnly(ResponseTiers(data)))
    ensures |ResponseLines(data)| == |BookableOnly(ResponseTiers(data))|
  {
    if data.members.Some? {
      PlaygroundsLinesAreBookableTiers(data.members.value);
    }
  }

  /** A missing duration or price prints as 0, in minutes and in euros with two decimals. */
  lemma ZeroTierPieces()
    ensures IntToString(DurationMinutes(PriceInfo(true, None, None))) == "0"
    ensures FormatCents(PriceCentsOf(PriceInfo(true, None, None))) == "0.00"
  {
    assert NatToString(0) == [DigitChar(0)];
    assert DigitChar(0) == '0';
  }

  /**
   * A court with no name and a slot with no start are labelled "Unknown Padel
   * Court" and "N/A"; a bookable tier with no duration or price prints zeros.
   */
  lemma MissingFieldsDefaults()
    ensures var p := PriceInfo(true, None, None);
            PlaygroundLines(Playground(None, Some([Activity(Some([Slot(None, Some([p]))]))])))
            == [LineOf("Unknown Padel Court", "N/A", "0", "0.00")]
  {
    var p := PriceInfo(true, None, None);
    var slot := Slot(None, Some([p]));
    ZeroTierPieces();
    assert [p][..0] == [] && [slot][..0] == [];
    assert PriceLines("Unknown Padel Court", "N/A", [p]) == [SlotLine("Unknown Padel Court", "N/A", p)];
    assert SlotsLines("Unknown Padel Court", [slot]) == PriceLines("Unknown Padel Court", "N/A", [p]);
  }

  /** Activities after the first never contribute slot strings. */
  lemma OnlyFirstActivityRead(name: Option<string>, first: Activity, more: seq<Activity>)
    ensures PlaygroundLines(Playground(name, Some([first] + more)))
         == PlaygroundLines(Playground(name, Some([first])))
  {
  }
}
