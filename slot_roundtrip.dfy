/**
 * Reading back a formatted slot line: `parseSlotInfo` applied to the string
 * `checkAvailabilityApi` emits for a bookable price tier recovers the court
 * name, start time, duration and price, under conditions on the court name,
 * for an "HH:MM" start and a duration and price that are not negative. The
 * last section shows that the round trip fails without those three.
 *
 * The reasoning is done on `LineOf(name, start, duration, price)` with the
 * printed duration and price as plain strings; `FormatParseRoundTrip` then
 * plugs in what `SlotLine` prints.
 */
module SlotRoundTrip {
  import opened Wrappers
  import opened Strings
  import opened Time
  import opened PadelTypes
  import opened SlotFormat
  import opened SlotParse

  /** A price text as `toFixed(2)` prints it for a non-negative amount: digits and points. */
  predicate PriceText(price: string)
  {
    1 <= |price| && forall k :: 0 <= k < |price| ==> InClass(price[k], DigitOrDot)
  }

  /** Where each piece of a line sits. */
  lemma LineLayout(name: string, startAt: string, dur: string, price: string)
    requires |startAt| == 5
    ensures var s := LineOf(name, startAt, dur, price);
            var a := |name|;
            var e := a + 17 + |dur|;
            var g := e + 13 + |price|;
            |s| == g + 1 && s[..a] == name && s[a..a + 10] == " - Heure: "
            && s[a + 10..a + 15] == startAt && s[a + 15..a + 17] == " ("
            && s[a + 17..e] == dur && s[e..e + 13] == " min), Prix: "
            && s[e + 13..g] == price && s[g] == Euro
  {
    var s := LineOf(name, startAt, dur, price);
    var a := |name|;
    var e := a + 17 + |dur|;
    var g := e + 13 + |price|;
    assert |s| == g + 1;
    assert s[..a] == name by {}
    assert s[a..a + 10] == " - Heure: " by {}
    assert s[a + 10..a + 15] == startAt by {}
    assert s[a + 15..a + 17] == " (" by {}
    assert s[a + 17..e] == dur by {}
    assert s[e..e + 13] == " min), Prix: " by {}
    assert s[e + 13..g] == price by {}
    assert s[g] == Euro by {}
  }

  // ---- The searches find the first match ----

  lemma {:induction false} FindHeureAt(s: string, from: nat, p: nat)
    requires from <= p && HeureAt(s, p)
    requires forall q: nat :: from <= q < p ==> !HeureAt(s, q)
    ensures FindHeure(s, from) == Some(s[p + 7..p + 12])
    decreases p - from
  {
    if from < p {
      FindHeureAt(s, from + 1, p);
    }
  }

  lemma {:induction false} RunEndIs(s: string, i: nat, e: nat, cls: CharClass)
    requires i <= e <= |s|
    requires forall k :: i <= k < e ==> InClass(s[k], cls)
    requires e < |s| ==> !InClass(s[e], cls)
    ensures RunEnd(s, i, cls) == e
    decreases e - i
  {
    if i < e {
      RunEndIs(s, i + 1, e, cls);
    }
  }

  lemma {:induction false} FindRunAt(s: string, from: nat, p: nat, pre: string, cls: CharClass, post: string)
    requires from <= p <= |s| && RunAt(s, p, pre, cls, post).Some?
    requires forall q: nat :: from <= q < p ==> RunAt(s, q, pre, cls, post).None?
    ensures FindRun(s, from, pre, cls, post) == RunAt(s, p, pre, cls, post)
    decreases p - from
  {
    if from < p {
      FindRunAt(s, from + 1, p, pre, cls, post);
    }
  }

  /** The court name ends with " -", so `split(' - ')` can match across its end. */
  predicate EndsWithSpaceDash(name: string)
  {
    |name| >= 2 && name[|name| - 2..] == " -"
  }

  /** A character inside a slice is the slice's character at the shifted index. */
  lemma SliceChar(s: string, lo: nat, hi: nat, t: string, q: nat)
    requires lo <= q < hi <= |s| && s[lo..hi] == t
    ensures s[q] == t[q - lo]
  {
    assert s[lo..hi][q - lo] == s[q];
  }

  /** A character of a clock is a digit or the colon. */
  lemma ClockChar(t: string, k: nat)
    requires IsClock(t) && k < 5
    ensures IsDigit(t[k]) || t[k] == ':'
  {
  }

  // ---- The court name ----

  /** No " - " of a line starts before the end of a court name that has none and does not end with " -". */
  lemma NoSeparatorInName(name: string, startAt: string, dur: string, price: string, j: nat)
    requires |startAt| == 5
    requires !Contains(name, " - ") && !EndsWithSpaceDash(name)
    requires j < |name|
    ensures !OccursAt(LineOf(name, startAt, dur, price), " - ", j)
  {
    var s := LineOf(name, startAt, dur, price);
    var a := |name|;
    LineLayout(name, startAt, dur, price);
    if j + 3 <= a {
      assert s[j..j + 3] == name[j..j + 3];
      assert !OccursAt(name, " - ", j);
    } else if j + 2 == a {
      assert name[a - 2..] == [name[a - 2], name[a - 1]];
      SliceChar(s, 0, a, name, j);
      SliceChar(s, 0, a, name, j + 1);
      assert s[j..j + 3][0] == s[j] && s[j..j + 3][1] == s[j + 1];
    } else {
      SliceChar(s, a, a + 10, " - Heure: ", a);
      assert s[j..j + 3][1] == s[a];
    }
  }

  /** The first " - " of a line is the one after the court name. */
  lemma FirstSeparator(name: string, startAt: string, dur: string, price: string)
    requires |startAt| == 5
    requires !Contains(name, " - ") && !EndsWithSpaceDash(name)
    ensures IndexOf(LineOf(name, startAt, dur, price), " - ") == Some(|name|)
  {
    var s := LineOf(name, startAt, dur, price);
    var a := |name|;
    LineLayout(name, startAt, dur, price);
    assert OccursAt(s, " - ", a) by {
      assert s[a..a + 3] == s[a..a + 10][..3];
    }
    forall j: nat | j < a ensures !OccursAt(s, " - ", j) {
      NoSeparatorInName(name, startAt, dur, price, j);
    }
  }

  lemma ReadBackPlayground(name: string, startAt: string, dur: string, price: string)
    requires |startAt| == 5
    requires name != "" && !Contains(name, " - ") && !EndsWithSpaceDash(name)
    ensures PlaygroundOf(LineOf(name, startAt, dur, price)) == name
  {
    var s := LineOf(name, startAt, dur, price);
    FirstSeparator(name, startAt, dur, price);
    SplitHead(s, " - ");
    LineLayout(name, startAt, dur, price);
  }

  // ---- The start time ----

  lemma ReadBackStart(name: string, startAt: string, dur: string, price: string)
    requires IsClock(startAt)
    requires !Contains(name, "Heure: ")
    ensures StartTimeOf(LineOf(name, startAt, dur, price)) == startAt
  {
    var s := LineOf(name, startAt, dur, price);
    var a := |name|;
    LineLayout(name, startAt, dur, price);
    assert HeureAt(s, a + 3) by {
      assert s[a + 3..a + 10] == s[a..a + 10][3..];
    }
    forall q: nat | q < a + 3 ensures !HeureAt(s, q) {
      if q + 7 <= a {
        assert s[q..q + 7] == name[q..q + 7];
        assert !OccursAt(name, "Heure: ", q);
      } else if q + 12 <= |s| {
        assert s[q + 7] == s[a..a + 10][q + 7 - a];
        assert !IsDigit(s[q + 7]);
        assert s[q + 7..q + 12][0] == s[q + 7];
      }
    }
    FindHeureAt(s, 0, a + 3);
  }

  // ---- The duration ----

  /** Before the "(" of " (", a line holds no "(". */
  lemma NoParenBefore(name: string, startAt: string, dur: string, price: string, q: nat)
    requires IsClock(startAt) && '(' !in name
    requires q < |name| + 16
    ensures LineOf(name, startAt, dur, price)[q] != '('
  {
    var s := LineOf(name, startAt, dur, price);
    var a := |name|;
    LineLayout(name, startAt, dur, price);
    if q < a {
      assert s[q] == s[..a][q];
    } else if q < a + 10 {
      assert s[q] == s[a..a + 10][q - a];
    } else if q < a + 15 {
      assert s[q] == startAt[q - a - 10];
      ClockChar(startAt, q - a - 10);
    } else {
      assert s[q] == s[a + 15..a + 17][0];
    }
  }

  /** The duration pattern matches at the "(" and captures the printed duration. */
  lemma DurationRunAtParen(name: string, startAt: string, dur: string, price: string)
    requires |startAt| == 5
    requires 1 <= |dur| && AllDigits(dur)
    ensures RunAt(LineOf(name, startAt, dur, price), |name| + 16, "(", Digit, " min)") == Some(dur)
  {
    var s := LineOf(name, startAt, dur, price);
    var a := |name|;
    var e := a + 17 + |dur|;
    LineLayout(name, startAt, dur, price);
    assert OccursAt(s, "(", a + 16) by {
      assert s[a + 16..a + 17] == s[a + 15..a + 17][1..];
    }
    forall k | a + 17 <= k < e ensures InClass(s[k], Digit) {
      assert s[k] == dur[k - a - 17];
    }
    assert s[e] == s[e..e + 13][0];
    RunEndIs(s, a + 17, e, Digit);
    assert OccursAt(s, " min)", e) by {
      assert s[e..e + 5] == s[e..e + 13][..5];
    }
  }

  /** `/\((\d+) min\)/` captures the printed duration. */
  lemma DurationMatchOfLine(name: string, startAt: string, dur: string, price: string)
    requires IsClock(startAt) && '(' !in name
    requires 1 <= |dur| && AllDigits(dur)
    ensures DurationMatch(LineOf(name, startAt, dur, price)) == Some(dur)
  {
    var s := LineOf(name, startAt, dur, price);
    var a := |name|;
    forall q: nat | q < a + 16 ensures RunAt(s, q, "(", Digit, " min)").None? {
      NoParenBefore(name, startAt, dur, price, q);
      if q + 1 <= |s| {
        assert s[q..q + 1][0] == s[q];
      }
    }
    DurationRunAtParen(name, startAt, dur, price);
    FindRunAt(s, 0, a + 16, "(", Digit, " min)");
  }

  // ---- The price ----

  /** Between the court name and "Prix: ", a line holds no "P". */
  lemma NoPBefore(name: string, startAt: string, dur: string, price: string, q: nat)
    requires IsClock(startAt) && AllDigits(dur)
    requires |name| <= q < |name| + 24 + |dur|
    ensures LineOf(name, startAt, dur, price)[q] != 'P'
  {
    var s := LineOf(name, startAt, dur, price);
    var a := |name|;
    var e := a + 17 + |dur|;
    LineLayout(name, startAt, dur, price);
    if q < a + 10 {
      SliceChar(s, a, a + 10, " - Heure: ", q);
    } else if q < a + 15 {
      SliceChar(s, a + 10, a + 15, startAt, q);
      ClockChar(startAt, q - a - 10);
    } else if q < a + 17 {
      SliceChar(s, a + 15, a + 17, " (", q);
    } else if q < e {
      SliceChar(s, a + 17, e, dur, q);
      assert IsDigit(dur[q - a - 17]);
    } else {
      SliceChar(s, e, e + 13, " min), Prix: ", q);
    }
  }

  /** No match of the price pattern starts inside the court name. */
  lemma NoPriceMatchInName(name: string, startAt: string, dur: string, price: string, q: nat)
    requires |startAt| == 5 && !Contains(name, "Prix: ")
    requires q < |name|
    ensures RunAt(LineOf(name, startAt, dur, price), q, "Prix: ", DigitOrDot, [Euro]).None?
  {
    var s := LineOf(name, startAt, dur, price);
    var a := |name|;
    LineLayout(name, startAt, dur, price);
    if q + 6 <= a {
      assert s[q..q + 6] == name[q..q + 6];
      assert !OccursAt(name, "Prix: ", q);
    } else {
      assert s[q + 6] == s[a..a + 10][q + 6 - a];
      assert RunEnd(s, q + 6, DigitOrDot) == q + 6;
    }
  }

  /** The price pattern matches at "Prix: " and captures the printed price. */
  lemma PriceRunAtLabel(name: string, startAt: string, dur: string, price: string)
    requires |startAt| == 5 && PriceText(price)
    ensures RunAt(LineOf(name, startAt, dur, price), |name| + 24 + |dur|, "Prix: ", DigitOrDot, [Euro]) == Some(price)
  {
    var s := LineOf(name, startAt, dur, price);
    var e := |name| + 17 + |dur|;
    var g := e + 13 + |price|;
    LineLayout(name, startAt, dur, price);
    assert OccursAt(s, "Prix: ", e + 7) by {
      assert s[e + 7..e + 13] == s[e..e + 13][7..];
    }
    forall k | e + 13 <= k < g ensures InClass(s[k], DigitOrDot) {
      assert s[k] == price[k - e - 13];
    }
    RunEndIs(s, e + 13, g, DigitOrDot);
    assert OccursAt(s, [Euro], g) by {
      assert s[g..g + 1] == [s[g]];
    }
  }

  /** No price label starts before the one the line prints. */
  lemma NoPriceRunBeforeLabel(name: string, startAt: string, dur: string, price: string)
    requires IsClock(startAt) && !Contains(name, "Prix: ")
    requires AllDigits(dur)
    ensures forall q: nat :: q < |name| + 24 + |dur| ==> RunAt(LineOf(name, startAt, dur, price), q, "Prix: ", DigitOrDot, [Euro]).None?
  {
    var s := LineOf(name, startAt, dur, price);
    var a := |name|;
    forall q: nat | q < a + 24 + |dur| ensures RunAt(s, q, "Prix: ", DigitOrDot, [Euro]).None? {
      if q < a {
        NoPriceMatchInName(name, startAt, dur, price, q);
      } else {
        NoPBefore(name, startAt, dur, price, q);
        if q + 6 <= |s| {
          assert s[q..q + 6][0] == s[q];
        }
      }
    }
  }

  /** `/Prix: ([\d.]+)€/` captures the printed price. */
  lemma PriceMatchOfLine(name: string, startAt: string, dur: string, price: string)
    requires IsClock(startAt) && !Contains(name, "Prix: ")
    requires AllDigits(dur) && PriceText(price)
    ensures PriceMatch(LineOf(name, startAt, dur, price)) == Some(price)
  {
    var s := LineOf(name, startAt, dur, price);
    NoPriceRunBeforeLabel(name, startAt, dur, price);
    PriceRunAtLabel(name, startAt, dur, price);
    LineLayout(name, startAt, dur, price);
    FindRunAt(s, 0, |name| + 24 + |dur|, "Prix: ", DigitOrDot, [Euro]);
  }

  // ---- The whole line ----

  /** A line whose court name avoids the patterns parses back into its four pieces. */
  lemma LineRoundTrip(name: string, startAt: string, dur: string, price: string)
    requires name != "" && !Contains(name, " - ") && !EndsWithSpaceDash(name)
    requires !Contains(name, "Heure: ") && '(' !in name && !Contains(name, "Prix: ")
    requires IsClock(startAt)
    requires 1 <= |dur| && AllDigits(dur) && PriceText(price)
    ensures ParseSlotInfo(LineOf(name, startAt, dur, price))
         == SlotInfo(startAt, EndTime(startAt, DecimalValue(dur)), name, price, DecimalValue(dur),
                     LineOf(name, startAt, dur, price))
  {
    ReadBackPlayground(name, startAt, dur, price);
    ReadBackStart(name, startAt, dur, price);
    DurationMatchOfLine(name, startAt, dur, price);
    PriceMatchOfLine(name, startAt, dur, price);
  }

  /**
   * `parseSlotInfo` inverts the line format: for a court name free of the
   * separators and labels the patterns look for, the parsed slot holds the
   * court, start time, duration and price that were printed, the end time is
   * start plus duration, and the price text reads back as the same cents.
   */
  lemma FormatParseRoundTrip(name: string, startAt: string, p: PriceInfo)
    requires name != "" && !Contains(name, " - ") && !EndsWithSpaceDash(name)
    requires !Contains(name, "Heure: ") && '(' !in name && !Contains(name, "Prix: ")
    requires IsClock(startAt)
    requires DurationMinutes(p) >= 0 && PriceCentsOf(p) >= 0
    ensures ParseSlotInfo(SlotLine(name, startAt, p))
         == SlotInfo(startAt, EndTime(startAt, DurationMinutes(p)), name, FormatCents(PriceCentsOf(p)),
                     DurationMinutes(p), SlotLine(name, startAt, p))
    ensures PriceCents(ParseSlotInfo(SlotLine(name, startAt, p)).price) == Some(PriceCentsOf(p))
  {
    var dur := IntToString(DurationMinutes(p));
    var price := FormatCents(PriceCentsOf(p));
    NatToStringDigits(DurationMinutes(p));
    PriceRoundTrip(PriceCentsOf(p));
    LineRoundTrip(name, startAt, dur, price);
  }

  /**
   * A court name ending in " -" is cut short: in "Court - - Heure: ..." the
   * first " - " starts inside the name, so the playground reads "Court".
   */
  lemma TrailingDashCutsName(startAt: string, dur: string, price: string)
    requires |startAt| == 5
    ensures ParseSlotInfo(LineOf("Court -", startAt, dur, price)).playground == "Court"
  {
    var s := LineOf("Court -", startAt, dur, price);
    DashInsideName(startAt, dur, price);
    assert s[..5] == "Court" by {
      LineLayout("Court -", startAt, dur, price);
      assert s[..5] == s[..7][..5];
    }
  }

  /** In a line for the court "Court -", the first " - " is the one that ends the name. */
  lemma DashInsideName(startAt: string, dur: string, price: string)
    requires |startAt| == 5
    ensures IndexOf(LineOf("Court -", startAt, dur, price), " - ") == Some(5)
  {
    var name := "Court -";
    var s := LineOf(name, startAt, dur, price);
    LineLayout(name, startAt, dur, price);
    assert s[..7] == name;
    assert OccursAt(s, " - ", 5) by {
      assert s[5..8] == [s[..7][5], s[..7][6], s[7..17][0]];
    }
    forall j: nat | j < 5 ensures !OccursAt(s, " - ", j) {
      assert s[j + 1] == s[..7][j + 1];
      assert s[j..j + 3][1] == s[j + 1];
    }
  }

  // ---- Where the round trip fails ----

  /** A search that finds the pattern at no index from `from` on returns None. */
  lemma {:induction false} FindRunNowhere(s: string, from: nat, pre: string, cls: CharClass, post: string)
    requires from <= |s|
    requires forall q: nat :: from <= q <= |s| ==> RunAt(s, q, pre, cls, post).None?
    ensures FindRun(s, from, pre, cls, post).None?
    decreases |s| - from
  {
    if from < |s| {
      FindRunNowhere(s, from + 1, pre, cls, post);
    }
  }

  /** `${durationMinutes}` holds digits and, for a negative number, a leading minus sign. */
  lemma IntToStringChars(i: int)
    ensures var t := IntToString(i);
            1 <= |t| && (i < 0 ==> t[0] == '-') && forall k :: 0 <= k < |t| ==> IsDigit(t[k]) || t[k] == '-'
  {
    NatToStringDigits(if i < 0 then -i else i);
  }

  /** `toFixed(2)` of any whole number of cents holds only digits, a point and a minus sign. */
  lemma FormatCentsChars(cents: int)
    ensures var t := FormatCents(cents);
            1 <= |t| && (cents < 0 ==> t[0] == '-')
            && forall k :: 0 <= k < |t| ==> IsDigit(t[k]) || t[k] == '.' || t[k] == '-'
  {
    var m := if cents < 0 then -cents else cents;
    var units := NatToString(m / 100);
    var frac := [DigitChar(m % 100 / 10), DigitChar(m % 100 % 10)];
    NatToStringDigits(m / 100);
    CentsDigits(m % 100);
    PriceTextShape(units, frac);
    var u := units + "." + frac;
    assert FormatUnsignedCents(m) == u;
    if cents < 0 {
      var t := FormatCents(cents);
      assert t == "-" + u;
      forall k | 1 <= k < |t| ensures IsDigit(t[k]) || t[k] == '.' {
        assert t[k] == u[k - 1];
      }
    }
  }

  /** After the "(" of " (", a line holds no "(" when the duration and price hold none. */
  lemma NoParenAfter(name: string, startAt: string, dur: string, price: string, q: nat)
    requires |startAt| == 5 && '(' !in dur && '(' !in price
    requires |name| + 16 < q < |LineOf(name, startAt, dur, price)|
    ensures LineOf(name, startAt, dur, price)[q] != '('
  {
    var s := LineOf(name, startAt, dur, price);
    var e := |name| + 17 + |dur|;
    var g := e + 13 + |price|;
    LineLayout(name, startAt, dur, price);
    if q < e {
      SliceChar(s, |name| + 17, e, dur, q);
    } else if q < e + 13 {
      SliceChar(s, e, e + 13, " min), Prix: ", q);
    } else if q < g {
      SliceChar(s, e + 13, g, price, q);
    }
  }

  /** After " (", a duration starting with "-" leaves `/\((\d+) min\)/` nothing to match. */
  lemma NegativeDurationLine(name: string, startAt: string, dur: string, price: string)
    requires IsClock(startAt) && '(' !in name
    requires 1 <= |dur| && dur[0] == '-' && '(' !in dur && '(' !in price
    ensures DurationMatch(LineOf(name, startAt, dur, price)).None?
  {
    var s := LineOf(name, startAt, dur, price);
    var a := |name|;
    var e := a + 17 + |dur|;
    var g := e + 13 + |price|;
    LineLayout(name, startAt, dur, price);
    forall q: nat | q <= |s| ensures RunAt(s, q, "(", Digit, " min)").None? {
      if q == a + 16 {
        SliceChar(s, a + 17, e, dur, a + 17);
        assert RunEnd(s, a + 17, Digit) == a + 17;
      } else if q < |s| {
        if q < a + 16 {
          NoParenBefore(name, startAt, dur, price, q);
        } else {
          NoParenAfter(name, startAt, dur, price, q);
        }
        assert s[q..q + 1][0] == s[q];
      }
    }
    FindRunNowhere(s, 0, "(", Digit, " min)");
  }

  /**
   * A tier with a negative duration (-60 s prints "(-1 min)") does not read
   * back: the duration pattern finds no match and the parse takes the
   * default 60 minutes.
   */
  lemma NegativeDurationReadsDefault(name: string, startAt: string, p: PriceInfo)
    requires IsClock(startAt) && '(' !in name
    requires DurationMinutes(p) < 0
    ensures DurationMatch(SlotLine(name, startAt, p)).None?
    ensures ParseSlotInfo(SlotLine(name, startAt, p)).duration == 60 != DurationMinutes(p)
  {
    IntToStringChars(DurationMinutes(p));
    FormatCentsChars(PriceCentsOf(p));
    NegativeDurationLine(name, startAt, IntToString(DurationMinutes(p)), FormatCents(PriceCentsOf(p)));
  }

  /** Past the "P" of "Prix: ", a line holds no "P" when the price holds none. */
  lemma NoPAfterLabel(name: string, startAt: string, dur: string, price: string, q: nat)
    requires |startAt| == 5 && 'P' !in price
    requires |name| + 24 + |dur| < q < |LineOf(name, startAt, dur, price)|
    ensures LineOf(name, startAt, dur, price)[q] != 'P'
  {
    var s := LineOf(name, startAt, dur, price);
    var e := |name| + 17 + |dur|;
    var g := e + 13 + |price|;
    LineLayout(name, startAt, dur, price);
    if q < e + 13 {
      SliceChar(s, e, e + 13, " min), Prix: ", q);
    } else if q < g {
      SliceChar(s, e + 13, g, price, q);
    }
  }

  /** After "Prix: ", a price starting with "-" leaves `/Prix: ([\d.]+)€/` nothing to match. */
  lemma NegativePriceLine(name: string, startAt: string, dur: string, price: string)
    requires IsClock(startAt) && !Contains(name, "Prix: ") && AllDigits(dur)
    requires 1 <= |price| && price[0] == '-' && 'P' !in price
    ensures PriceMatch(LineOf(name, startAt, dur, price)).None?
  {
    var s := LineOf(name, startAt, dur, price);
    var e := |name| + 17 + |dur|;
    var g := e + 13 + |price|;
    NoPriceRunBeforeLabel(name, startAt, dur, price);
    LineLayout(name, startAt, dur, price);
    forall q: nat | e + 7 <= q <= |s| ensures RunAt(s, q, "Prix: ", DigitOrDot, [Euro]).None? {
      if q == e + 7 {
        SliceChar(s, e + 13, g, price, e + 13);
        assert RunEnd(s, e + 13, DigitOrDot) == e + 13;
      } else if q + 6 <= |s| {
        NoPAfterLabel(name, startAt, dur, price, q);
        assert s[q..q + 6][0] == s[q];
      }
    }
    FindRunNowhere(s, 0, "Prix: ", DigitOrDot, [Euro]);
  }

  /**
   * A tier with a negative price prints "Prix: -12.50€", which the price
   * pattern does not match, so the parse reads the price "0".
   */
  lemma NegativePriceReadsZero(name: string, startAt: string, p: PriceInfo)
    requires IsClock(startAt) && !Contains(name, "Prix: ")
    requires DurationMinutes(p) >= 0 && PriceCentsOf(p) < 0
    ensures PriceMatch(SlotLine(name, startAt, p)).None?
    ensures ParseSlotInfo(SlotLine(name, startAt, p)).price == "0"
  {
    NatToStringDigits(DurationMinutes(p));
    FormatCentsChars(PriceCentsOf(p));
    NegativePriceLine(name, startAt, IntToString(DurationMinutes(p)), FormatCents(PriceCentsOf(p)));
  }

  /** With "N/A" printed as the start, no index of the line matches `/Heure: (\d{2}:\d{2})/`. */
  lemma NoHeureWithoutStart(name: string, dur: string, price: string)
    requires !Contains(name, "Heure: ") && 'H' !in dur && 'H' !in price
    ensures forall q: nat :: !HeureAt(LineOf(name, "N/A", dur, price), q)
  {
    forall q: nat ensures !HeureAt(LineOf(name, "N/A", dur, price), q) {
      NoHeureAt(name, dur, price, q);
    }
  }

  /** Where each piece of a line sits when the start is printed as "N/A". */
  lemma MissingStartLayout(name: string, dur: string, price: string)
    ensures var s := LineOf(name, "N/A", dur, price);
            var a := |name|;
            var e := a + 15 + |dur|;
            var g := e + 13 + |price|;
            |s| == g + 1 && s[..a] == name && s[a..a + 10] == " - Heure: "
            && s[a + 10..a + 15] == "N/A (" && s[a + 15..e] == dur
            && s[e..e + 13] == " min), Prix: " && s[e + 13..g] == price && s[g] == Euro
  {
    var s := LineOf(name, "N/A", dur, price);
    var a := |name|;
    var e := a + 15 + |dur|;
    var g := e + 13 + |price|;
    assert |s| == g + 1;
    assert s[..a] == name by {}
    assert s[a..a + 10] == " - Heure: " by {}
    assert s[a + 10..a + 15] == "N/A (" by {}
    assert s[a + 15..e] == dur by {}
    assert s[e..e + 13] == " min), Prix: " by {}
    assert s[e + 13..g] == price by {}
    assert s[g] == Euro by {}
  }

  /** Past the "H" of "Heure: ", a line with start "N/A" holds no "H". */
  lemma NoHAfterLabel(name: string, dur: string, price: string, q: nat)
    requires 'H' !in dur && 'H' !in price
    requires |name| + 3 < q < |LineOf(name, "N/A", dur, price)|
    ensures LineOf(name, "N/A", dur, price)[q] != 'H'
  {
    var s := LineOf(name, "N/A", dur, price);
    var a := |name|;
    var e := a + 15 + |dur|;
    var g := e + 13 + |price|;
    MissingStartLayout(name, dur, price);
    if q < a + 10 {
      SliceChar(s, a, a + 10, " - Heure: ", q);
    } else if q < a + 15 {
      SliceChar(s, a + 10, a + 15, "N/A (", q);
    } else if q < e {
      SliceChar(s, a + 15, e, dur, q);
    } else if q < e + 13 {
      SliceChar(s, e, e + 13, " min), Prix: ", q);
    } else if q < g {
      SliceChar(s, e + 13, g, price, q);
    }
  }

  /** One index of the line of `NoHeureWithoutStart`. */
  lemma NoHeureAt(name: string, dur: string, price: string, q: nat)
    requires !Contains(name, "Heure: ") && 'H' !in dur && 'H' !in price
    ensures !HeureAt(LineOf(name, "N/A", dur, price), q)
  {
    var s := LineOf(name, "N/A", dur, price);
    var a := |name|;
    if q + 12 <= |s| {
      MissingStartLayout(name, dur, price);
      if q + 7 <= a {
        assert s[q..q + 7] == name[q..q + 7];
        assert !OccursAt(name, "Heure: ", q);
      } else if q <= a + 3 {
        if q <= a + 2 {
          SliceChar(s, a, a + 10, " - Heure: ", q + 7);
        } else {
          SliceChar(s, a + 10, a + 15, "N/A (", q + 7);
        }
        assert s[q + 7..q + 12][0] == s[q + 7];
      } else {
        NoHAfterLabel(name, dur, price, q);
        assert s[q..q + 7][0] == s[q];
      }
    }
  }

  /**
   * A slot without `startAt` prints "Heure: N/A", which the time pattern does
   * not match, so the parse reads the start "00:00".
   */
  lemma MissingStartReadsMidnight(name: string, p: PriceInfo)
    requires !Contains(name, "Heure: ")
    ensures ParseSlotInfo(SlotLine(name, "N/A", p)).startTime == "00:00"
  {
    IntToStringChars(DurationMinutes(p));
    FormatCentsChars(PriceCentsOf(p));
    var s := SlotLine(name, "N/A", p);
    NoHeureWithoutStart(name, IntToString(DurationMinutes(p)), FormatCents(PriceCentsOf(p)));
    FindHeureLeftmost(s, 0);
  }

  // ---- A worked example ----

  lemma TwentyHundred()
    ensures MinutesToTime(1200) == "20:00"
  {
    MinutesToTimeOf(20, 0);
    TwoDigitString(2, 0);
    assert DigitChar(2) == '2' && DigitChar(0) == '0';
    assert NatToString(0) == [DigitChar(0)];
  }

  /** A 90-minute slot from 18:30 ends at 20:00. */
  lemma EndOfExample()
    ensures EndTime("18:30", 90) == "20:00"
  {
    var t := "18:30";
    assert IsClock(t);
    assert DigitValue(t[0]) == 1 && DigitValue(t[1]) == 8 && DigitValue(t[3]) == 3 && DigitValue(t[4]) == 0;
    ClockToMinutes(t);
    assert 60 * ClockHours(t) + ClockMinutes(t) + 90 == 1200;
    TwentyHundred();
  }

  lemma NinetyMinutes()
    ensures IntToString(DurationMinutes(PriceInfo(true, Some(5400), Some(1250)))) == "90"
  {
    assert DurationMinutes(PriceInfo(true, Some(5400), Some(1250))) == 90;
    assert DigitChar(9) == '9' && DigitChar(0) == '0';
    assert NatToString(90) == NatToString(9) + [DigitChar(0)];
  }

  lemma TwelveFifty()
    ensures FormatCents(1250) == "12.50"
  {
    assert DigitChar(1) == '1' && DigitChar(2) == '2' && DigitChar(5) == '5' && DigitChar(0) == '0';
    assert NatToString(12) == NatToString(1) + [DigitChar(2)];
    assert FormatUnsignedCents(1250) == NatToString(12) + "." + [DigitChar(5), DigitChar(0)];
  }

  /** The example line's pieces meet the conditions of `LineRoundTrip`. */
  lemma ExamplePieces()
    ensures !Contains("Court 1", " - ") && !EndsWithSpaceDash("Court 1")
    ensures !Contains("Court 1", "Heure: ") && '(' !in "Court 1" && !Contains("Court 1", "Prix: ")
    ensures IsClock("18:30") && AllDigits("90") && DecimalValue("90") == 90 && PriceText("12.50")
  {
    NotContainsByChar("Court 1", " - ", 1);
    NotContainsByChar("Court 1", "Heure: ", 0);
    NotContainsByChar("Court 1", "Prix: ", 0);
    var price := "12.50";
    assert PriceText(price) by {
      forall k | 0 <= k < |price| ensures InClass(price[k], DigitOrDot) {
      }
    }
    assert DecimalValue("90") == 90 by {
      assert "90"[..1] == "9";
      assert "9"[..0] == [];
    }
  }

  /**
   * The tier of 5400 seconds at 18:30 for 1250 cents on "Court 1" prints as
   * "Court 1 - Heure: 18:30 (90 min), Prix: 12.50€", and that line parses back
   * to court "Court 1", from 18:30 to 20:00, 90 minutes, price "12.50".
   */
  lemma ExampleParse()
    ensures var p := PriceInfo(true, Some(5400), Some(1250));
            SlotLine("Court 1", "18:30", p) == LineOf("Court 1", "18:30", "90", "12.50")
            && ParseSlotInfo(SlotLine("Court 1", "18:30", p))
               == SlotInfo("18:30", "20:00", "Court 1", "12.50", 90, LineOf("Court 1", "18:30", "90", "12.50"))
  {
    NinetyMinutes();
    TwelveFifty();
    ExamplePieces();
    LineRoundTrip("Court 1", "18:30", "90", "12.50");
    EndOfExample();
  }
}
