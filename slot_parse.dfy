/**
 * `parseSlotInfo` and `filterSlotsByTime`: reading a slot string back into a
 * `SlotInfo` with three fixed patterns and defaults, and keeping the slots whose
 * start lies in an inclusive time range.
 */
module SlotParse {
  import opened Wrappers
  import opened Strings
  import opened Time
  import opened PadelTypes
  import opened SlotFormat

  /** `slotString.split(' - ')[0] || 'Unknown Court'`. */
  function PlaygroundOf(slotString: string): string
  {
    var head := Split(slotString, " - ")[0];
    if head == "" then "Unknown Court" else head
  }

  /** The pattern `/Heure: (\d{2}:\d{2})/` matches at index `p`. */
  predicate HeureAt(s: string, p: nat)
  {
    p + 12 <= |s| && s[p..p + 7] == "Heure: " && IsClock(s[p + 7..p + 12])
  }

  /**
   * The captured time of the leftmost match of `/Heure: (\d{2}:\d{2})/` at or after
   * `from`: a result is the capture at the first index where the pattern
   * matches (`FindHeureLeftmost`), and None means it matches nowhere.
   */
  function FindHeure(s: string, from: nat): (r: Option<string>)
    requires from <= |s|
    ensures r.Some? ==> IsClock(r.value)
    ensures r.None? ==> forall p: nat :: from <= p ==> !HeureAt(s, p)
    decreases |s| - from
  {
    if HeureAt(s, from) then Some(s[from + 7..from + 12])
    else if from == |s| then None
    else FindHeure(s, from + 1)
  }

  /** A result of `FindHeure` is the capture at the first index where the pattern matches. */
  lemma {:induction false} FindHeureLeftmost(s: string, from: nat)
    requires from <= |s|
    ensures FindHeure(s, from).Some? ==>
              exists p: nat :: from <= p && HeureAt(s, p) && FindHeure(s, from).value == s[p + 7..p + 12]
                               && forall q: nat :: from <= q < p ==> !HeureAt(s, q)
    decreases |s| - from
  {
    if HeureAt(s, from) {
      assert FindHeure(s, from).value == s[from + 7..from + 12];
    } else if from < |s| {
      FindHeureLeftmost(s, from + 1);
    }
  }

  /** The character classes `\d` and `[\d.]`. */
  datatype CharClass = Digit | DigitOrDot

  predicate InClass(c: char, cls: CharClass)
  {
    IsDigit(c) || (cls == DigitOrDot && c == '.')
  }

  /** The end of the longest run of `cls` characters starting at `i`. */
  function RunEnd(s: string, i: nat, cls: CharClass): (e: nat)
    requires i <= |s|
    ensures i <= e <= |s|
    ensures forall k :: i <= k < e ==> InClass(s[k], cls)
    ensures e < |s| ==> !InClass(s[e], cls)
    decreases |s| - i
  {
    if i < |s| && InClass(s[i], cls) then RunEnd(s, i + 1, cls) else i
  }

  /**
   * The capture of `pre(cls+)post` matched at index `p`. Because the first
   * character of `post` is never in `cls` (" min)" and "€"), backtracking cannot
   * help and the greedy run is the only candidate.
   */
  function RunAt(s: string, p: nat, pre: string, cls: CharClass, post: string): Option<string>
    requires p <= |s|
  {
    if OccursAt(s, pre, p) then
      var b := p + |pre|;
      var e := RunEnd(s, b, cls);
      if e > b && OccursAt(s, post, e) then Some(s[b..e]) else None
    else None
  }

  /** The capture of the leftmost match of `pre(cls+)post` at or after `from`. */
  function FindRun(s: string, from: nat, pre: string, cls: CharClass, post: string): (r: Option<string>)
    requires from <= |s|
    ensures r.Some? ==> |r.value| >= 1 && forall k :: 0 <= k < |r.value| ==> InClass(r.value[k], cls)
    decreases |s| - from
  {
    var here := RunAt(s, from, pre, cls, post);
    if here.Some? then here
    else if from == |s| then None
    else FindRun(s, from + 1, pre, cls, post)
  }

  /**
   * The regular expression `pre(cls+)post` matches `s` at index `p`, its capture
   * ending at `e`: stated on the characters, independently of `RunAt`.
   */
  ghost predicate MatchAt(s: string, p: nat, pre: string, cls: CharClass, post: string, e: nat)
  {
    OccursAt(s, pre, p) && p + |pre| < e && OccursAt(s, post, e)
    && forall k :: p + |pre| <= k < e ==> InClass(s[k], cls)
  }

  /** No match of `pre(cls+)post` starts at an index in [lo, hi). */
  ghost predicate NoMatchIn(s: string, lo: nat, hi: nat, pre: string, cls: CharClass, post: string)
  {
    forall q: nat, e: nat :: lo <= q < hi ==> !MatchAt(s, q, pre, cls, post, e)
  }

  /**
   * When `post` starts with a character outside `cls`, the greedy run is the
   * only candidate at `p`: `RunAt` returns the capture of every match at `p`,
   * and what it returns is one.
   */
  lemma RunAtMatches(s: string, p: nat, pre: string, cls: CharClass, post: string, e: nat)
    requires p <= |s| && post != [] && !InClass(post[0], cls)
    ensures MatchAt(s, p, pre, cls, post, e) ==> RunAt(s, p, pre, cls, post) == Some(s[p + |pre|..e])
    ensures RunAt(s, p, pre, cls, post).Some? ==>
              MatchAt(s, p, pre, cls, post, p + |pre| + |RunAt(s, p, pre, cls, post).value|)
  {
    if MatchAt(s, p, pre, cls, post, e) {
      var b := p + |pre|;
      assert s[e] == post[0] by { assert s[e..e + |post|][0] == s[e]; }
      assert RunEnd(s, b, cls) == e;
    }
  }

  /** Where `RunAt` finds nothing, the pattern does not match. */
  lemma NoMatchWhereRunFails(s: string, p: nat, pre: string, cls: CharClass, post: string)
    requires p <= |s| && post != [] && !InClass(post[0], cls) && RunAt(s, p, pre, cls, post).None?
    ensures forall e: nat :: !MatchAt(s, p, pre, cls, post, e)
  {
    forall e: nat ensures !MatchAt(s, p, pre, cls, post, e) {
      RunAtMatches(s, p, pre, cls, post, e);
    }
  }

  /** `FindRun` returns the capture of the leftmost match at or after `from`, and None exactly when there is none. */
  lemma {:induction false} FindRunLeftmost(s: string, from: nat, pre: string, cls: CharClass, post: string)
    requires from <= |s| && post != [] && !InClass(post[0], cls)
    ensures FindRun(s, from, pre, cls, post).None? <==> NoMatchIn(s, from, |s| + 1, pre, cls, post)
    ensures FindRun(s, from, pre, cls, post).Some? ==>
              exists p: nat, e: nat :: from <= p && MatchAt(s, p, pre, cls, post, e)
                                       && FindRun(s, from, pre, cls, post).value == s[p + |pre|..e]
                                       && NoMatchIn(s, from, p, pre, cls, post)
    decreases |s| - from
  {
    var here := RunAt(s, from, pre, cls, post);
    if here.Some? {
      var e := from + |pre| + |here.value|;
      RunAtMatches(s, from, pre, cls, post, e);
      assert MatchAt(s, from, pre, cls, post, e) && here.value == s[from + |pre|..e];
      assert NoMatchIn(s, from, from, pre, cls, post);
    } else if from < |s| {
      NoMatchWhereRunFails(s, from, pre, cls, post);
      FindRunLeftmost(s, from + 1, pre, cls, post);
      var r := FindRun(s, from + 1, pre, cls, post);
      if r.Some? {
        var p: nat, e: nat :| from + 1 <= p && MatchAt(s, p, pre, cls, post, e)
                               && r.value == s[p + |pre|..e] && NoMatchIn(s, from + 1, p, pre, cls, post);
        assert NoMatchIn(s, from, p, pre, cls, post);
      }
    }
  }

  /** `/\((\d+) min\)/`: the digits of the leftmost "(N min)" (see `DurationMatchLeftmost`). */
  function DurationMatch(s: string): (r: Option<string>)
    ensures r.Some? ==> |r.value| >= 1 && AllDigits(r.value)
  {
    FindRun(s, 0, "(", Digit, " min)")
  }

  /** `DurationMatch` captures the digits of the leftmost "(N min)", and is None exactly when none occurs. */
  lemma DurationMatchLeftmost(s: string)
    ensures DurationMatch(s).None? <==> NoMatchIn(s, 0, |s| + 1, "(", Digit, " min)")
    ensures DurationMatch(s).Some? ==>
              exists p: nat, e: nat :: MatchAt(s, p, "(", Digit, " min)", e) && DurationMatch(s).value == s[p + 1..e]
                                       && NoMatchIn(s, 0, p, "(", Digit, " min)")
  {
    assert !InClass(" min)"[0], Digit);
    FindRunLeftmost(s, 0, "(", Digit, " min)");
  }

  /** `/Prix: ([\d.]+)€/`: the digits and points of the leftmost "Prix: x€" (see `PriceMatchLeftmost`). */
  function PriceMatch(s: string): (r: Option<string>)
    ensures r.Some? ==> |r.value| >= 1 && forall k :: 0 <= k < |r.value| ==> IsDigit(r.value[k]) || r.value[k] == '.'
  {
    FindRun(s, 0, "Prix: ", DigitOrDot, [Euro])
  }

  /** `PriceMatch` captures the price text of the leftmost "Prix: x€", and is None exactly when none occurs. */
  lemma PriceMatchLeftmost(s: string)
    ensures PriceMatch(s).None? <==> NoMatchIn(s, 0, |s| + 1, "Prix: ", DigitOrDot, [Euro])
    ensures PriceMatch(s).Some? ==>
              exists p: nat, e: nat :: MatchAt(s, p, "Prix: ", DigitOrDot, [Euro], e) && PriceMatch(s).value == s[p + 6..e]
                                       && NoMatchIn(s, 0, p, "Prix: ", DigitOrDot, [Euro])
  {
    assert !InClass([Euro][0], DigitOrDot);
    FindRunLeftmost(s, 0, "Prix: ", DigitOrDot, [Euro]);
  }

  /** `timeMatch ? timeMatch[1] : '00:00'`. */
  function StartTimeOf(slotString: string): (t: string)
    ensures IsClock(t)
  {
    var timeMatch := FindHeure(slotString, 0);
    if timeMatch.Some? then timeMatch.value else "00:00"
  }

  /** `durationMatch ? parseInt(durationMatch[1]) : 60`. */
  function DurationOf(slotString: string): nat
  {
    var durationMatch := DurationMatch(slotString);
    if durationMatch.Some? then DecimalValue(durationMatch.value) else 60
  }

  /** The matched price text, or "0". */
  function PriceOf(slotString: string): string
  {
    var priceMatch := PriceMatch(slotString);
    if priceMatch.Some? then priceMatch.value else "0"
  }

  /**
   * `minutesToTime(timeToMinutes(startTime) + duration)` for a start time of the
   * shape "DD:DD", whose minute count is 60 * HH + MM (see `EndTimeFromMinutes`);
   * there is no wrap past midnight.
   */
  function EndTime(startTime: string, duration: nat): string
    requires IsClock(startTime)
  {
    MinutesToTime(60 * ClockHours(startTime) + ClockMinutes(startTime) + duration)
  }

  /** The end time is the start's `timeToMinutes` count plus the duration, printed as a time. */
  lemma EndTimeFromMinutes(startTime: string, duration: nat)
    requires IsClock(startTime)
    ensures TimeToMinutes(startTime).Some?
    ensures EndTime(startTime, duration) == MinutesToTime(TimeToMinutes(startTime).value + duration)
  {
    var m := 60 * ClockHours(startTime) + ClockMinutes(startTime);
    assert TimeToMinutes(startTime) == Some(m);
    assert EndTime(startTime, duration) == MinutesToTime(m + duration);
  }

  /**
   * `parseSlotInfo`: the playground before the first " - ", the start time after
   * "Heure: " ("00:00" if none), the duration in "(N min)" (60 if none), the
   * price text after "Prix: " ("0" if none), and the end time as start plus
   * duration.
   */
  function ParseSlotInfo(slotString: string): (r: SlotInfo)
    ensures r.fullInfo == slotString
    ensures IndexOf(slotString, " - ").None? ==>
              r.playground == (if slotString == "" then "Unknown Court" else slotString)
    ensures IndexOf(slotString, " - ").Some? ==>
              var i := IndexOf(slotString, " - ").value;
              r.playground == (if i == 0 then "Unknown Court" else slotString[..i])
    ensures r.playground != ""
    ensures IsClock(r.startTime)
    ensures FindHeure(slotString, 0).Some? ==> r.startTime == FindHeure(slotString, 0).value
    ensures FindHeure(slotString, 0).None? ==> r.startTime == "00:00"
    ensures DurationMatch(slotString).Some? ==> r.duration == DecimalValue(DurationMatch(slotString).value)
    ensures DurationMatch(slotString).None? ==> r.duration == 60
    ensures PriceMatch(slotString).Some? ==> r.price == PriceMatch(slotString).value
    ensures PriceMatch(slotString).None? ==> r.price == "0"
    ensures r.endTime == EndTime(r.startTime, r.duration)
  {
    SplitHead(slotString, " - ");
    var startTime := StartTimeOf(slotString);
    var duration := DurationOf(slotString);
    SlotInfo(startTime, EndTime(startTime, duration), PlaygroundOf(slotString), PriceOf(slotString), duration, slotString)
  }

  lemma OneOClock()
    ensures MinutesToTime(60) == "01:00"
  {
    assert NatToString(1) == "1" && NatToString(0) == "0";
  }

  /** The default one-hour slot from midnight ends at 01:00. */
  lemma DefaultEnd()
    ensures EndTime("00:00", 60) == "01:00"
  {
    var t := "00:00";
    assert IsClock(t) && t[0] == '0' && t[1] == '0' && t[3] == '0' && t[4] == '0';
    ZeroClock(t);
    OneOClock();
  }

  /** A string with none of the patterns and no " - " keeps itself as the playground and takes every default. */
  lemma {:induction false} UnrecognisedFallsBack(s: string)
    requires s != "" && !Contains(s, " - ")
    requires FindHeure(s, 0).None? && DurationMatch(s).None? && PriceMatch(s).None?
    ensures ParseSlotInfo(s) == SlotInfo("00:00", "01:00", s, "0", 60, s)
  {
    SplitHead(s, " - ");
    DefaultEnd();
  }

  /** The empty string takes every default, including the "Unknown Court" playground. */
  lemma EmptyFallsBack()
    ensures ParseSlotInfo("") == SlotInfo("00:00", "01:00", "Unknown Court", "0", 60, "")
  {
    assert Split("", " - ") == [""];
    assert FindHeure("", 0).None?;
    assert DurationMatch("").None?;
    assert PriceMatch("").None?;
    DefaultEnd();
  }

  // ---- Filtering by time ----

  /** The start of `info` lies in [lo, hi]; a NaN bound (None) admits nothing. */
  predicate StartsWithin(info: SlotInfo, lo: Option<nat>, hi: Option<nat>)
  {
    var t := TimeToMinutes(info.startTime);
    t.Some? && lo.Some? && hi.Some? && lo.value <= t.value && t.value <= hi.value
  }

  /** `slots.map(parseSlotInfo)`. */
  function ParseAll(slots: seq<string>): (r: seq<SlotInfo>)
  {
    seq(|slots|, i requires 0 <= i < |slots| => ParseSlotInfo(slots[i]))
  }

  /** The `.filter` step: keep, in order, the parsed slots that start within [lo, hi]. */
  function KeepWithin(infos: seq<SlotInfo>, lo: Option<nat>, hi: Option<nat>): (r: seq<SlotInfo>)
    ensures |r| <= |infos|
  {
    if infos == [] then []
    else
      var rest := KeepWithin(infos[1..], lo, hi);
      if StartsWithin(infos[0], lo, hi) then [infos[0]] + rest else rest
  }

  /**
   * `filterSlotsByTime`: parse every slot and keep, in order, those whose start
   * lies in the inclusive range [timeStart, timeEnd].
   */
  function FilterSlotsByTime(slots: seq<string>, timeStart: string, timeEnd: string): (r: seq<SlotInfo>)
    ensures |r| <= |slots|
  {
    KeepWithin(ParseAll(slots), TimeToMinutes(timeStart), TimeToMinutes(timeEnd))
  }

  lemma {:induction false} KeepMembership(infos: seq<SlotInfo>, lo: Option<nat>, hi: Option<nat>, x: SlotInfo)
    ensures x in KeepWithin(infos, lo, hi) <==> x in infos && StartsWithin(x, lo, hi)
  {
    if infos != [] {
      KeepMembership(infos[1..], lo, hi, x);
      assert infos == [infos[0]] + infos[1..];
    }
  }

  lemma {:induction false} KeepAppend(a: seq<SlotInfo>, b: seq<SlotInfo>, lo: Option<nat>, hi: Option<nat>)
    ensures KeepWithin(a + b, lo, hi) == KeepWithin(a, lo, hi) + KeepWithin(b, lo, hi)
  {
    if a == [] {
      assert a + b == b;
    } else {
      assert (a + b)[0] == a[0];
      assert (a + b)[1..] == a[1..] + b;
      KeepAppend(a[1..], b, lo, hi);
    }
  }

  /** When no slot starts within the range, nothing is kept. */
  lemma {:induction false} KeepNothing(infos: seq<SlotInfo>, lo: Option<nat>, hi: Option<nat>)
    requires forall k :: 0 <= k < |infos| ==> !StartsWithin(infos[k], lo, hi)
    ensures KeepWithin(infos, lo, hi) == []
  {
    if infos != [] {
      KeepNothing(infos[1..], lo, hi);
    }
  }

  /** A list built element by element from `xs` by `f` holds exactly the images of the elements of `xs`. */
  lemma ImageMembership<X, Y>(xs: seq<X>, ys: seq<Y>, f: X -> Y, y: Y)
    requires |ys| == |xs| && forall i :: 0 <= i < |xs| ==> ys[i] == f(xs[i])
    ensures y in ys <==> exists i :: 0 <= i < |xs| && y == f(xs[i])
  {
    if y in ys {
      var i :| 0 <= i < |ys| && ys[i] == y;
      assert y == f(xs[i]);
    }
  }

  /** The parsed list holds exactly the parses of the input slots. */
  lemma ParsedMembership(slots: seq<string>, x: SlotInfo)
    ensures x in ParseAll(slots) <==> exists i :: 0 <= i < |slots| && x == ParseSlotInfo(slots[i])
  {
    ImageMembership(slots, ParseAll(slots), ParseSlotInfo, x);
  }

  /** A parsed slot is kept exactly when it comes from some input slot and starts within the range. */
  lemma FilterMembership(slots: seq<string>, timeStart: string, timeEnd: string, x: SlotInfo)
    ensures x in FilterSlotsByTime(slots, timeStart, timeEnd)
        <==> (exists i :: 0 <= i < |slots| && x == ParseSlotInfo(slots[i]))
             && StartsWithin(x, TimeToMinutes(timeStart), TimeToMinutes(timeEnd))
  {
    KeepMembership(ParseAll(slots), TimeToMinutes(timeStart), TimeToMinutes(timeEnd), x);
    ParsedMembership(slots, x);
  }

  /** Filtering distributes over concatenation, so the input order is kept. */
  lemma FilterAppend(a: seq<string>, b: seq<string>, timeStart: string, timeEnd: string)
    ensures FilterSlotsByTime(a + b, timeStart, timeEnd)
         == FilterSlotsByTime(a, timeStart, timeEnd) + FilterSlotsByTime(b, timeStart, timeEnd)
  {
    ImageAppend(a, b, ParseAll(a), ParseAll(b), ParseAll(a + b), ParseSlotInfo);
    KeepAppend(ParseAll(a), ParseAll(b), TimeToMinutes(timeStart), TimeToMinutes(timeEnd));
  }

  /** Mapping element by element distributes over concatenation. */
  lemma ImageAppend<X, Y>(a: seq<X>, b: seq<X>, fa: seq<Y>, fb: seq<Y>, fab: seq<Y>, f: X -> Y)
    requires |fa| == |a| && forall i :: 0 <= i < |a| ==> fa[i] == f(a[i])
    requires |fb| == |b| && forall i :: 0 <= i < |b| ==> fb[i] == f(b[i])
    requires |fab| == |a + b| && forall i :: 0 <= i < |a + b| ==> fab[i] == f((a + b)[i])
    ensures fab == fa + fb
  {
    forall i | 0 <= i < |a + b| ensures fab[i] == (fa + fb)[i] {
      if i < |a| {
        assert (a + b)[i] == a[i];
      } else {
        assert (a + b)[i] == b[i - |a|];
      }
    }
  }

  /** With valid bounds and timeStart after timeEnd, nothing is kept. */
  lemma {:induction false} EmptyRange(slots: seq<string>, timeStart: string, timeEnd: string)
    requires ValidClock(timeStart) && ValidClock(timeEnd)
    requires LexLess(timeEnd, timeStart)
    ensures FilterSlotsByTime(slots, timeStart, timeEnd) == []
  {
    ClockOrder(timeEnd, timeStart);
    KeepNothing(ParseAll(slots), TimeToMinutes(timeStart), TimeToMinutes(timeEnd));
  }

  /**
   * Any two readable bounds, well-formed times or not ("9:00" reads as 540),
   * keep nothing when the start's minutes exceed the end's.
   */
  lemma {:induction false} ReversedMinutes(slots: seq<string>, timeStart: string, timeEnd: string)
    requires TimeToMinutes(timeStart).Some? && TimeToMinutes(timeEnd).Some?
    requires TimeToMinutes(timeEnd).value < TimeToMinutes(timeStart).value
    ensures FilterSlotsByTime(slots, timeStart, timeEnd) == []
  {
    KeepNothing(ParseAll(slots), TimeToMinutes(timeStart), TimeToMinutes(timeEnd));
  }

  /** A bound that is not a time (NaN) keeps nothing. */
  lemma {:induction false} UnreadableBoundKeepsNothing(slots: seq<string>, timeStart: string, timeEnd: string)
    requires TimeToMinutes(timeStart).None? || TimeToMinutes(timeEnd).None?
    ensures FilterSlotsByTime(slots, timeStart, timeEnd) == []
  {
    KeepNothing(ParseAll(slots), TimeToMinutes(timeStart), TimeToMinutes(timeEnd));
  }
}
