/**
 * The shared time helpers: "HH:MM" strings to minutes since midnight and back,
 * and the French day-name table indexed by `Date.getDay()` (0 = Sunday).
 */
module Time {
  import opened Wrappers
  import opened Strings

  /**
   * `Number(s)` on the strings this model interprets: the empty string is 0 and a
   * string of decimal digits is its value; anything else is NaN, written None.
   */
  function JsNumber(s: string): (r: Option<nat>)
    ensures r.Some? <==> AllDigits(s)
  {
    if AllDigits(s) then Some(DecimalValue(s)) else None
  }

  /**
   * `timeToMinutes`: split at ':' and combine the first two pieces as hours and
   * minutes. A string with no ':' or a non-numeric piece gives NaN (None); pieces
   * after the second are ignored, as destructuring ignores them.
   */
  function TimeToMinutes(timeStr: string): (r: Option<nat>)
    ensures r.Some? ==> Contains(timeStr, ":")
    ensures IsClock(timeStr) ==> r == Some(60 * ClockHours(timeStr) + ClockMinutes(timeStr))
  {
    var parts := Split(timeStr, ":");
    assert IsClock(timeStr) ==> parts == [timeStr[..2], timeStr[3..]] by {
      if IsClock(timeStr) {
        ClockSplit(timeStr);
      }
    }
    if |parts| < 2 then None
    else
      var hours, minutes := JsNumber(parts[0]), JsNumber(parts[1]);
      if hours.Some? && minutes.Some? then Some(hours.value * 60 + minutes.value) else None
  }

  /** `minutesToTime`: whole hours and remaining minutes, each padded to two digits; no wrap at 24:00. */
  function MinutesToTime(minutes: nat): (r: string)
    ensures |r| >= 5
  {
    var hours, mins := PadStart2(NatToString(minutes / 60)), PadStart2(NatToString(minutes % 60));
    PaddedValue(minutes / 60);
    PaddedValue(minutes % 60);
    hours + ":" + mins
  }

  /** A string of the shape "DD:DD" with decimal digits. */
  predicate IsClock(s: string)
  {
    |s| == 5 && IsDigit(s[0]) && IsDigit(s[1]) && s[2] == ':' && IsDigit(s[3]) && IsDigit(s[4])
  }

  function ClockHours(s: string): nat
    requires IsClock(s)
  {
    DecimalValue(s[..2])
  }

  function ClockMinutes(s: string): nat
    requires IsClock(s)
  {
    DecimalValue(s[3..])
  }

  /** A time of day "HH:MM" with hours 00..23 and minutes 00..59. */
  predicate ValidClock(s: string)
  {
    IsClock(s) && ClockHours(s) <= 23 && ClockMinutes(s) <= 59
  }

  /** A "DD:DD" string splits at its colon into the two digit pairs. */
  lemma ClockSplit(s: string)
    requires IsClock(s)
    ensures Split(s, ":") == [s[..2], s[3..]]
  {
    assert s == s[..2] + [':'] + s[3..];
    SplitAtSoleSeparator(s[..2], ':', s[3..]);
  }

  /** For a digit string "HH:MM", the result is 60 * HH + MM. */
  lemma ClockToMinutes(s: string)
    requires IsClock(s)
    ensures TimeToMinutes(s) == Some(60 * ClockHours(s) + ClockMinutes(s))
    ensures ClockHours(s) == 10 * DigitValue(s[0]) + DigitValue(s[1])
    ensures ClockMinutes(s) == 10 * DigitValue(s[3]) + DigitValue(s[4])
  {
    TwoDigitValue(s[..2]);
    TwoDigitValue(s[3..]);
  }

  /** A clock with all-zero digits reads as zero hours and zero minutes. */
  lemma ZeroClock(t: string)
    requires IsClock(t) && t[0] == '0' && t[1] == '0' && t[3] == '0' && t[4] == '0'
    ensures ClockHours(t) == 0 && ClockMinutes(t) == 0
  {
    TwoDigitValue(t[..2]);
    TwoDigitValue(t[3..]);
  }

  lemma Midnight()
    ensures TimeToMinutes("00:00") == Some(0)
  {
    var zero := "00:00";
    assert IsClock(zero) && zero[0] == '0' && zero[1] == '0' && zero[3] == '0' && zero[4] == '0';
    ZeroClock(zero);
    ClockToMinutes(zero);
  }

  lemma LastMinute()
    ensures TimeToMinutes("23:59") == Some(1439)
  {
    var last := "23:59";
    assert IsClock(last) && DigitValue(last[0]) == 2 && DigitValue(last[1]) == 3
      && DigitValue(last[3]) == 5 && DigitValue(last[4]) == 9;
    ClockToMinutes(last);
  }

  /** A number below 100, written and padded to two digits, reads back as itself. */
  lemma PaddedValue(n: nat)
    ensures var p := PadStart2(NatToString(n)); AllDigits(p) && DecimalValue(p) == n
    ensures n < 100 ==> |PadStart2(NatToString(n))| == 2
  {
    var t := NatToString(n);
    NatToStringDigits(n);
    if |t| == 1 {
      var p := "0" + t;
      assert p[..1] == "0";
      assert DecimalValue("0") == 0 by { assert "0"[..0] == []; }
    }
    if n >= 10 && n < 100 {
      NatToStringDigits(n / 10);
      assert NatToString(n / 10) == [DigitChar(n / 10)];
    }
  }

  /** A two-digit string is what padding its value gives back. */
  lemma PaddedDigits(d: string)
    requires |d| == 2 && AllDigits(d)
    ensures PadStart2(NatToString(DecimalValue(d))) == d
  {
    TwoDigitValue(d);
    var v := DecimalValue(d);
    DigitCharOfValue(d[0]);
    DigitCharOfValue(d[1]);
    if v < 10 {
      assert DigitValue(d[0]) == 0;
      assert d == "0" + [d[1]];
    } else {
      assert v / 10 == DigitValue(d[0]) && v % 10 == DigitValue(d[1]);
      assert d == [d[0]] + [d[1]];
    }
  }

  /** Two digit strings joined by ':' read as hours and minutes. */
  lemma {:induction false} DigitsToMinutes(h: string, mm: string)
    requires AllDigits(h) && AllDigits(mm)
    ensures TimeToMinutes(h + ":" + mm) == Some(DecimalValue(h) * 60 + DecimalValue(mm))
  {
    assert ':' !in h by {
      forall i | 0 <= i < |h| ensures h[i] != ':' { assert IsDigit(h[i]); }
    }
    assert ':' !in mm by {
      forall i | 0 <= i < |mm| ensures mm[i] != ':' { assert IsDigit(mm[i]); }
    }
    SplitAtSoleSeparator(h, ':', mm);
  }

  /** `timeToMinutes(minutesToTime(m)) == m` for every non-negative m. */
  lemma {:induction false} MinutesRoundTrip(m: nat)
    ensures TimeToMinutes(MinutesToTime(m)) == Some(m)
  {
    PaddedValue(m / 60);
    PaddedValue(m % 60);
    DigitsToMinutes(PadStart2(NatToString(m / 60)), PadStart2(NatToString(m % 60)));
  }

  /** `minutesToTime(timeToMinutes(s)) == s` for every valid "HH:MM". */
  lemma {:induction false} ClockRoundTrip(s: string)
    requires ValidClock(s)
    ensures TimeToMinutes(s).Some?
    ensures MinutesToTime(TimeToMinutes(s).value) == s
  {
    ClockToMinutes(s);
    var h, m := ClockHours(s), ClockMinutes(s);
    ClockPieces(s);
    calc {
      MinutesToTime(TimeToMinutes(s).value);
      MinutesToTime(60 * h + m);
      { MinutesToTimeOf(h, m); }
      PadStart2(NatToString(h)) + ":" + PadStart2(NatToString(m));
      { PaddedDigits(s[..2]); PaddedDigits(s[3..]); }
      s[..2] + ":" + s[3..];
      s;
    }
  }

  /** A "DD:DD" string is its two digit pairs around the colon. */
  lemma ClockPieces(s: string)
    requires IsClock(s)
    ensures |s[..2]| == 2 && AllDigits(s[..2]) && |s[3..]| == 2 && AllDigits(s[3..])
    ensures s == s[..2] + ":" + s[3..]
  {
  }

  /** `minutesToTime(60 * h + m)` prints h and m, each padded, when m < 60. */
  lemma MinutesToTimeOf(h: nat, m: nat)
    requires m < 60
    ensures MinutesToTime(60 * h + m) == PadStart2(NatToString(h)) + ":" + PadStart2(NatToString(m))
  {
    HoursAndMinutes(h, m);
  }

  /** 60 * h + m splits back into h whole hours and m minutes when m < 60. */
  lemma HoursAndMinutes(h: nat, m: nat)
    requires m < 60
    ensures (60 * h + m) / 60 == h && (60 * h + m) % 60 == m
  {
  }

  /** Below 24:00 the result is a valid clock for the same hour and minute; above, it does not wrap. */
  lemma {:induction false} MinutesToTimeShape(m: nat)
    ensures m < 100 * 60 ==> IsClock(MinutesToTime(m)) && ClockHours(MinutesToTime(m)) == m / 60
                             && ClockMinutes(MinutesToTime(m)) == m % 60
    ensures m < 24 * 60 ==> ValidClock(MinutesToTime(m))
  {
    if m < 100 * 60 {
      var h := PadStart2(NatToString(m / 60));
      var mm := PadStart2(NatToString(m % 60));
      PaddedValue(m / 60);
      PaddedValue(m % 60);
      var s := MinutesToTime(m);
      assert s[..2] == h && s[3..] == mm;
    }
  }

  /** From 24:00 on, the hours keep counting past 23 instead of wrapping to 00. */
  lemma NoWrapPastMidnight(m: nat)
    requires 24 * 60 <= m < 100 * 60
    ensures IsClock(MinutesToTime(m)) && ClockHours(MinutesToTime(m)) == m / 60
    ensures !ValidClock(MinutesToTime(m))
  {
    MinutesToTimeShape(m);
  }

  /** 1470 minutes print as "24:30": the hour is not reduced modulo 24. */
  lemma HalfPastMidnightNextDay()
    ensures MinutesToTime(1470) == "24:30"
  {
    MinutesToTimeOf(24, 30);
    TwoDigitString(2, 4);
    TwoDigitString(3, 0);
    assert DigitChar(2) == '2' && DigitChar(4) == '4' && DigitChar(3) == '3' && DigitChar(0) == '0';
  }

  /** JavaScript's `<` on strings: code-unit order, a proper prefix first. */
  predicate LexLess(a: string, b: string)
  {
    if a == [] then b != []
    else if b == [] then false
    else a[0] < b[0] || (a[0] == b[0] && LexLess(a[1..], b[1..]))
  }

  /** On two "DD:DD" strings, `<` compares digit by digit, skipping the equal colons. */
  lemma {:induction false} LexLessClock(a: string, b: string)
    requires IsClock(a) && IsClock(b)
    ensures LexLess(a, b) <==>
      a[0] < b[0] || (a[0] == b[0] && (a[1] < b[1] || (a[1] == b[1] &&
        (a[3] < b[3] || (a[3] == b[3] && a[4] < b[4])))))
  {
    assert LexLess(a[4..], b[4..]) <==> a[4] < b[4] by {
      assert a[4..][1..] == [] && b[4..][1..] == [];
    }
    assert LexLess(a[3..], b[3..]) <==> a[3] < b[3] || (a[3] == b[3] && LexLess(a[4..], b[4..])) by {
      assert a[3..][1..] == a[4..] && b[3..][1..] == b[4..];
    }
    assert LexLess(a[2..], b[2..]) <==> LexLess(a[3..], b[3..]) by {
      assert a[2..][1..] == a[3..] && b[2..][1..] == b[3..];
    }
    assert LexLess(a[1..], b[1..]) <==> a[1] < b[1] || (a[1] == b[1] && LexLess(a[2..], b[2..])) by {
      assert a[1..][1..] == a[2..] && b[1..][1..] == b[2..];
    }
  }

  /** Comparing 10x + y by its digits: the tens decide unless equal. */
  lemma TwoDigitOrder(x: nat, y: nat, x': nat, y': nat)
    requires y < 10 && y' < 10
    ensures 10 * x + y < 10 * x' + y' <==> x < x' || (x == x' && y < y')
  {
  }

  /** Comparing 60h + m with m below 60: the hours decide unless equal. */
  lemma HourMinuteOrder(h: nat, m: nat, h': nat, m': nat)
    requires m < 60 && m' < 60
    ensures 60 * h + m < 60 * h' + m' <==> h < h' || (h == h' && m < m')
  {
  }

  /** Digit characters compare as their values do. */
  lemma DigitCharOrder(c: char, d: char)
    requires IsDigit(c) && IsDigit(d)
    ensures c < d <==> DigitValue(c) < DigitValue(d)
    ensures c == d <==> DigitValue(c) == DigitValue(d)
  {
  }

  /** Digit-by-digit order of hours and minutes is the order of their minute counts. */
  lemma DigitsOrder(a0: nat, a1: nat, a3: nat, a4: nat, b0: nat, b1: nat, b3: nat, b4: nat)
    requires a1 < 10 && b1 < 10 && a4 < 10 && b4 < 10
    requires 10 * a3 + a4 < 60 && 10 * b3 + b4 < 60
    ensures (a0 < b0 || (a0 == b0 && (a1 < b1 || (a1 == b1 && (a3 < b3 || (a3 == b3 && a4 < b4))))))
        <==> 60 * (10 * a0 + a1) + (10 * a3 + a4) < 60 * (10 * b0 + b1) + (10 * b3 + b4)
  {
    HourMinuteOrder(10 * a0 + a1, 10 * a3 + a4, 10 * b0 + b1, 10 * b3 + b4);
    TwoDigitOrder(a0, a1, b0, b1);
    TwoDigitOrder(a3, a4, b3, b4);
  }

  /** On valid clocks, string order and minute order agree. */
  lemma {:induction false} ClockOrder(a: string, b: string)
    requires ValidClock(a) && ValidClock(b)
    ensures TimeToMinutes(a).Some? && TimeToMinutes(b).Some?
    ensures LexLess(a, b) <==> TimeToMinutes(a).value < TimeToMinutes(b).value
  {
    ClockToMinutes(a);
    ClockToMinutes(b);
    LexLessClock(a, b);
    DigitCharOrder(a[0], b[0]);
    DigitCharOrder(a[1], b[1]);
    DigitCharOrder(a[3], b[3]);
    DigitCharOrder(a[4], b[4]);
    DigitsOrder(DigitValue(a[0]), DigitValue(a[1]), DigitValue(a[3]), DigitValue(a[4]),
                DigitValue(b[0]), DigitValue(b[1]), DigitValue(b[3]), DigitValue(b[4]));
  }

  /** `DAYS_OF_WEEK_NAMES`, indexed by `Date.getDay()`. */
  const DaysOfWeekNames: seq<string> :=
    ["Dimanche", "Lundi", "Mardi", "Mercredi", "Jeudi", "Vendredi", "Samedi"]

  /** `getDayName`: the French name of a day number, "Unknown" outside 0..6. */
  function DayName(dayNumber: int): (r: string)
    ensures 0 <= dayNumber < 7 ==> r == DaysOfWeekNames[dayNumber]
    ensures r == "Unknown" <==> !(0 <= dayNumber < 7)
  {
    if 0 <= dayNumber < |DaysOfWeekNames| then DaysOfWeekNames[dayNumber] else "Unknown"
  }

  /** Each day number in 0..6 has its own name, and 0 is Sunday. */
  lemma DayNamesDistinct(a: int, b: int)
    requires 0 <= a < 7 && 0 <= b < 7
    ensures DayName(a) == DayName(b) ==> a == b
    ensures DayName(0) == "Dimanche"
  {
  }
}
