/**
 * String helpers with the semantics of the JavaScript built-ins the backend
 * uses: `indexOf`, `split`, `join`, `Number.prototype.toString` on integers,
 * and decimal digit strings.
 */
module Strings {
  import opened Wrappers

  predicate IsDigit(c: char) { '0' <= c <= '9' }

  predicate AllDigits(s: string) { forall i :: 0 <= i < |s| ==> IsDigit(s[i]) }

  function DigitValue(c: char): (d: nat)
    requires IsDigit(c)
    ensures d < 10
  {
    c as int - '0' as int
  }

  function DigitChar(d: nat): (c: char)
    requires d < 10
    ensures IsDigit(c) && DigitValue(c) == d
  {
    ('0' as int + d) as char
  }

  lemma DigitCharOfValue(c: char)
    requires IsDigit(c)
    ensures DigitChar(DigitValue(c)) == c
  {
  }

  /** The value of a decimal digit string, most significant digit first; "" is 0. */
  function DecimalValue(s: string): nat
    requires AllDigits(s)
  {
    if s == [] then 0 else DecimalValue(s[..|s| - 1]) * 10 + DigitValue(s[|s| - 1])
  }

  /** A two-digit string denotes a number below 100, tens digit first. */
  lemma TwoDigitValue(s: string)
    requires |s| == 2 && AllDigits(s)
    ensures DecimalValue(s) == 10 * DigitValue(s[0]) + DigitValue(s[1])
    ensures DecimalValue(s) < 100
  {
    assert s[..1][..0] == [];
    assert DecimalValue(s[..1]) == DigitValue(s[0]);
  }

  /** `n.toString()` for a non-negative integer: the shortest decimal representation. */
  function NatToString(n: nat): string
  {
    if n < 10 then [DigitChar(n)] else NatToString(n / 10) + [DigitChar(n % 10)]
  }

  /** `n.toString()` is a non-empty digit string denoting n, with no leading zero. */
  lemma {:induction false} NatToStringDigits(n: nat)
    ensures var r := NatToString(n);
            AllDigits(r) && 1 <= |r| && DecimalValue(r) == n
            && (r[0] == '0' ==> r == "0") && (n < 10 <==> |r| == 1)
  {
    if n >= 10 {
      NatToStringDigits(n / 10);
      var prefix := NatToString(n / 10);
      var r := prefix + [DigitChar(n % 10)];
      assert r[..|r| - 1] == prefix;
    }
  }

  /** A two-digit number prints as its tens digit then its units digit. */
  lemma TwoDigitString(tens: nat, units: nat)
    requires 1 <= tens < 10 && units < 10
    ensures NatToString(10 * tens + units) == [DigitChar(tens), DigitChar(units)]
  {
    var n := 10 * tens + units;
    var q, r := n / 10, n % 10;
    assert n == 10 * q + r && r < 10;
  }

  /** `i.toString()` for any integer: a minus sign before the magnitude when negative. */
  function IntToString(i: int): string
  {
    if i < 0 then "-" + NatToString(-i) else NatToString(i)
  }

  /** `s.padStart(2, '0')`. */
  function PadStart2(s: string): string
  {
    if |s| == 0 then "00" else if |s| == 1 then "0" + s else s
  }

  /** True when `pat` occurs in `s` starting at index `i`. */
  predicate OccursAt(s: string, pat: string, i: nat)
  {
    i + |pat| <= |s| && s[i..i + |pat|] == pat
  }

  predicate Contains(s: string, pat: string)
  {
    exists i: nat :: i <= |s| && OccursAt(s, pat, i)
  }

  /** A pattern with a character that `s` lacks does not occur in `s`. */
  lemma NotContainsByChar(s: string, pat: string, k: nat)
    requires k < |pat| && pat[k] !in s
    ensures !Contains(s, pat)
  {
    forall i: nat | i <= |s| ensures !OccursAt(s, pat, i) {
      if i + |pat| <= |s| {
        assert s[i..i + |pat|][k] == s[i + k];
      }
    }
  }

  /** `s.indexOf(pat, from)`: the first occurrence at or after `from`. */
  function IndexOfFrom(s: string, pat: string, from: nat): (r: Option<nat>)
    requires from <= |s|
    ensures r.Some? ==> from <= r.value && OccursAt(s, pat, r.value)
    ensures r.Some? ==> forall j: nat :: from <= j < r.value ==> !OccursAt(s, pat, j)
    ensures r.None? ==> forall j: nat :: from <= j ==> !OccursAt(s, pat, j)
    decreases |s| - from
  {
    if OccursAt(s, pat, from) then Some(from)
    else if from == |s| then None
    else IndexOfFrom(s, pat, from + 1)
  }

  function IndexOf(s: string, pat: string): (r: Option<nat>)
    ensures r.Some? <==> Contains(s, pat)
    ensures r.Some? ==> OccursAt(s, pat, r.value) && forall j: nat :: j < r.value ==> !OccursAt(s, pat, j)
  {
    IndexOfFrom(s, pat, 0)
  }

  /** `s.split(sep)` for a non-empty separator: the pieces between successive occurrences. */
  function Split(s: string, sep: string): (parts: seq<string>)
    requires |sep| > 0
    ensures 1 <= |parts|
    decreases |s|
  {
    match IndexOf(s, sep)
    case None => [s]
    case Some(i) => [s[..i]] + Split(s[i + |sep|..], sep)
  }

  /** The first piece of a split is the text before the first occurrence, or the whole string. */
  lemma SplitHead(s: string, sep: string)
    requires |sep| > 0
    ensures IndexOf(s, sep).None? ==> Split(s, sep)[0] == s
    ensures IndexOf(s, sep).Some? ==> Split(s, sep)[0] == s[..IndexOf(s, sep).value]
  {
  }

  /** Splitting `a + sep + b` at a one-character separator absent from `a` and `b` gives back `[a, b]`. */
  lemma SplitAtSoleSeparator(a: string, c: char, b: string)
    requires c !in a && c !in b
    ensures Split(a + [c] + b, [c]) == [a, b]
  {
    var s := a + [c] + b;
    forall j: nat | j < |a| ensures !OccursAt(s, [c], j) {
      assert s[j] == a[j];
    }
    assert OccursAt(s, [c], |a|);
    assert IndexOf(s, [c]) == Some(|a|);
    assert s[..|a|] == a;
    assert s[|a| + 1..] == b;
    forall j: nat | j < |b| ensures !OccursAt(b, [c], j) {
      assert b[j] != c;
      assert b[j..j + 1] == [b[j]];
    }
  }

  /** `parts.join(sep)`. */
  function Join(parts: seq<string>, sep: string): (r: string)
    ensures |parts| == 1 ==> r == parts[0]
  {
    if |parts| == 0 then ""
    else if |parts| == 1 then parts[0]
    else Join(parts[..|parts| - 1], sep) + sep + parts[|parts| - 1]
  }

  /** Joining one more piece adds the separator and the piece. */
  lemma JoinSnoc(parts: seq<string>, x: string, sep: string)
    requires parts != []
    ensures Join(parts + [x], sep) == Join(parts, sep) + sep + x
  {
    assert (parts + [x])[..|parts|] == parts;
  }

  lemma JoinFour(a: string, b: string, c: string, d: string, sep: string)
    ensures Join([a, b, c, d], sep) == a + sep + b + sep + c + sep + d
  {
    JoinSnoc([a], b, sep);
    JoinSnoc([a, b], c, sep);
    JoinSnoc([a, b, c], d, sep);
    assert [a] + [b] == [a, b] && [a, b] + [c] == [a, b, c] && [a, b, c] + [d] == [a, b, c, d];
  }
}
