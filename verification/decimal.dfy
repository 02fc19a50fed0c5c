/** Decimal text of integers as the source writes it (`printf("%d")`,
    `std::to_string`, `std::ostream << int`) and reads it (`sscanf` with `%d`
    conversions separated by literal characters). */
module Decimal {
  import opened Wrappers

  predicate IsDigit(c: char) { '0' <= c <= '9' }

  /** The characters C's `isspace` accepts, which `%d` skips. */
  predicate IsSpace(c: char) {
    c == ' ' || c == '\t' || c == '\n' || c == '\U{B}' || c == '\U{C}' || c == '\r'
  }

  predicate AllDigits(s: string) { forall i :: 0 <= i < |s| ==> IsDigit(s[i]) }

  function DigitChar(d: nat): (c: char)
    requires d < 10
    ensures IsDigit(c) && c as int - '0' as int == d
  {
    (d + '0' as int) as char
  }

  function DigitValue(c: char): int
  {
    c as int - '0' as int
  }

  /** The digits of `n`, most significant first, without leading zeros. */
  function NatToString(n: nat): (s: string)
    ensures |s| >= 1 && IsDigit(s[0])
    ensures |s| > 1 ==> s[0] != '0'
  {
    if n < 10 then [DigitChar(n)] else NatToString(n / 10) + [DigitChar(n % 10)]
  }

  /** `%d`: a minus sign for negative values, never a plus sign. */
  function IntToString(i: int): (s: string)
    ensures s != [] && (s[0] == '-' || IsDigit(s[0]))
    ensures s[0] == '-' <==> i < 0
  {
    if i < 0 then "-" + NatToString(-i) else NatToString(i)
  }

  /** The value of a run of decimal digits. */
  function DigitsValue(s: string): int
  {
    if s == [] then 0 else DigitsValue(s[..|s| - 1]) * 10 + DigitValue(s[|s| - 1])
  }

  /** The length of the longest prefix of `s` made of digits. */
  function DigitRun(s: string): (k: nat)
    ensures k <= |s|
  {
    if s != [] && IsDigit(s[0]) then 1 + DigitRun(s[1..]) else 0
  }

  function SkipSpace(s: string): string
  {
    if s != [] && IsSpace(s[0]) then SkipSpace(s[1..]) else s
  }

  /** The digits at the front of `t` (at least one) and their value. */
  function ScanDigits(t: string): Option<(int, string)>
  {
    var k := DigitRun(t);
    if k == 0 then None else Some((DigitsValue(t[..k]), t[k..]))
  }

  /** An optional sign, then digits. */
  function ScanSigned(t: string): Option<(int, string)>
  {
    if t != [] && (t[0] == '-' || t[0] == '+') then
      match ScanDigits(t[1..])
      case None => None
      case Some((v, rest)) => Some((if t[0] == '-' then -v else v, rest))
    else
      ScanDigits(t)
  }

  /** One `%d` conversion: skip white space, an optional sign, then at least
      one digit; the longest digit run is taken. Yields the value and the
      unread rest, or None on a matching failure. */
  function ScanInt(s: string): Option<(int, string)>
  {
    ScanSigned(SkipSpace(s))
  }

  /** `sscanf(s, "%d,%d,...")` with `n` conversions: the values of the leading
      conversions that succeeded (its length is sscanf's count; the values
      are what it has stored). A literal ',' must be the very next character. */
  function ScanCommaInts(s: string, n: nat): (r: seq<int>)
    ensures |r| <= n
    decreases n, 1
  {
    if n == 0 then [] else ScanCommaIntsAfter(ScanInt(s), n)
  }

  /** The rest of `ScanCommaInts` once the first of its `n` conversions has
      been attempted. */
  function ScanCommaIntsAfter(first: Option<(int, string)>, n: nat): (r: seq<int>)
    requires n >= 1
    ensures |r| <= n
    decreases n, 0
  {
    match first
    case None => []
    case Some((v, rest)) =>
      if n == 1 then [v]
      else if rest != [] && rest[0] == ',' then [v] + ScanCommaInts(rest[1..], n - 1)
      else [v]
  }

  /** The decimal fields of a comma-separated line, as `<<` writes them. */
  function JoinCommaInts(vs: seq<int>): string
  {
    if vs == [] then []
    else if |vs| == 1 then IntToString(vs[0])
    else IntToString(vs[0]) + ("," + JoinCommaInts(vs[1..]))
  }
}

/** Reading back what the source prints: the round trips between `%d`
    output and `%d` input. */
module DecimalRoundTrip {
  import opened Wrappers
  import opened Decimal

  lemma DropFirst(c: char, tail: string)
    ensures ([c] + tail)[1..] == tail
  {
  }

  lemma ConcatAssoc(a: string, b: string, c: string)
    ensures (a + b) + c == a + (b + c)
  {
  }

  /** `%d` of a natural number is made of digits only. */
  lemma {:induction false} NatToStringDigits(n: nat)
    ensures AllDigits(NatToString(n))
  {
    if n >= 10 {
      NatToStringDigits(n / 10);
    }
  }

  /** The digit run stops at the first non-digit. */
  lemma {:induction false} DigitRunIsMaximal(s: string)
    ensures AllDigits(s[..DigitRun(s)])
    ensures DigitRun(s) < |s| ==> !IsDigit(s[DigitRun(s)])
  {
    if s != [] && IsDigit(s[0]) {
      DigitRunIsMaximal(s[1..]);
      assert s[..DigitRun(s)] == [s[0]] + s[1..][..DigitRun(s[1..])];
    }
  }

  lemma {:induction false} DigitsValueSnoc(s: string, c: char)
    ensures DigitsValue(s + [c]) == DigitsValue(s) * 10 + DigitValue(c)
  {
    assert (s + [c])[..|s + [c]| - 1] == s;
  }

  /** Reading back the digits `%d` writes gives the number written. */
  lemma {:induction false} NatToStringValue(n: nat)
    ensures DigitsValue(NatToString(n)) == n
  {
    if n >= 10 {
      NatToStringValue(n / 10);
      DigitsValueSnoc(NatToString(n / 10), DigitChar(n % 10));
    }
  }

  /** The digit run of a digit string followed by a non-digit stops exactly at
      the end of the digits. */
  lemma {:induction false} DigitRunOfDigits(d: string, rest: string)
    requires AllDigits(d)
    requires rest == [] || !IsDigit(rest[0])
    ensures DigitRun(d + rest) == |d|
  {
    if d != [] {
      DropFirst(d[0], d[1..] + rest);
      assert d + rest == [d[0]] + (d[1..] + rest);
      DigitRunOfDigits(d[1..], rest);
    }
  }

  lemma {:induction false} ScanDigitsOfNatToString(n: nat, rest: string)
    requires rest == [] || !IsDigit(rest[0])
    ensures ScanDigits(NatToString(n) + rest) == Some((n, rest))
  {
    var d := NatToString(n);
    NatToStringDigits(n);
    DigitRunOfDigits(d, rest);
    assert (d + rest)[..|d|] == d;
    assert (d + rest)[|d|..] == rest;
    NatToStringValue(n);
  }

  /** `%d` reads back exactly what `%d` wrote, and leaves the rest unread,
      provided the rest does not continue the digit run. */
  lemma {:induction false} ScanIntOfIntToString(i: int, rest: string)
    requires rest == [] || !IsDigit(rest[0])
    ensures ScanInt(IntToString(i) + rest) == Some((i, rest))
  {
    var s := IntToString(i) + rest;
    assert SkipSpace(s) == s;
    if i < 0 {
      var d := NatToString(-i);
      assert IntToString(i) == "-" + d;
      ConcatAssoc("-", d, rest);
      DropFirst('-', d + rest);
      ScanDigitsOfNatToString(-i, rest);
      assert ScanDigits(s[1..]) == Some((-i, rest));
    } else {
      assert IntToString(i) == NatToString(i);
      ScanDigitsOfNatToString(i, rest);
    }
  }

  lemma ScanCommaIntsAfterComma(v: int, tail: string, n: nat)
    requires n >= 2
    ensures ScanCommaIntsAfter(Some((v, "," + tail)), n) == [v] + ScanCommaInts(("," + tail)[1..], n - 1)
  {
  }

  lemma ScanCommaIntsStep(s: string, v: int, tail: string, n: nat, m: nat)
    requires n >= 2 && m == n - 1
    requires ScanInt(s) == Some((v, "," + tail))
    ensures ScanCommaInts(s, n) == [v] + ScanCommaInts(tail, m)
  {
    ScanCommaIntsAfterComma(v, tail, n);
    DropFirst(',', tail);
    assert ScanCommaInts(s, n) == ScanCommaIntsAfter(ScanInt(s), n);
  }

  /** A line of comma-separated `%d` fields is read back field for field by
      `sscanf` with at least as many `%d` conversions; conversions beyond
      the end of the line match nothing. */
  lemma {:induction false} ScanJoinedInts(vs: seq<int>, n: nat)
    requires vs != [] && n >= |vs|
    ensures ScanCommaInts(JoinCommaInts(vs), n) == vs
  {
    var v, more := vs[0], vs[1..];
    assert vs == [v] + more;
    if more == [] {
      JoinOne(vs);
      ScanOneField(v, n);
    } else {
      var tail := JoinCommaInts(more);
      JoinStep(vs);
      ScanFieldThenComma(v, tail, n);
      ScanJoinedInts(more, n - 1);
    }
  }

  lemma JoinOne(vs: seq<int>)
    requires |vs| == 1
    ensures JoinCommaInts(vs) == IntToString(vs[0])
  {
  }

  lemma JoinStep(vs: seq<int>)
    requires |vs| >= 2
    ensures JoinCommaInts(vs) == IntToString(vs[0]) + ("," + JoinCommaInts(vs[1..]))
  {
  }

  lemma ScanOneField(v: int, n: nat)
    requires n >= 1
    ensures ScanCommaInts(IntToString(v), n) == [v]
  {
    ScanIntOfIntToString(v, []);
    assert IntToString(v) + [] == IntToString(v);
    assert ScanCommaInts(IntToString(v), n) == ScanCommaIntsAfter(Some((v, [])), n);
  }

  lemma ScanFieldThenComma(v: int, tail: string, n: nat)
    requires n >= 2
    ensures ScanCommaInts(IntToString(v) + ("," + tail), n) == [v] + ScanCommaInts(tail, n - 1)
  {
    ScanIntOfIntToString(v, "," + tail);
    ScanCommaIntsStep(IntToString(v) + ("," + tail), v, tail, n, n - 1);
  }
}
