/**
 * Decimal text for integers, as produced by printf's `%d`, `%3d`, `%05d` /
 * `%05i` and Python's `%05i`, and as read back by Python's `int()` and
 * C++'s `std::stoi`.
 */
module Decimal {
  import opened Common

  predicate IsDigit(c: char) {
    '0' <= c <= '9'
  }

  predicate AllDigits(s: string) {
    forall i :: 0 <= i < |s| ==> IsDigit(s[i])
  }

  function DigitChar(d: nat): (c: char)
    requires d < 10
    ensures IsDigit(c) && c as int - '0' as int == d
  {
    ('0' as int + d) as char
  }

  function DigitValue(c: char): (d: nat)
    requires IsDigit(c)
    ensures d < 10 && DigitChar(d) == c
  {
    c as int - '0' as int
  }

  /** The value of a string of decimal digits, most significant first. */
  function DigitsValue(s: string): nat
    requires AllDigits(s)
  {
    if s == [] then 0 else DigitsValue(s[..|s| - 1]) * 10 + DigitValue(s[|s| - 1])
  }

  /** The shortest decimal representation of `n` (no leading zeros, "0" for zero). */
  function NatToString(n: nat): (s: string)
    ensures 1 <= |s| && AllDigits(s)
    ensures |s| > 1 ==> s[0] != '0'
  {
    if n < 10 then [DigitChar(n)] else NatToString(n / 10) + [DigitChar(n % 10)]
  }

  /** printf's `%d` and Python's `str()` of an integer. */
  function IntToString(n: int): string {
    if n < 0 then "-" + NatToString(-n) else NatToString(n)
  }

  function Repeat(c: char, k: nat): (s: string)
    ensures |s| == k && forall i :: 0 <= i < k ==> s[i] == c
  {
    if k == 0 then [] else [c] + Repeat(c, k - 1)
  }

  /** Left-pads `s` with `c` up to `width`; never truncates. */
  function PadLeft(s: string, c: char, width: nat): (r: string)
    ensures |r| == if |s| < width then width else |s|
    ensures r[|r| - |s|..] == s
    ensures forall i :: 0 <= i < |r| - |s| ==> r[i] == c
  {
    Repeat(c, if |s| < width then width - |s| else 0) + s
  }

  /** printf's `%<width>d`: space padding in front of the sign. */
  function SpacePadded(n: int, width: nat): string {
    PadLeft(IntToString(n), ' ', width)
  }

  /**
   * printf's and Python's `%0<width>d`: the sign comes first and the digits
   * are zero-padded so that sign and digits together fill `width`.
   */
  function ZeroPadded(n: int, width: nat): string {
    if n < 0 then "-" + PadLeft(NatToString(-n), '0', if width == 0 then 0 else width - 1)
    else PadLeft(NatToString(n), '0', width)
  }

  /**
   * The strict reading of decimal text: an optional sign followed by at
   * least one decimal digit, and nothing else.  The formatting functions
   * are proved against it, and `PyInt` reduces to it on text without white
   * space.
   */
  function ParseInt(s: string): Option<int> {
    if |s| > 0 && (s[0] == '-' || s[0] == '+') then
      if |s| > 1 && AllDigits(s[1..]) then
        var v: int := DigitsValue(s[1..]);
        Some(if s[0] == '-' then -v else v)
      else None
    else if |s| > 0 && AllDigits(s) then Some(DigitsValue(s))
    else None
  }

  /** White space as C's `isspace` in the "C" locale sees it. */
  predicate IsSpace(c: char) {
    c == ' ' || c == '\t' || c == '\n' || c == '\U{000b}' || c == '\U{000c}' || c == '\r'
  }

  predicate AllSpace(s: string) {
    forall i :: 0 <= i < |s| ==> IsSpace(s[i])
  }

  /** `s` without its leading white space. */
  function TrimLeft(s: string): (r: string)
    ensures |r| <= |s| && r == s[|s| - |r|..]
    ensures AllSpace(s[..|s| - |r|])
    ensures r != [] ==> !IsSpace(r[0])
    decreases |s|
  {
    if s != [] && IsSpace(s[0]) then
      var r := TrimLeft(s[1..]);
      SpaceThenSpaces(s, |s| - |r|);
      r
    else s
  }

  /** `s` without its trailing white space. */
  function TrimRight(s: string): (r: string)
    ensures |r| <= |s| && r == s[..|r|]
    ensures AllSpace(s[|r|..])
    ensures r != [] ==> !IsSpace(r[|r| - 1])
    decreases |s|
  {
    if s != [] && IsSpace(s[|s| - 1]) then
      var r := TrimRight(s[..|s| - 1]);
      SpacesThenSpace(s, |r|);
      r
    else s
  }

  lemma SpaceThenSpaces(s: string, k: nat)
    requires 0 < k <= |s| && IsSpace(s[0]) && AllSpace(s[1..][..k - 1])
    ensures AllSpace(s[..k])
  {
    forall i | 0 <= i < k ensures IsSpace(s[..k][i]) {
      if i > 0 {
        assert s[..k][i] == s[1..][..k - 1][i - 1];
      }
    }
  }

  lemma SpacesThenSpace(s: string, k: nat)
    requires k < |s| && IsSpace(s[|s| - 1]) && AllSpace(s[..|s| - 1][k..])
    ensures AllSpace(s[k..])
  {
    forall i | 0 <= i < |s| - k ensures IsSpace(s[k..][i]) {
      if k + i < |s| - 1 {
        assert s[k..][i] == s[..|s| - 1][k..][i];
      }
    }
  }

  /**
   * Python 2's `int()` on a `str`: white space, an optional sign, white
   * space again, at least one decimal digit, and trailing white space
   * (`PyOS_strtol` skips white space both before and after the sign);
   * anything else raises `ValueError` (None).
   */
  function PyInt(s: string): Option<int> {
    ReadSigned(TrimRight(TrimLeft(s)))
  }

  /** The number `int()` reads once the outer white space is gone. */
  function ReadSigned(t: string): Option<int> {
    if |t| > 0 && (t[0] == '-' || t[0] == '+') then
      var d := TrimLeft(t[1..]);
      if |d| > 0 && AllDigits(d) then
        var v: int := DigitsValue(d);
        Some(if t[0] == '-' then -v else v)
      else None
    else if |t| > 0 && AllDigits(t) then Some(DigitsValue(t))
    else None
  }

  lemma NoSpaceTrims(s: string)
    requires forall i :: 0 <= i < |s| ==> !IsSpace(s[i])
    ensures TrimLeft(s) == s && TrimRight(s) == s
  {
    if s != [] {
      assert !IsSpace(s[0]) && !IsSpace(s[|s| - 1]);
    }
  }

  /** On text without white space, `int()` is the strict reading. */
  lemma PyIntWithoutSpace(s: string)
    requires forall i :: 0 <= i < |s| ==> !IsSpace(s[i])
    ensures PyInt(s) == ParseInt(s)
  {
    NoSpaceTrims(s);
    if |s| > 0 {
      NoSpaceTrims(s[1..]);
    }
  }

  lemma {:induction false} TrimLeftSpace(a: string, x: string)
    requires AllSpace(a)
    ensures TrimLeft(a + x) == TrimLeft(x)
    decreases |a|
  {
    if a != [] {
      assert IsSpace(a[0]);
      assert (a + x)[0] == a[0];
      assert (a + x)[1..] == a[1..] + x;
      TrimLeftSpace(a[1..], x);
      assert TrimLeft(a + x) == TrimLeft(a[1..] + x);
    } else {
      assert a + x == x;
    }
  }

  lemma {:induction false} TrimRightSpace(x: string, b: string)
    requires AllSpace(b)
    ensures TrimRight(x + b) == TrimRight(x)
    decreases |b|
  {
    if b != [] {
      assert IsSpace(b[|b| - 1]);
      var xb := x + b;
      assert xb[|xb| - 1] == b[|b| - 1];
      assert xb[..|xb| - 1] == x + b[..|b| - 1];
      TrimRightSpace(x, b[..|b| - 1]);
      assert TrimRight(xb) == TrimRight(x + b[..|b| - 1]);
    } else {
      assert x + b == x;
    }
  }

  /** Leading white space never reaches past the first non-space character. */
  lemma {:induction false} TrimLeftAppend(x: string, b: string)
    ensures TrimLeft(x + b) == if TrimLeft(x) == [] then TrimLeft(b) else TrimLeft(x) + b
    decreases |x|
  {
    if x == [] {
      assert x + b == b;
    } else if IsSpace(x[0]) {
      assert (x + b)[0] == x[0];
      assert (x + b)[1..] == x[1..] + b;
      TrimLeftAppend(x[1..], b);
    } else {
      assert (x + b)[0] == x[0];
    }
  }

  /** Python's `int()` ignores white space around the number. */
  lemma PyIntIgnoresPadding(a: string, t: string, b: string)
    requires AllSpace(a) && AllSpace(b)
    ensures PyInt(a + t + b) == PyInt(t)
  {
    TrimPadding(a, t, b);
  }

  lemma TrimPadding(a: string, t: string, b: string)
    requires AllSpace(a) && AllSpace(b)
    ensures TrimRight(TrimLeft(a + t + b)) == TrimRight(TrimLeft(t))
  {
    assert a + t + b == a + (t + b);
    TrimLeftSpace(a, t + b);
    TrimLeftAppend(t, b);
    if TrimLeft(t) == [] {
      TrimLeftSpace(b, []);
      assert b + [] == b;
    } else {
      TrimRightSpace(TrimLeft(t), b);
    }
  }

  /** A single digit reads as its value. */
  lemma ReadDigit(t: string)
    requires |t| == 1 && IsDigit(t[0])
    ensures ReadSigned(t) == Some(DigitValue(t[0]) as int)
    ensures AllDigits(t) && DigitsValue(t) == DigitValue(t[0])
  {
    assert t[0] != '-' && t[0] != '+';
    assert AllDigits(t);
    assert t[..0] == [];
    assert DigitsValue(t) == DigitValue(t[0]);
  }

  /** White space followed by a digit trims to the digit. */
  lemma SpaceThenDigit(c: char, d: string)
    requires IsSpace(c) && |d| == 1 && IsDigit(d[0])
    ensures TrimLeft([c] + d) == d
  {
    assert AllSpace([c]);
    TrimLeftSpace([c], d);
    assert TrimLeft(d) == d;
  }

  /** Python 2 accepts white space around the number and between the sign and the digits. */
  lemma PyIntPaddedExample()
    ensures PyInt(" 5\n") == Some(5)
  {
    assert AllSpace(" ") && AllSpace("\n");
    PaddedDigit(" ", "5", "\n");
    assert " " + "5" + "\n" == " 5\n";
  }

  lemma PaddedDigit(a: string, t: string, b: string)
    requires AllSpace(a) && AllSpace(b) && |t| == 1 && IsDigit(t[0])
    ensures PyInt(a + t + b) == Some(DigitValue(t[0]) as int)
  {
    PyIntIgnoresPadding(a, t, b);
    PyIntUntrimmed(t);
    ReadDigit(t);
  }

  lemma PyIntSpacedSignExample(b: string)
    requires b == "- 5"
    ensures PyInt(b) == Some(-5)
  {
    SpacedSignDigit(b);
  }

  lemma SpacedSignDigit(b: string)
    requires |b| == 3 && b[0] == '-' && IsSpace(b[1]) && IsDigit(b[2])
    ensures PyInt(b) == Some(-(DigitValue(b[2]) as int))
  {
    ReadSpacedSign(b);
    PyIntUntrimmed(b);
  }

  lemma ReadSpacedSign(b: string)
    requires |b| == 3 && b[0] == '-' && IsSpace(b[1]) && IsDigit(b[2])
    ensures ReadSigned(b) == Some(-(DigitValue(b[2]) as int))
  {
    var d := b[2..];
    assert b[1..] == [b[1]] + d;
    SpaceThenDigit(b[1], d);
    ReadDigit(d);
    SignThenSpace(b, d);
  }

  /** Text that neither starts nor ends with white space is read as it stands. */
  lemma PyIntUntrimmed(b: string)
    requires |b| > 0 && !IsSpace(b[0]) && !IsSpace(b[|b| - 1])
    ensures PyInt(b) == ReadSigned(b)
  {
    assert TrimLeft(b) == b;
    assert TrimRight(b) == b;
  }

  lemma SignThenSpace(b: string, d: string)
    requires |b| > 0 && b[0] == '-' && TrimLeft(b[1..]) == d && |d| > 0 && AllDigits(d)
    ensures ReadSigned(b) == Some(-(DigitsValue(d) as int))
  {
  }

  lemma PyIntInnerSpaceExample()
    ensures PyInt("5 5") == None
  {
    var d := "5 5";
    assert TrimLeft(d) == d && TrimRight(d) == d;
    assert !IsDigit(d[1]);
  }

  lemma {:induction false} DigitsValueOfNatToString(n: nat)
    ensures DigitsValue(NatToString(n)) == n
  {
    var s := NatToString(n);
    if n < 10 {
      assert s[..|s| - 1] == [];
    } else {
      assert s[..|s| - 1] == NatToString(n / 10);
      DigitsValueOfNatToString(n / 10);
    }
  }

  lemma {:induction false} LeadingZerosIgnored(k: nat, s: string)
    requires AllDigits(s)
    ensures AllDigits(Repeat('0', k) + s)
    ensures DigitsValue(Repeat('0', k) + s) == DigitsValue(s)
    decreases |s|
  {
    var z := Repeat('0', k);
    if s == [] {
      assert z + s == z;
      ZerosHaveNoValue(k);
    } else {
      assert (z + s)[..|z + s| - 1] == z + s[..|s| - 1];
      LeadingZerosIgnored(k, s[..|s| - 1]);
    }
  }

  lemma {:induction false} ZerosHaveNoValue(k: nat)
    ensures AllDigits(Repeat('0', k)) && DigitsValue(Repeat('0', k)) == 0
  {
    if k > 0 {
      var z := Repeat('0', k);
      assert z[..k - 1] == Repeat('0', k - 1);
      ZerosHaveNoValue(k - 1);
    }
  }

  /** Zero padding of a natural number keeps its value. */
  lemma PaddedNatValue(m: nat, w: nat)
    ensures AllDigits(PadLeft(NatToString(m), '0', w))
    ensures DigitsValue(PadLeft(NatToString(m), '0', w)) == m
  {
    var digits := NatToString(m);
    var k: nat := if |digits| < w then w - |digits| else 0;
    assert PadLeft(digits, '0', w) == Repeat('0', k) + digits;
    LeadingZerosIgnored(k, digits);
    DigitsValueOfNatToString(m);
  }

  lemma ParseSigned(digits: string)
    requires |digits| >= 1 && AllDigits(digits)
    ensures ParseInt("-" + digits) == Some(-(DigitsValue(digits) as int))
    ensures ParseInt(digits) == Some(DigitsValue(digits))
  {
    var s := "-" + digits;
    assert s[0] == '-' && s[1..] == digits;
  }

  /** Zero padding never loses digits: the padded text parses back to the number. */
  lemma ParseZeroPadded(n: int, width: nat)
    ensures ParseInt(ZeroPadded(n, width)) == Some(n)
  {
    if n < 0 {
      ParseZeroPaddedNegative(n, width);
    } else {
      ParseZeroPaddedNatural(n, width);
    }
  }

  lemma ParseZeroPaddedNegative(n: int, width: nat)
    requires n < 0
    ensures ParseInt(ZeroPadded(n, width)) == Some(n)
  {
    var w: nat := if width == 0 then 0 else width - 1;
    var padded := PadLeft(NatToString(-n), '0', w);
    PaddedNatValue(-n, w);
    assert DigitsValue(padded) == -n;
    ParseSigned(padded);
    assert ParseInt("-" + padded) == Some(n);
    assert ZeroPadded(n, width) == "-" + padded;
  }

  lemma ParseZeroPaddedNatural(n: nat, width: nat)
    ensures ParseInt(ZeroPadded(n, width)) == Some(n)
  {
    var padded := PadLeft(NatToString(n), '0', width);
    PaddedNatValue(n, width);
    assert DigitsValue(padded) == n;
    ParseSigned(padded);
    assert ParseInt(padded) == Some(n);
    assert ZeroPadded(n, width) == padded;
  }

  /** `%05d` of a run number in 0..99999 is exactly five digits. */
  lemma ZeroPaddedWidth(n: int, width: nat)
    requires 0 <= n
    ensures |ZeroPadded(n, width)| >= width
    ensures AllDigits(ZeroPadded(n, width))
  {
  }

  lemma {:induction false} NatToStringLength(n: nat, k: nat)
    requires n < Pow10(k) && k >= 1
    ensures |NatToString(n)| <= k
  {
    if n >= 10 {
      assert n / 10 < Pow10(k - 1);
      NatToStringLength(n / 10, k - 1);
    }
  }

  function Pow10(k: nat): (p: nat)
    ensures p >= 1
  {
    if k == 0 then 1 else 10 * Pow10(k - 1)
  }
}
