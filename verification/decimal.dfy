/**
 * Base-10 rendering of integers, as the `%d` verb of Go's fmt package writes
 * them (an optional '-' and the digits, most significant first, no leading
 * zeros), and a reader that inverts it.
 */
module Decimal {

  predicate IsDigit(c: char) {
    '0' <= c <= '9'
  }

  predicate AllDigits(s: string) {
    forall i :: 0 <= i < |s| ==> IsDigit(s[i])
  }

  function DigitValue(c: char): (d: nat)
    requires IsDigit(c)
    ensures d < 10
  {
    c as int - '0' as int
  }

  function DigitChar(d: nat): (c: char)
    requires d < 10
    ensures IsDigit(c) && DigitValue(c) == d
  {
    ('0' as int + d) as char
  }

  /** The digits of `n`; only zero itself starts with '0'. */
  function NatToString(n: nat): (s: string)
    ensures |s| > 0 && AllDigits(s)
    ensures s[0] == '0' <==> n == 0
    ensures n == 0 ==> s == "0"
    decreases n
  {
    if n < 10 then [DigitChar(n)] else NatToString(n / 10) + [DigitChar(n % 10)]
  }

  /** The value of a string of digits (the empty string reads as zero). */
  function NatOf(s: string): nat
    requires AllDigits(s)
    decreases |s|
  {
    if s == [] then 0 else NatOf(s[..|s| - 1]) * 10 + DigitValue(s[|s| - 1])
  }

  /** What `%d` prints for `i`: a '-' for negative values, then the digits. */
  function IntToString(i: int): (s: string)
    ensures |s| > 0
    ensures s[0] == '-' <==> i < 0
    ensures forall k :: 0 <= k < |s| ==> IsDigit(s[k]) || (k == 0 && s[k] == '-')
    ensures i < 0 ==> |s| >= 2 && s[1] != '0'
    ensures i >= 0 ==> (s[0] == '0' <==> i == 0)
    ensures i == 0 ==> s == "0"
  {
    if i < 0 then "-" + NatToString(-i) else NatToString(i)
  }

  /** Digits without a leading zero, unless the number is zero itself. */
  predicate IsNatString(s: string) {
    |s| > 0 && AllDigits(s) && (s[0] == '0' ==> |s| == 1)
  }

  /**
   * The strings IntToString produces: the digits of a natural number, or '-'
   * followed by the digits of a positive one (so no "-0" and no leading zeros).
   */
  predicate IsIntString(s: string) {
    if |s| > 0 && s[0] == '-' then IsNatString(s[1..]) && s[1] != '0' else IsNatString(s)
  }

  function IntOf(s: string): int
    requires IsIntString(s)
  {
    if s[0] == '-' then -(NatOf(s[1..]) as int) else NatOf(s)
  }

  lemma {:induction false} NatRoundTrip(n: nat)
    ensures NatOf(NatToString(n)) == n
    decreases n
  {
    if n >= 10 {
      var s := NatToString(n);
      assert s[..|s| - 1] == NatToString(n / 10);
      NatRoundTrip(n / 10);
    }
  }

  /** Reading back what `%d` printed gives the integer that was printed. */
  lemma IntRoundTrip(i: int)
    ensures IsIntString(IntToString(i))
    ensures IntOf(IntToString(i)) == i
  {
    var s := IntToString(i);
    if i < 0 {
      assert s[1..] == NatToString(-i);
      NatRoundTrip(-i);
    } else {
      NatRoundTrip(i);
    }
  }

  /** Digits that do not start with '0' stand for a positive number. */
  lemma {:induction false} NatOfPositive(s: string)
    requires |s| > 0 && AllDigits(s) && s[0] != '0'
    ensures NatOf(s) >= 1
    decreases |s|
  {
    if |s| > 1 {
      var p := s[..|s| - 1];
      assert p[0] == s[0];
      NatOfPositive(p);
    }
  }

  /** Printing the number a canonical digit string stands for gives that string back. */
  lemma {:induction false} NatStringRoundTrip(s: string)
    requires IsNatString(s)
    ensures NatToString(NatOf(s)) == s
    decreases |s|
  {
    var n := NatOf(s);
    var x := s[|s| - 1];
    if |s| == 1 {
      assert s[..0] == [];
      assert DigitChar(DigitValue(x)) == x;
    } else {
      var p := s[..|s| - 1];
      assert p[0] == s[0];
      NatOfPositive(p);
      NatStringRoundTrip(p);
      assert n / 10 == NatOf(p) && n % 10 == DigitValue(x);
      assert DigitChar(DigitValue(x)) == x;
      assert s == p + [x];
    }
  }

  /**
   * Every string the reader accepts is exactly what `%d` prints for the
   * number read, so the reader accepts nothing IntToString does not produce.
   */
  lemma IntStringRoundTrip(s: string)
    requires IsIntString(s)
    ensures IntToString(IntOf(s)) == s
  {
    if s[0] == '-' {
      NatOfPositive(s[1..]);
      NatStringRoundTrip(s[1..]);
      assert s == "-" + s[1..];
    } else {
      NatStringRoundTrip(s);
    }
  }

  /** Distinct integers are printed differently. */
  lemma IntToStringInjective(i: int, j: int)
    requires IntToString(i) == IntToString(j)
    ensures i == j
  {
    IntRoundTrip(i);
    IntRoundTrip(j);
  }
}
