/**
 * The decimal rendering an f-string uses for an integer field (Python's
 * `str(int)`, without its runtime limit on the number of digits), together
 * with a reader that inverts it.
 */
module Decimal {
  import opened Wrappers

  predicate IsDigit(ch: char) {
    '0' <= ch <= '9'
  }

  predicate AllDigits(s: string) {
    forall i :: 0 <= i < |s| ==> IsDigit(s[i])
  }

  /** A non-empty digit string with no leading zero, "0" itself excepted. */
  predicate IsCanonical(s: string) {
    |s| > 0 && AllDigits(s) && (s[0] == '0' ==> |s| == 1)
  }

  function DigitChar(d: nat): (ch: char)
    requires d < 10
    ensures IsDigit(ch)
  {
    ('0' as int + d) as char
  }

  function DigitValue(ch: char): (d: nat)
    requires IsDigit(ch)
    ensures d < 10 && DigitChar(d) == ch
  {
    ch as int - '0' as int
  }

  /** Decimal digits of `n`, most significant first, without leading zeros. */
  function NatToString(n: nat): (s: string)
    ensures IsCanonical(s)
    ensures n > 0 ==> s[0] != '0'
    decreases n
  {
    if n < 10 then [DigitChar(n)] else NatToString(n / 10) + [DigitChar(n % 10)]
  }

  /** `str(i)`: a leading '-' for negative numbers, then the digits of |i|. */
  function IntToString(i: int): (s: string)
    ensures |s| > 0
    ensures forall k :: 0 <= k < |s| ==> s[k] == '-' || IsDigit(s[k])
  {
    if i < 0 then "-" + NatToString(-i) else NatToString(i)
  }

  /** The value of a string of decimal digits. */
  function ParseDigits(s: string): nat
    requires AllDigits(s)
  {
    if |s| == 0 then 0 else ParseDigits(s[..|s| - 1]) * 10 + DigitValue(s[|s| - 1])
  }

  /**
   * Reads an optionally negative decimal integer written without leading
   * zeros; None for anything else, "-0" included.
   */
  function ParseInt(s: string): Option<int> {
    if |s| > 0 && s[0] == '-' then
      if IsCanonical(s[1..]) && s[1..] != "0" then Some(-(ParseDigits(s[1..]) as int)) else None
    else if IsCanonical(s) then Some(ParseDigits(s))
    else None
  }

  lemma {:induction false} ParseNatToString(n: nat)
    ensures ParseDigits(NatToString(n)) == n
    decreases n
  {
    var s := NatToString(n);
    if n >= 10 {
      var front := NatToString(n / 10);
      ParseNatToString(n / 10);
      assert s[..|s| - 1] == front;
      assert s[|s| - 1] == DigitChar(n % 10);
    }
  }

  /** Reading back what `str` printed gives the integer that was printed. */
  lemma IntToStringRoundTrip(i: int)
    ensures ParseInt(IntToString(i)) == Some(i)
  {
    var s := IntToString(i);
    if i < 0 {
      ParseNatToString(-i);
      assert s[1..] == NatToString(-i);
    } else {
      ParseNatToString(i);
    }
  }

  /** Distinct integers print differently. */
  lemma IntToStringInjective(i: int, j: int)
    ensures IntToString(i) == IntToString(j) <==> i == j
  {
    if IntToString(i) == IntToString(j) {
      IntToStringRoundTrip(i);
      IntToStringRoundTrip(j);
    }
  }

  lemma {:induction false} ParseDigitsZero(s: string)
    requires AllDigits(s)
    ensures ParseDigits(s) == 0 ==> forall k :: 0 <= k < |s| ==> s[k] == '0'
    decreases |s|
  {
    if |s| > 0 {
      var init := s[..|s| - 1];
      ParseDigitsZero(init);
      assert forall k :: 0 <= k < |s| - 1 ==> s[k] == init[k];
    }
  }

  /** A canonical digit string is the rendering of its own value. */
  lemma {:induction false} CanonicalIsRendering(s: string)
    requires IsCanonical(s)
    ensures NatToString(ParseDigits(s)) == s
    decreases |s|
  {
    if |s| > 1 {
      var init, last := s[..|s| - 1], s[|s| - 1];
      assert init[0] == s[0] != '0';
      CanonicalIsRendering(init);
      ParseDigitsZero(init);
      var n := ParseDigits(s);
      assert n / 10 == ParseDigits(init) && n % 10 == DigitValue(last);
      assert s == init + [last];
    }
  }

  /**
   * The reader accepts only what `str` prints: a string it reads as `i` is
   * exactly the rendering of `i`.
   */
  lemma ParseIntOnlyRenderings(s: string, i: int)
    requires ParseInt(s) == Some(i)
    ensures s == IntToString(i)
  {
    if s[0] == '-' {
      CanonicalIsRendering(s[1..]);
      ParseDigitsZero(s[1..]);
      assert s == "-" + s[1..];
    } else {
      CanonicalIsRendering(s);
    }
  }
}
