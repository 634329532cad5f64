/**
 * Python's `str.strip()` with no argument, and the zero-padded decimal fields that
 * `strftime` produces.
 */
module Text {

  /** Python's `str.isspace()` for one character. */
  predicate IsSpace(c: char)
  {
    || c == ' ' || ('\t' <= c <= '\r') || ('\U{1C}' <= c <= '\U{1F}')
    || c == '\U{85}' || c == '\U{A0}' || c == '\U{1680}'
    || ('\U{2000}' <= c <= '\U{200A}')
    || c == '\U{2028}' || c == '\U{2029}' || c == '\U{202F}' || c == '\U{205F}' || c == '\U{3000}'
  }

  /** Python's `s.lstrip()`: the suffix left after dropping leading whitespace. */
  function StripLeft(s: string): (r: string)
    ensures |r| <= |s| && r == s[|s| - |r|..]
  {
    if s != [] && IsSpace(s[0]) then StripLeft(s[1..]) else s
  }

  /** What `lstrip` cuts is whitespace, and what it keeps does not start with whitespace. */
  lemma {:induction false} StripLeftSpec(s: string)
    ensures forall k :: 0 <= k < |s| - |StripLeft(s)| ==> IsSpace(s[k])
    ensures StripLeft(s) != [] ==> !IsSpace(StripLeft(s)[0])
  {
    if s != [] && IsSpace(s[0]) {
      StripLeftSpec(s[1..]);
      forall k | 1 <= k < |s| - |StripLeft(s)|
        ensures IsSpace(s[k])
      {
        assert s[k] == s[1..][k - 1];
      }
    }
  }

  /** Python's `s.rstrip()`: the prefix left after dropping trailing whitespace. */
  function StripRight(s: string): (r: string)
    ensures |r| <= |s| && r == s[..|r|]
  {
    if s != [] && IsSpace(s[|s| - 1]) then StripRight(s[..|s| - 1]) else s
  }

  /** What `rstrip` cuts is whitespace, and what it keeps does not end with whitespace. */
  lemma {:induction false} StripRightSpec(s: string)
    ensures forall k :: |StripRight(s)| <= k < |s| ==> IsSpace(s[k])
    ensures StripRight(s) != [] ==> !IsSpace(StripRight(s)[|StripRight(s)| - 1])
  {
    if s != [] && IsSpace(s[|s| - 1]) {
      StripRightSpec(s[..|s| - 1]);
    }
  }

  /** Python's `s.strip()`. */
  function Strip(s: string): string
  {
    StripRight(StripLeft(s))
  }

  /**
   * What `strip` keeps: a contiguous slice of the input that neither starts nor
   * ends with whitespace, and everything cut away on either side is whitespace.
   */
  lemma StripSlice(s: string) returns (i: nat, j: nat)
    ensures i <= j <= |s| && Strip(s) == s[i..j]
    ensures forall k :: 0 <= k < i ==> IsSpace(s[k])
    ensures forall k :: j <= k < |s| ==> IsSpace(s[k])
    ensures Strip(s) != [] ==> !IsSpace(Strip(s)[0]) && !IsSpace(Strip(s)[|Strip(s)| - 1])
  {
    i := |s| - |StripLeft(s)|;
    j := i + |Strip(s)|;
    StripIsSlice(s);
    StripLeftSpec(s);
    TrailingSpaceInSuffix(s, i);
    StripEnds(s);
  }

  /** `strip` keeps the slice between what `lstrip` and `rstrip` cut. */
  lemma StripIsSlice(s: string)
    ensures Strip(s) == s[|s| - |StripLeft(s)|..|s| - |StripLeft(s)| + |Strip(s)|]
    ensures StripRight(s[|s| - |StripLeft(s)|..]) == Strip(s)
  {
    var l := StripLeft(s);
    var i := |s| - |l|;
    var r := StripRight(l);
    assert l == s[i..];
    assert r == l[..|r|];
  }

  /** What `strip` keeps neither starts nor ends with whitespace. */
  lemma StripEnds(s: string)
    ensures Strip(s) != [] ==> !IsSpace(Strip(s)[0]) && !IsSpace(Strip(s)[|Strip(s)| - 1])
  {
    var l := StripLeft(s);
    var r := StripRight(l);
    StripLeftSpec(s);
    StripRightSpec(l);
    if r != [] {
      assert r[0] == l[0];
    }
  }

  /** Whatever `rstrip` cuts from a suffix of `s` is whitespace of `s`. */
  lemma TrailingSpaceInSuffix(s: string, i: nat)
    requires i <= |s|
    ensures forall k :: i + |StripRight(s[i..])| <= k < |s| ==> IsSpace(s[k])
  {
    var l := s[i..];
    StripRightSpec(l);
    forall k | i + |StripRight(l)| <= k < |s|
      ensures IsSpace(s[k])
    {
      assert s[k] == l[k - i];
    }
  }

  /** Stripping twice changes nothing more than stripping once. */
  lemma StripIdempotent(s: string)
    ensures Strip(Strip(s)) == Strip(s)
  {
    var t := Strip(s);
    var _, _ := StripSlice(s);
    assert StripLeft(t) == t;
    assert StripRight(t) == t;
  }

  /** A string that neither starts nor ends with whitespace is left as it is. */
  lemma StripUnchanged(s: string)
    requires s != [] ==> !IsSpace(s[0]) && !IsSpace(s[|s| - 1])
    ensures Strip(s) == s
  {
    assert StripLeft(s) == s;
    assert StripRight(s) == s;
  }

  predicate IsDigit(c: char)
  {
    '0' <= c <= '9'
  }

  function DigitChar(d: nat): (c: char)
    requires d < 10
    ensures IsDigit(c)
  {
    ['0', '1', '2', '3', '4', '5', '6', '7', '8', '9'][d]
  }

  function DigitValue(c: char): (d: nat)
    requires IsDigit(c)
    ensures d < 10 && DigitChar(d) == c
  {
    (c as int - '0' as int) as nat
  }

  lemma DigitRoundTrip(d: nat)
    requires d < 10
    ensures DigitValue(DigitChar(d)) == d
  {
  }

  function Pow10(n: nat): (p: nat)
    ensures p >= 1
  {
    if n == 0 then 1 else 10 * Pow10(n - 1)
  }

  /** `n` written in decimal with exactly `width` digits, most significant first. */
  function ZeroPad(n: nat, width: nat): (s: string)
    ensures |s| == width
    ensures forall k :: 0 <= k < width ==> IsDigit(s[k])
  {
    if width == 0 then [] else ZeroPad(n / 10, width - 1) + [DigitChar(n % 10)]
  }

  predicate AllDigits(s: string)
  {
    forall k :: 0 <= k < |s| ==> IsDigit(s[k])
  }

  /** The number a string of decimal digits denotes. */
  function DecimalValue(s: string): (n: nat)
    requires AllDigits(s)
    ensures n < Pow10(|s|)
  {
    if s == [] then 0 else DecimalValue(s[..|s| - 1]) * 10 + DigitValue(s[|s| - 1])
  }

  /** Reading back a zero-padded number gives the number, whenever it fits the width. */
  lemma {:induction false} DecimalValueOfZeroPad(n: nat, width: nat)
    requires n < Pow10(width)
    ensures DecimalValue(ZeroPad(n, width)) == n
  {
    if width > 0 {
      assert n / 10 < Pow10(width - 1);
      DecimalValueOfZeroPad(n / 10, width - 1);
      var s := ZeroPad(n, width);
      assert s[..|s| - 1] == ZeroPad(n / 10, width - 1);
      DigitRoundTrip(n % 10);
      assert DecimalValue(s) == DecimalValue(s[..|s| - 1]) * 10 + n % 10;
    }
  }

  /** Zero-padding the value of a digit string to its own width gives the string back. */
  lemma {:induction false} ZeroPadOfDecimalValue(s: string)
    requires AllDigits(s)
    ensures ZeroPad(DecimalValue(s), |s|) == s
  {
    if s != [] {
      var init := s[..|s| - 1];
      ZeroPadOfDecimalValue(init);
      var n := DecimalValue(s);
      assert n / 10 == DecimalValue(init);
      assert n % 10 == DigitValue(s[|s| - 1]);
      assert s == init + [s[|s| - 1]];
    }
  }
}
