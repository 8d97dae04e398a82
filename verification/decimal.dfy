/** Decimal text of an integer, as Python's `'{}'.format(n)` writes the port
    into a link, and the matching parser. */
module Decimal {
  import opened Common

  predicate IsDigit(c: byte) {
    48 <= c <= 57
  }

  function DigitChar(d: int): (c: byte)
    requires 0 <= d < 10
    ensures IsDigit(c)
  {
    48 + d
  }

  /** Digits of a natural number, most significant first, no leading zero. */
  function Digits(n: nat): (s: seq<byte>)
    ensures |s| > 0
    ensures forall i :: 0 <= i < |s| ==> IsDigit(s[i])
    ensures s[0] == 48 ==> n == 0
    decreases n
  {
    if n < 10 then [DigitChar(n)] else Digits(n / 10) + [DigitChar(n % 10)]
  }

  /** `str(n)`: a leading `-` for a negative number, then its digits. */
  function Format(n: int): (s: seq<byte>)
    ensures |s| > 0
    ensures forall i :: 0 <= i < |s| ==> IsDigit(s[i]) || (i == 0 && s[i] == Minus)
    ensures s[0] == Minus <==> n < 0
  {
    if n < 0 then [Minus] + Digits(-n) else Digits(n)
  }

  /** Value of a non-empty string of digits. */
  function ParseDigits(s: seq<byte>): (r: Option<nat>)
    decreases |s|
  {
    if |s| == 0 || !IsDigit(s[|s| - 1]) then None
    else if |s| == 1 then Some(s[0] - 48)
    else match ParseDigits(s[..|s| - 1])
      case None => None
      case Some(high) => Some(high * 10 + (s[|s| - 1] - 48))
  }

  /** Inverse of `Format` on its image. */
  function Parse(s: seq<byte>): (r: Option<int>)
  {
    if |s| > 0 && s[0] == Minus then
      match ParseDigits(s[1..])
      case Some(n) => Some(0 - n as int)
      case None => None
    else ParseDigits(s)
  }

  lemma {:induction false} ParseDigitsOf(n: nat)
    ensures ParseDigits(Digits(n)) == Some(n)
    decreases n
  {
    if n >= 10 {
      var s := Digits(n);
      assert s[..|s| - 1] == Digits(n / 10);
      ParseDigitsOf(n / 10);
    }
  }

  /** The port written into a link reads back as the same number. */
  lemma ParseFormat(n: int)
    ensures Parse(Format(n)) == Some(n)
  {
    if n < 0 {
      ParseDigitsOf(-n);
      assert Format(n)[1..] == Digits(-n);
    } else {
      ParseDigitsOf(n);
    }
  }

  /** The decimal text of a number never contains a separator character. */
  lemma FormatHasNo(c: byte, n: int)
    requires !IsDigit(c) && c != Minus
    ensures c !in Format(n)
  {
  }
}
