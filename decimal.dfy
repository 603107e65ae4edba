/** Decimal page numbers as Python's format specification `03d` writes them: at least
    three characters, zero-filled after the sign. */
module Decimal {

  predicate IsDigit(c: char)
  {
    '0' <= c <= '9'
  }

  function DigitChar(d: nat): (c: char)
    requires d < 10
    ensures IsDigit(c) && c as int - '0' as int == d
  {
    ('0' as int + d) as char
  }

  function DigitValue(c: char): (d: nat)
    requires IsDigit(c)
    ensures d < 10
  {
    c as int - '0' as int
  }

  /** The shortest decimal spelling of `n`, without leading zeros. */
  function Digits(n: nat): (r: string)
    ensures |r| >= 1 && forall k :: 0 <= k < |r| ==> IsDigit(r[k])
    ensures (n < 10) == (|r| == 1)
    ensures n < 1000 ==> |r| <= 3
  {
    if n < 10 then [DigitChar(n)] else Digits(n / 10) + [DigitChar(n % 10)]
  }

  function Zeros(k: nat): (r: string)
    ensures |r| == k && forall i :: 0 <= i < k ==> r[i] == '0'
  {
    seq(k, _ => '0')
  }

  /** `f"{n:03d}"`: the digits of |n|, zero-filled to a width of three
      characters counting the minus sign of a negative number. */
  function Pad3(n: int): (r: string)
    ensures |r| >= 3
    ensures n >= 0 ==> forall k :: 0 <= k < |r| ==> IsDigit(r[k])
    ensures 0 <= n < 1000 ==> |r| == 3
    ensures n < 0 ==> r[0] == '-' && forall k :: 1 <= k < |r| ==> IsDigit(r[k])
  {
    if n >= 0 then
      var d := Digits(n);
      (if |d| < 3 then Zeros(3 - |d|) else "") + d
    else
      var d := Digits(-n);
      "-" + (if |d| < 2 then Zeros(2 - |d|) else "") + d
  }

  /** Reads a string of decimal digits, the most significant first. */
  function ParseDigits(s: string): (n: nat)
    requires forall k :: 0 <= k < |s| ==> IsDigit(s[k])
  {
    if s == [] then 0 else ParseDigits(s[..|s| - 1]) * 10 + DigitValue(s[|s| - 1])
  }

  /** Reads back what `Pad3` writes: an optional minus sign followed by digits. */
  function ParsePadded(s: string): (n: int)
    requires |s| > 0
    requires s[0] == '-' || IsDigit(s[0])
    requires forall k :: 1 <= k < |s| ==> IsDigit(s[k])
  {
    if s[0] == '-' then -(ParseDigits(s[1..]) as int) else ParseDigits(s)
  }

  lemma {:induction false} ParseDigitsOfDigits(n: nat)
    ensures ParseDigits(Digits(n)) == n
  {
    if n >= 10 {
      var d := Digits(n);
      assert d[..|d| - 1] == Digits(n / 10);
      ParseDigitsOfDigits(n / 10);
    }
  }

  lemma {:induction false} ParseDigitsIgnoresLeadingZeros(k: nat, s: string)
    requires forall i :: 0 <= i < |s| ==> IsDigit(s[i])
    ensures ParseDigits(Zeros(k) + s) == ParseDigits(s)
    decreases |s|, k
  {
    if s == [] {
      assert Zeros(k) + s == Zeros(k);
      if k > 0 {
        assert Zeros(k)[..k - 1] == Zeros(k - 1) + [];
        ParseDigitsIgnoresLeadingZeros(k - 1, []);
      }
    } else {
      var t := Zeros(k) + s;
      assert t[..|t| - 1] == Zeros(k) + s[..|s| - 1];
      ParseDigitsIgnoresLeadingZeros(k, s[..|s| - 1]);
    }
  }

  /** Formatting a page number and reading it back gives the number again. */
  lemma Pad3RoundTrip(n: int)
    ensures ParsePadded(Pad3(n)) == n
  {
    if n >= 0 {
      var d := Digits(n);
      ParseDigitsOfDigits(n);
      ParseDigitsIgnoresLeadingZeros(if |d| < 3 then 3 - |d| else 0, d);
      assert (if |d| < 3 then Zeros(3 - |d|) else "") + d == Zeros(if |d| < 3 then 3 - |d| else 0) + d;
    } else {
      var d := Digits(-n);
      var z := if |d| < 2 then 2 - |d| else 0;
      ParseDigitsOfDigits(-n);
      ParseDigitsIgnoresLeadingZeros(z, d);
      assert Pad3(n)[1..] == Zeros(z) + d;
    }
  }

  /** Different page numbers are never written the same way. */
  lemma Pad3Injective(a: int, b: int)
    requires Pad3(a) == Pad3(b)
    ensures a == b
  {
    Pad3RoundTrip(a);
    Pad3RoundTrip(b);
  }
}
