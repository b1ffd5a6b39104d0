/** Lower-case hexadecimal text as produced by `std::hex` with `std::setw` and a `'0'`
    fill, together with the parser that inverts it. */
module Hex {

  const Digits: string := "0123456789abcdef"

  predicate IsHexDigit(c: char) {
    c in Digits
  }

  function DigitChar(d: nat): (c: char)
    requires d < 16
    ensures IsHexDigit(c)
  {
    Digits[d]
  }

  function DigitValue(c: char): (d: nat)
    ensures d < 16
  {
    if '0' <= c <= '9' then c as nat - '0' as nat
    else if 'a' <= c <= 'f' then c as nat - 'a' as nat + 10
    else 0
  }

  lemma DigitRoundTrip(d: nat)
    requires d < 16
    ensures DigitValue(DigitChar(d)) == d
  {
  }

  function Pow16(k: nat): (p: nat)
    ensures p >= 1
  {
    if k == 0 then 1 else 16 * Pow16(k - 1)
  }

  /** The shortest lower-case hexadecimal spelling of `n` ("0" for zero). */
  function ToHex(n: nat): (s: string)
    ensures |s| >= 1
    ensures forall i :: 0 <= i < |s| ==> IsHexDigit(s[i])
    decreases n
  {
    if n < 16 then [DigitChar(n)] else ToHex(n / 16) + [DigitChar(n % 16)]
  }

  /** The value of a string of hexadecimal digits, most significant first. */
  function ParseHex(s: string): nat
    decreases |s|
  {
    if s == [] then 0 else ParseHex(s[..|s| - 1]) * 16 + DigitValue(s[|s| - 1])
  }

  /** `std::setw(width)` with `std::setfill('0')`: pad on the left to at least `width`. */
  function PadLeft(s: string, width: nat): (r: string)
    ensures |r| == if |s| >= width then |s| else width
    ensures r[|r| - |s|..] == s
    ensures forall i :: 0 <= i < |r| - |s| ==> r[i] == '0'
  {
    if |s| >= width then s else seq(width - |s|, _ => '0') + s
  }

  lemma {:induction false} ParseToHex(n: nat)
    ensures ParseHex(ToHex(n)) == n
    decreases n
  {
    if n < 16 {
      assert ToHex(n)[..0] == [];
      DigitRoundTrip(n);
    } else {
      var s := ToHex(n);
      assert s[..|s| - 1] == ToHex(n / 16);
      ParseToHex(n / 16);
      DigitRoundTrip(n % 16);
    }
  }

  lemma {:induction false} ParseLeadingZero(s: string)
    ensures ParseHex(['0'] + s) == ParseHex(s)
    decreases |s|
  {
    if s == [] {
      assert (['0'] + s)[..0] == [];
    } else {
      var t := ['0'] + s;
      assert t[..|t| - 1] == ['0'] + s[..|s| - 1];
      ParseLeadingZero(s[..|s| - 1]);
    }
  }

  lemma {:induction false} ParseZeros(k: nat, s: string)
    ensures ParseHex(seq(k, _ => '0') + s) == ParseHex(s)
  {
    if k > 0 {
      assert seq(k, _ => '0') + s == ['0'] + (seq(k - 1, _ => '0') + s);
      ParseLeadingZero(seq(k - 1, _ => '0') + s);
      ParseZeros(k - 1, s);
    } else {
      assert seq(k, _ => '0') + s == s;
    }
  }

  lemma ParseLeadingZeros(s: string, width: nat)
    ensures ParseHex(PadLeft(s, width)) == ParseHex(s)
  {
    if |s| < width {
      ParseZeros(width - |s|, s);
    }
  }

  lemma {:induction false} ToHexLength(n: nat, k: nat)
    requires k >= 1 && n < Pow16(k)
    ensures |ToHex(n)| <= k
    decreases n
  {
    if n >= 16 {
      assert k >= 2;
      ToHexLength(n / 16, k - 1);
    }
  }

  lemma PaddedHexFacts(n: nat, width: nat)
    ensures ParseHex(PadLeft(ToHex(n), width)) == n
    ensures width >= 1 && n < Pow16(width) ==> |PadLeft(ToHex(n), width)| == width
  {
    ParseToHex(n);
    ParseLeadingZeros(ToHex(n), width);
    if width >= 1 && n < Pow16(width) {
      ToHexLength(n, width);
    }
  }

  /** `setw(width)` with zero fill, applied to the hexadecimal spelling of `n`. */
  function PaddedHex(n: nat, width: nat): (s: string)
    ensures |s| >= width
    ensures forall i :: 0 <= i < |s| ==> IsHexDigit(s[i])
    ensures ParseHex(s) == n
    ensures width >= 1 && n < Pow16(width) ==> |s| == width
  {
    PaddedHexFacts(n, width);
    PadLeft(ToHex(n), width)
  }
}
