/** Hexadecimal text as JavaScript produces it: `n.toString(16)` (lower-case digits,
    no leading zeros) and `s.padStart(len, c)`, with a parser that reads digit
    strings back, leading zeros included. */
module Hex {

  const Digits: string := "0123456789abcdef"

  predicate IsHexDigit(c: char) {
    ('0' <= c <= '9') || ('a' <= c <= 'f')
  }

  predicate AllHexDigits(s: string) {
    forall i :: 0 <= i < |s| ==> IsHexDigit(s[i])
  }

  function DigitChar(d: nat): (c: char)
    requires d < 16
    ensures IsHexDigit(c)
  {
    Digits[d]
  }

  function DigitValue(c: char): (d: nat)
    requires IsHexDigit(c)
    ensures d < 16
  {
    if '0' <= c <= '9' then (c - '0') as nat else (c - 'a') as nat + 10
  }

  lemma DigitRoundTrip(d: nat)
    requires d < 16
    ensures DigitValue(DigitChar(d)) == d
  {
  }

  function Pow16(k: nat): (p: nat)
    ensures p >= 1
  {
    if k == 0 then 1 else 16 * Pow16(k - 1)
  }

  /** `n.toString(16)`: "0" for zero, otherwise no leading zero. */
  function ToHex(n: nat): (s: string)
    ensures |s| >= 1 && AllHexDigits(s)
    ensures |s| > 1 ==> s[0] != '0'
    decreases n
  {
    if n < 16 then [DigitChar(n)]
    else ToHex(n / 16) + [DigitChar(n % 16)]
  }

  /** The number a string of hex digits denotes, most significant digit first. */
  function ParseHex(s: string): nat
    requires AllHexDigits(s)
    decreases |s|
  {
    if |s| == 0 then 0
    else ParseHex(s[..|s| - 1]) * 16 + DigitValue(s[|s| - 1])
  }

  /** Parsing the rendering of a number gives the number back. */
  lemma {:induction false} ParseToHex(n: nat)
    ensures ParseHex(ToHex(n)) == n
    decreases n
  {
    var s := ToHex(n);
    if n < 16 {
      DigitRoundTrip(n);
    } else {
      ParseToHex(n / 16);
      DigitRoundTrip(n % 16);
      assert s[..|s| - 1] == ToHex(n / 16);
    }
  }

  /** The rendering of `n` fits in `k` digits exactly when `n < 16^k`. */
  lemma {:induction false} ToHexLength(n: nat, k: nat)
    requires k >= 1
    ensures |ToHex(n)| <= k <==> n < Pow16(k)
    decreases n
  {
    if n < 16 {
      assert Pow16(k) == 16 * Pow16(k - 1);
    } else if k == 1 {
      assert Pow16(1) == 16;
    } else {
      ToHexLength(n / 16, k - 1);
      assert Pow16(k) == 16 * Pow16(k - 1);
    }
  }

  function Repeat(c: char, k: nat): (r: string)
    ensures |r| == k && forall i :: 0 <= i < k ==> r[i] == c
  {
    if k == 0 then "" else [c] + Repeat(c, k - 1)
  }

  /** `s.padStart(len, c)` for a one-character pad: `c`s are put in front until
      the string is `len` long; a longer string is left as it is. */
  function PadStart(s: string, len: nat, c: char): (r: string)
    ensures |r| == if |s| >= len then |s| else len
    ensures r[|r| - |s|..] == s
    ensures forall i :: 0 <= i < |r| - |s| ==> r[i] == c
  {
    if |s| >= len then s else Repeat(c, len - |s|) + s
  }

  /** Leading zeros do not change the number a digit string denotes. */
  lemma {:induction false} LeadingZeros(z: string, s: string)
    requires forall i :: 0 <= i < |z| ==> z[i] == '0'
    requires AllHexDigits(s)
    ensures AllHexDigits(z + s) && ParseHex(z + s) == ParseHex(s)
    decreases |z|
  {
    if |z| > 0 {
      var t := z[1..] + s;
      LeadingZeros(z[1..], s);
      assert z[0] == '0';
      assert z + s == ['0'] + t;
      ZeroPrefix(t);
    } else {
      assert z + s == s;
    }
  }

  /** One leading zero does not change the number. */
  lemma {:induction false} ZeroPrefix(s: string)
    requires AllHexDigits(s)
    ensures AllHexDigits(['0'] + s) && ParseHex(['0'] + s) == ParseHex(s)
    decreases |s|
  {
    var t := ['0'] + s;
    if |s| > 0 {
      assert t[..|t| - 1] == ['0'] + s[..|s| - 1];
      ZeroPrefix(s[..|s| - 1]);
    }
  }
}
