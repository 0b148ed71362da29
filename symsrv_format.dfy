/**
 * The two number spellings the symbol server produces with sprintf: the
 * signed decimal of an array length ("%I64d") and the zero-padded
 * lower-case hexadecimal of a code-block address ("+0x%08lx").
 */
module SymFormat {
  type U32 = x: nat | x < 0x1_0000_0000
  type U64 = x: nat | x < 0x1_0000_0000_0000_0000

  const Digits: string := "0123456789abcdef"

  /** The digit character for d. */
  function Digit(d: nat): (c: char)
    requires d < 16
    ensures DigitValue(c) == d
  {
    Digits[d]
  }

  /** The value of a digit character; 0 for anything else. */
  function DigitValue(c: char): nat
  {
    if '0' <= c <= '9' then c as nat - '0' as nat
    else if 'a' <= c <= 'f' then c as nat - 'a' as nat + 10
    else 0
  }

  /** The number a digit string spells in base b, most significant digit first. */
  function Value(s: string, b: nat): nat
  {
    if s == [] then 0 else Value(s[..|s| - 1], b) * b + DigitValue(s[|s| - 1])
  }

  /** The decimal spelling of n, without leading zeros. */
  function Decimal(n: nat): (s: string)
    ensures |s| >= 1
    ensures forall i :: 0 <= i < |s| ==> '0' <= s[i] <= '9'
    ensures s[0] == '0' ==> n == 0
    decreases n
  {
    if n < 10 then [Digit(n)] else Decimal(n / 10) + [Digit(n % 10)]
  }

  /** Reading the decimal spelling back gives the number. */
  lemma {:induction false} DecimalRoundTrip(n: nat)
    ensures Value(Decimal(n), 10) == n
    decreases n
  {
    if n >= 10 {
      var s := Decimal(n);
      assert s[..|s| - 1] == Decimal(n / 10);
      DecimalRoundTrip(n / 10);
    }
  }

  /** "%I64d" of a 64-bit value: read as a two's-complement signed integer. */
  function SignedDecimal(v: U64): (s: string)
    ensures v < 0x8000_0000_0000_0000 ==> s == Decimal(v) && Value(s, 10) == v
    ensures v >= 0x8000_0000_0000_0000 ==>
      |s| >= 2 && s[0] == '-' && Value(s[1..], 10) == 0x1_0000_0000_0000_0000 - v
  {
    DecimalRoundTrip(v);
    DecimalRoundTrip(0x1_0000_0000_0000_0000 - v);
    if v < 0x8000_0000_0000_0000 then Decimal(v)
    else
      var s := "-" + Decimal(0x1_0000_0000_0000_0000 - v);
      assert s[1..] == Decimal(0x1_0000_0000_0000_0000 - v);
      s
  }

  /** The k lowest hexadecimal digits of x, most significant first. */
  function HexDigits(x: nat, k: nat): (s: string)
    ensures |s| == k
    ensures forall i :: 0 <= i < |s| ==> s[i] in Digits
  {
    if k == 0 then [] else HexDigits(x / 16, k - 1) + [Digit(x % 16)]
  }

  /** Powers of 16. */
  function Pow16(k: nat): (r: nat)
    ensures r >= 1
  {
    if k == 0 then 1 else 16 * Pow16(k - 1)
  }

  /** Dropping the last hexadecimal digit of a number below 16 * p leaves one below p. */
  lemma DropDigit(x: nat, p: nat)
    requires x < 16 * p
    ensures x / 16 < p && x == x / 16 * 16 + x % 16
  {
  }

  /** Appending a digit multiplies by the base and adds the digit. */
  lemma ValueSnoc(t: string, c: char, b: nat)
    ensures Value(t + [c], b) == Value(t, b) * b + DigitValue(c)
  {
    assert (t + [c])[..|t|] == t;
  }

  /** k hexadecimal digits spell x exactly when x has at most k digits. */
  lemma {:induction false} HexRoundTrip(x: nat, k: nat)
    requires x < Pow16(k)
    ensures Value(HexDigits(x, k), 16) == x
  {
    if k > 0 {
      var q, d := x / 16, x % 16;
      DropDigit(x, Pow16(k - 1));
      HexRoundTrip(q, k - 1);
      ValueSnoc(HexDigits(q, k - 1), Digit(d), 16);
      assert HexDigits(x, k) == HexDigits(q, k - 1) + [Digit(d)];
    }
  }

  /** "%08lx" of a 32-bit value: eight lower-case digits. */
  function Hex8(x: U32): (s: string)
    ensures |s| == 8 && Value(s, 16) == x
  {
    assert Pow16(8) == 0x1_0000_0000;
    HexRoundTrip(x, 8);
    HexDigits(x, 8)
  }
}
