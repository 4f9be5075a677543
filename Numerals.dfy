/**
 * Java's 64-bit `long` and 32-bit `int` ranges and the two renderings of a
 * long the model needs: Long.toString (signed decimal) and
 * Long.toHexString (unsigned, lower-case hexadecimal, no leading zeros).
 * Each rendering is paired with a parser and a round-trip lemma.
 */
module Numerals {

  const TwoTo63: int := 0x8000_0000_0000_0000
  const TwoTo64: int := 0x1_0000_0000_0000_0000
  const TwoTo31: int := 0x8000_0000
  const TwoTo32: int := 0x1_0000_0000

  /** A Java long. */
  type Long = x: int | -TwoTo63 <= x < TwoTo63

  /** A Java int. */
  type Int32 = x: int | -TwoTo31 <= x < TwoTo31

  /** The digit for 0 <= d < 16: '0'..'9', then 'a'..'f'. */
  function DigitChar(d: nat): (c: char)
    requires d < 16
    ensures DigitValue(c) == d
  {
    if d < 10 then ('0' as int + d) as char else ('a' as int + d - 10) as char
  }

  /** The value of a digit char, or -1 for a char that is not one. */
  function DigitValue(c: char): int {
    if '0' <= c <= '9' then c as int - '0' as int
    else if 'a' <= c <= 'f' then c as int - 'a' as int + 10
    else -1
  }

  predicate IsDigit(c: char, base: nat) {
    0 <= DigitValue(c) < base
  }

  /** The facts about n / base and n % base the digit functions use. */
  lemma DivMod(n: nat, base: nat)
    requires 2 <= base
    ensures 0 <= n % base < base
    ensures n == (n / base) * base + n % base
    ensures n >= base ==> 1 <= n / base < n
  {
  }

  /** The digits of `n` in `base`, most significant first, with no leading zeros. */
  function Digits(n: nat, base: nat): (r: string)
    requires 2 <= base <= 16
    ensures |r| >= 1
    ensures forall i :: 0 <= i < |r| ==> IsDigit(r[i], base)
    ensures n == 0 <==> r == "0"
    ensures |r| > 1 ==> r[0] != '0'
    decreases n
  {
    if n < base then [DigitChar(n)]
    else
      DivMod(n, base);
      Digits(n / base, base) + [DigitChar(n % base)]
  }

  /** The value of a string of digits in `base`. */
  function ParseDigits(s: string, base: nat): nat
    requires 2 <= base <= 16
    requires forall i :: 0 <= i < |s| ==> IsDigit(s[i], base)
    decreases |s|
  {
    if |s| == 0 then 0
    else
      assert IsDigit(s[|s| - 1], base);
      ParseDigits(s[..|s| - 1], base) * base + DigitValue(s[|s| - 1])
  }

  lemma {:induction false} DigitsRoundTrip(n: nat, base: nat)
    requires 2 <= base <= 16
    ensures ParseDigits(Digits(n, base), base) == n
    decreases n
  {
    DivMod(n, base);
    if n >= base {
      var d := Digits(n / base, base);
      var c := DigitChar(n % base);
      DigitsRoundTrip(n / base, base);
      assert Digits(n, base) == d + [c];
      assert (d + [c])[..|d|] == d;
      assert ParseDigits(d + [c], base) == ParseDigits(d, base) * base + DigitValue(c);
    }
  }

  /** Long.toString(x): a '-' for a negative value, then the decimal digits of |x|. */
  function LongToString(x: int): (r: string)
    ensures |r| >= 1
    ensures r[0] == '-' <==> x < 0
    ensures r[0] == '-' ==> |r| >= 2
    ensures forall i :: (if r[0] == '-' then 1 else 0) <= i < |r| ==> IsDigit(r[i], 10)
    ensures r[0] != '-' && |r| > 1 ==> r[0] != '0'
    ensures r[0] == '-' ==> r[1] != '0'
  {
    if x < 0 then "-" + Digits(-x, 10) else Digits(x, 10)
  }

  /** Long.parseLong of a well-formed decimal numeral. */
  function ParseLong(s: string): int
    requires |s| >= 1
    requires s[0] == '-' ==> |s| >= 2
    requires forall i :: (if s[0] == '-' then 1 else 0) <= i < |s| ==> IsDigit(s[i], 10)
  {
    if s[0] == '-' then 0 - ParseDigits(s[1..], 10) else ParseDigits(s, 10)
  }

  lemma LongToStringRoundTrip(x: int)
    ensures ParseLong(LongToString(x)) == x
  {
    if x < 0 {
      DigitsRoundTrip(-x, 10);
      assert LongToString(x)[1..] == Digits(-x, 10);
    } else {
      DigitsRoundTrip(x, 10);
    }
  }

  /** The value of the 64 bits of a long read as an unsigned number. */
  function ToUnsigned64(x: Long): (u: nat)
    ensures u < TwoTo64
    ensures (u - x) % TwoTo64 == 0
  {
    if x < 0 then x + TwoTo64 else x
  }

  /** The long whose 64 bits, read unsigned, are `u`. */
  function FromUnsigned64(u: nat): Long
    requires u < TwoTo64
  {
    if u >= TwoTo63 then u - TwoTo64 else u
  }

  /** Long.toHexString(x): the unsigned value of x in lower-case hexadecimal, no leading zeros. */
  function LongToHexString(x: Long): (r: string)
    ensures |r| >= 1
    ensures forall i :: 0 <= i < |r| ==> IsDigit(r[i], 16)
    ensures |r| > 1 ==> r[0] != '0'
  {
    Digits(ToUnsigned64(x), 16)
  }

  /** Long.parseUnsignedLong(s, 16) for a well-formed hex numeral of at most 16 digits. */
  function ParseHexLong(s: string): Long
    requires forall i :: 0 <= i < |s| ==> IsDigit(s[i], 16)
    requires ParseDigits(s, 16) < TwoTo64
  {
    FromUnsigned64(ParseDigits(s, 16))
  }

  lemma LongToHexStringRoundTrip(x: Long)
    ensures ParseDigits(LongToHexString(x), 16) < TwoTo64
    ensures ParseHexLong(LongToHexString(x)) == x
  {
    DigitsRoundTrip(ToUnsigned64(x), 16);
  }
}
