/** Positional rendering of natural numbers, as JavaScript's
    `Number.prototype.toString(radix)` produces it for non-negative integers:
    lowercase digits, no leading zeros, and "0" for zero. Radix 10 is what a
    template literal such as `EV-${i + 1}` prints; radix 16 is what the hash
    primitives print. */
module Numerals {

  /** The digit character for `d`: '0'..'9', then 'a'..'f'. */
  function DigitChar(d: nat): (c: char)
    requires d < 16
    ensures IsDigit(c, 16)
  {
    if d < 10 then ('0' as int + d) as char else ('a' as int + d - 10) as char
  }

  /** Is `c` one of the first `base` digit characters? */
  predicate IsDigit(c: char, base: nat)
    requires base <= 16
  {
    ('0' <= c <= '9' && (c as int - '0' as int) < base) ||
    ('a' <= c <= 'f' && (c as int - 'a' as int) + 10 < base)
  }

  /** The value of a digit character (0 for anything else). */
  function DigitValue(c: char): nat
  {
    if '0' <= c <= '9' then c as int - '0' as int
    else if 'a' <= c <= 'f' then c as int - 'a' as int + 10
    else 0
  }

  lemma DigitRoundTrip(d: nat)
    requires d < 16
    ensures DigitValue(DigitChar(d)) == d
    ensures DigitChar(d) == '0' <==> d == 0
  {
  }

  /** `n` written in radix `base`, most significant digit first. */
  function ToRadix(n: nat, base: nat): (s: string)
    requires 2 <= base <= 16
    ensures |s| >= 1
    decreases n
  {
    if n < base then [DigitChar(n)] else ToRadix(n / base, base) + [DigitChar(n % base)]
  }

  /** The number a digit string denotes in radix `base` (the inverse of ToRadix). */
  function FromRadix(s: string, base: nat): nat
    requires 2 <= base <= 16
  {
    if s == [] then 0 else FromRadix(s[..|s| - 1], base) * base + DigitValue(s[|s| - 1])
  }

  function Pow(base: nat, k: nat): nat
  {
    if k == 0 then 1 else base * Pow(base, k - 1)
  }

  /** Decimal, as a template literal prints a non-negative integer. */
  function Dec(n: nat): string
  {
    ToRadix(n, 10)
  }

  /** Lowercase hexadecimal, as `toString(16)` prints a non-negative integer. */
  function Hex(n: nat): string
  {
    ToRadix(n, 16)
  }

  /** Reading the digits back gives the number: rendering loses nothing. */
  lemma {:induction false} RadixRoundTrip(n: nat, base: nat)
    requires 2 <= base <= 16
    ensures FromRadix(ToRadix(n, base), base) == n
    decreases n
  {
    if n < base {
      DigitRoundTrip(n);
      FromRadixSnoc([], DigitChar(n), base);
    } else {
      RadixRoundTrip(n / base, base);
      AppendDigit(n, base, ToRadix(n / base, base));
    }
  }

  /** Appending the last digit of `n` to a rendering of `n / base` renders `n`. */
  lemma AppendDigit(n: nat, base: nat, prefix: string)
    requires 2 <= base <= 16 && FromRadix(prefix, base) == n / base
    ensures FromRadix(prefix + [DigitChar(n % base)], base) == n
  {
    DigitRoundTrip(n % base);
    FromRadixSnoc(prefix, DigitChar(n % base), base);
    DivisionSplits(n, base);
  }

  lemma FromRadixSnoc(prefix: string, c: char, base: nat)
    requires 2 <= base <= 16
    ensures FromRadix(prefix + [c], base) == FromRadix(prefix, base) * base + DigitValue(c)
  {
    assert (prefix + [c])[..|prefix|] == prefix;
  }

  lemma DivisionSplits(n: nat, base: nat)
    requires base > 0
    ensures (n / base) * base + n % base == n
  {
  }

  /** Two numbers with the same rendering are equal. */
  lemma RadixInjective(a: nat, b: nat, base: nat)
    requires 2 <= base <= 16
    ensures ToRadix(a, base) == ToRadix(b, base) ==> a == b
  {
    RadixRoundTrip(a, base);
    RadixRoundTrip(b, base);
  }

  /** Every character is a digit of the radix, and only zero starts with '0'. */
  lemma {:induction false} RadixShape(n: nat, base: nat)
    requires 2 <= base <= 16
    ensures forall i :: 0 <= i < |ToRadix(n, base)| ==> IsDigit(ToRadix(n, base)[i], base)
    ensures ToRadix(n, base)[0] == '0' <==> n == 0
    ensures n == 0 ==> ToRadix(n, base) == "0"
    decreases n
  {
    if n < base {
      DigitRoundTrip(n);
    } else {
      RadixShape(n / base, base);
      DigitRoundTrip(n % base);
    }
  }

  /** A number below `base^k` takes at most `k` digits. */
  lemma {:induction false} RadixLength(n: nat, base: nat, k: nat)
    requires 2 <= base <= 16
    requires 1 <= k && n < Pow(base, k)
    ensures |ToRadix(n, base)| <= k
    decreases n
  {
    if n >= base {
      QuotientBelow(n, base, Pow(base, k - 1));
      QuotientPositive(n, base);
      RadixLength(n / base, base, k - 1);
    }
  }

  lemma QuotientBelow(n: nat, base: nat, p: nat)
    requires base > 0 && n < base * p
    ensures n / base < p
  {
    assert base * (n / base) <= n;
    assert base * (n / base) < base * p;
  }

  lemma QuotientPositive(n: nat, base: nat)
    requires 0 < base <= n
    ensures n / base >= 1
  {
  }
}
