/** The placeholder primitives `generatePUFF` and `generateHash` of
    app/page.tsx: both fold the characters of one string into a signed 32-bit
    integer, `hash = (hash << 5) - hash + char; hash = hash & hash`, and print
    the absolute value of the result in lowercase hexadecimal. */
module Hashing {
  import opened Wrappers
  import Numerals

  const TwoTo31: int := 0x8000_0000
  const TwoTo32: int := 0x1_0000_0000

  predicate IsInt32(x: int)
  {
    -TwoTo31 <= x < TwoTo31
  }

  /** JavaScript's ToInt32: the signed 32-bit integer congruent to `x`
      modulo 2^32, which every bitwise operator applies to its operands and
      result. */
  function ToInt32(x: int): (r: int)
    ensures IsInt32(r)
    ensures (x - r) % TwoTo32 == 0
  {
    var m := x % TwoTo32;
    if m >= TwoTo31 then m - TwoTo32 else m
  }

  /** ToInt32 sees only the residue modulo 2^32. */
  lemma ToInt32Congruent(x: int, y: int, k: int)
    requires x == y + k * TwoTo32
    ensures ToInt32(x) == ToInt32(y)
  {
    ModShift(y, k);
  }

  lemma ModShift(y: int, k: int)
    ensures (y + k * TwoTo32) % TwoTo32 == y % TwoTo32
  {
    var q, r := y / TwoTo32, y % TwoTo32;
    assert y + k * TwoTo32 == (q + k) * TwoTo32 + r;
  }

  /** ToInt32 leaves a 32-bit value alone. */
  lemma ToInt32OfInt32(x: int)
    requires IsInt32(x)
    ensures ToInt32(x) == x
  {
    if x < 0 {
      ToInt32Congruent(x, x + TwoTo32, -1);
    }
  }

  /** One step of the fold exactly as the source writes it:
      `(hash << 5) - hash + char`, then `hash & hash`. */
  function FoldStep(hash: int, code: int): (r: int)
    ensures IsInt32(r)
  {
    var shifted := ToInt32(ToInt32(hash) * 32);
    var sum := shifted - hash + code;
    ToInt32(sum)
  }

  /** The step is Java's `String.hashCode` recurrence `31 * h + c`, wrapped to 32 bits. */
  lemma FoldStepIsTimes31(hash: int, code: int)
    ensures FoldStep(hash, code) == ToInt32(31 * hash + code)
  {
    var a := ToInt32(hash);
    var ka := (hash - a) / TwoTo32;
    assert hash == a + ka * TwoTo32;
    var shifted := ToInt32(a * 32);
    var ks := (a * 32 - shifted) / TwoTo32;
    assert a * 32 == shifted + ks * TwoTo32;
    var sum := shifted - hash + code;
    assert 31 * hash + code == sum + (ks + 32 * ka) * TwoTo32;
    ToInt32Congruent(31 * hash + code, sum, ks + 32 * ka);
  }

  /** The fold of `s` started from `hash`, one character code at a time. */
  function FoldFrom(hash: int, s: string): int
  {
    if s == [] then hash else FoldStep(FoldFrom(hash, s[..|s| - 1]), s[|s| - 1] as int)
  }

  /** The fold the source starts from `let hash = 0`. */
  function Fold(s: string): int
  {
    FoldFrom(0, s)
  }

  /** Folding a concatenation is folding the second part from where the first left off. */
  lemma {:induction false} FoldAppend(hash: int, a: string, b: string)
    ensures FoldFrom(hash, a + b) == FoldFrom(FoldFrom(hash, a), b)
    decreases |b|
  {
    if b == [] {
      assert a + b == a;
    } else {
      var b' := b[..|b| - 1];
      assert (a + b)[..|a + b| - 1] == a + b';
      assert (a + b)[|a + b| - 1] == b[|b| - 1];
      FoldAppend(hash, a, b');
    }
  }

  /** The fold of a string is always a 32-bit value, whatever its length. */
  lemma FoldIsInt32(s: string)
    ensures IsInt32(Fold(s))
  {
    if s != [] {
      assert Fold(s) == FoldStep(FoldFrom(0, s[..|s| - 1]), s[|s| - 1] as int);
    }
  }

  function Abs(x: int): nat
  {
    if x < 0 then -x else x
  }

  /** `Math.abs(hash).toString(16)`. */
  function Render(hash: int): string
  {
    Numerals.Hex(Abs(hash))
  }

  /** `challenge + (seed || "")`: a missing or empty seed adds nothing. */
  function OrEmpty(s: Option<string>): string
  {
    s.GetOr("")
  }

  /** `inputs.join("")`. */
  function Join(inputs: seq<string>): string
  {
    if inputs == [] then "" else Join(inputs[..|inputs| - 1]) + inputs[|inputs| - 1]
  }

  /** What `generatePUFF(challenge, seed)` returns. */
  function Puff(challenge: string, seed: Option<string>): string
  {
    Render(Fold(challenge + OrEmpty(seed)))
  }

  /** What `generateHash(...inputs)` returns. */
  function Hash(inputs: seq<string>): string
  {
    Render(Fold(Join(inputs)))
  }

  lemma JoinOne(a: string)
    ensures Join([a]) == a
  {
    assert [a][..0] == [];
  }

  lemma JoinTwo(a: string, b: string)
    ensures Join([a, b]) == a + b
  {
    assert [a, b][..1] == [a];
    JoinOne(a);
  }

  /** The two primitives are one function of the concatenated input:
      `generatePUFF(c, s) == generateHash(c, s)` and `generatePUFF(c) == generateHash(c)`. */
  lemma PuffIsHash(challenge: string, seed: string)
    ensures Puff(challenge, Some(seed)) == Hash([challenge, seed])
    ensures Puff(challenge, None) == Hash([challenge])
  {
    JoinTwo(challenge, seed);
    JoinOne(challenge);
    assert challenge + OrEmpty(None) == challenge;
  }

  /** The hash depends only on the concatenation: `generateHash(a, b) == generateHash(a + b)`. */
  lemma HashOfConcatenation(a: string, b: string)
    ensures Hash([a, b]) == Hash([a + b])
  {
    JoinTwo(a, b);
    JoinOne(a + b);
  }

  /** The printed hash: one to eight lowercase hex digits, no leading zero,
      and "0" exactly when the fold is zero (in particular for empty input). */
  lemma RenderShape(hash: int)
    requires IsInt32(hash)
    ensures 1 <= |Render(hash)| <= 8
    ensures forall i :: 0 <= i < |Render(hash)| ==> Numerals.IsDigit(Render(hash)[i], 16)
    ensures Render(hash)[0] == '0' <==> hash == 0
    ensures Render(hash) == "0" <==> hash == 0
    ensures Fold("") == 0 && Render(Fold("")) == "0"
  {
    Numerals.RadixShape(Abs(hash), 16);
    assert Numerals.Pow(16, 8) == 0x1_0000_0000;
    Numerals.RadixLength(Abs(hash), 16, 8);
  }

  /** The printed hash determines the fold's absolute value. */
  lemma RenderDeterminesAbs(h1: int, h2: int)
    ensures Render(h1) == Render(h2) ==> Abs(h1) == Abs(h2)
  {
    Numerals.RadixInjective(Abs(h1), Abs(h2), 16);
  }

  /** The `for` loop shared by `generatePUFF` and `generateHash`. */
  method FoldString(input: string) returns (hash: int)
    ensures hash == Fold(input)
    ensures IsInt32(hash)
  {
    hash := 0;
    for i := 0 to |input|
      invariant hash == Fold(input[..i])
    {
      assert input[..i + 1][..i] == input[..i];
      var code := input[i] as int;
      hash := ToInt32(ToInt32(hash) * 32) - hash + code;
      hash := ToInt32(hash);
    }
    assert input[..|input|] == input;
    FoldIsInt32(input);
  }

  /** `generatePUFF(challenge, seed?)`. */
  method GeneratePuff(challenge: string, seed: Option<string>) returns (r: string)
    ensures r == Puff(challenge, seed)
    ensures 1 <= |r| <= 8
  {
    var input := challenge + OrEmpty(seed);
    var hash := FoldString(input);
    RenderShape(hash);
    r := Render(hash);
  }

  /** `generateHash(...inputs)`. */
  method GenerateHash(inputs: seq<string>) returns (r: string)
    ensures r == Hash(inputs)
    ensures 1 <= |r| <= 8
  {
    var combined := Join(inputs);
    var hash := FoldString(combined);
    RenderShape(hash);
    r := Render(hash);
  }
}
