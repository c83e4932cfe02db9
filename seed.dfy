/**
 * `generateSeed(imageUrl, userId)`: a rolling hash over the UTF-16 code units of the
 * concatenation `imageUrl + userId`. Each step computes `((hash << 5) - hash) + char`
 * and truncates it back to a signed 32-bit integer (`hash & hash`); the seed is the
 * absolute value of the final hash.
 */
module Seed {
  import opened Arith

  /** A UTF-16 code unit, as `charCodeAt` returns it. */
  type CodeUnit = c: int | 0 <= c < 0x1_0000

  const TwoTo32: int := 0x1_0000_0000
  const TwoTo31: int := 0x8000_0000

  /** ECMAScript `ToInt32`: the signed 32-bit integer congruent to `x` modulo 2^32. */
  function ToInt32(x: int): (r: int)
    ensures -TwoTo31 <= r < TwoTo31
    ensures (x - r) % TwoTo32 == 0
  {
    var m := x % TwoTo32;
    DivModUnique(x - m, TwoTo32, x / TwoTo32, 0);
    if m >= TwoTo31 then m - TwoTo32 else m
  }

  /** Congruent integers truncate to the same 32-bit value. */
  lemma ToInt32Congruent(x: int, y: int)
    requires (x - y) % TwoTo32 == 0
    ensures ToInt32(x) == ToInt32(y)
  {
    var q := (x - y) / TwoTo32;
    assert x == y + q * TwoTo32;
    DivModUnique(x, TwoTo32, y / TwoTo32 + q, y % TwoTo32);
  }

  /** One step of the loop: `hash << 5` truncates `hash * 32`, then `hash & hash` truncates the sum. */
  function HashStep(h: int, c: CodeUnit): (r: int)
    ensures -TwoTo31 <= r < TwoTo31
  {
    ToInt32(ToInt32(ToInt32(h) * 32) - h + c)
  }

  /** The hash after consuming all of `s`, starting from 0. */
  function Hash(s: seq<CodeUnit>): (h: int)
    ensures -TwoTo31 <= h < TwoTo31
  {
    if |s| == 0 then 0 else HashStep(Hash(s[..|s| - 1]), s[|s| - 1])
  }

  function JsAbs(x: int): int {
    if x < 0 then -x else x
  }

  /** The value `generateSeed` returns. */
  function SeedOf(imageUrl: seq<CodeUnit>, userId: seq<CodeUnit>): int {
    JsAbs(Hash(imageUrl + userId))
  }

  /** A step of the loop is a multiply-by-31-and-add, truncated to 32 bits. */
  lemma {:induction false} HashStepIsTimes31(h: int, c: CodeUnit)
    requires -TwoTo31 <= h < TwoTo31
    ensures HashStep(h, c) == ToInt32(31 * h + c)
  {
    var shifted := ToInt32(h * 32);
    assert ToInt32(h) == h;
    assert ((shifted - h + c) - (31 * h + c)) % TwoTo32 == 0 by {
      assert (shifted - h + c) - (31 * h + c) == -(h * 32 - shifted);
      var k := (h * 32 - shifted) / TwoTo32;
      assert h * 32 - shifted == k * TwoTo32;
      MultipleMod(-k, TwoTo32);
    }
    ToInt32Congruent(shifted - h + c, 31 * h + c);
  }

  /** The hash polynomial `sum s[i] * 31^(n-1-i)`, evaluated by Horner's rule without truncation. */
  function Polynomial(s: seq<CodeUnit>): int {
    if |s| == 0 then 0 else 31 * Polynomial(s[..|s| - 1]) + s[|s| - 1]
  }

  /** Congruent hashes stay congruent after a step: both sides then truncate alike. */
  lemma CongruentStep(a: int, b: int, c: int)
    requires (a - ToInt32(a)) % TwoTo32 == 0 && b == ToInt32(a)
    ensures ToInt32(31 * a + c) == ToInt32(31 * b + c)
  {
    var d := (a - b) / TwoTo32;
    assert a - b == d * TwoTo32;
    assert (31 * a + c) - (31 * b + c) == (31 * d) * TwoTo32;
    MultipleMod(31 * d, TwoTo32);
    ToInt32Congruent(31 * a + c, 31 * b + c);
  }

  /** The truncations along the way do not matter: the hash is the polynomial truncated once. */
  lemma {:induction false} HashIsPolynomial(s: seq<CodeUnit>)
    ensures Hash(s) == ToInt32(Polynomial(s))
  {
    if |s| > 0 {
      var p, c := s[..|s| - 1], s[|s| - 1];
      HashIsPolynomial(p);
      HashStepIsTimes31(Hash(p), c);
      CongruentStep(Polynomial(p), Hash(p), c);
    }
  }

  /** The seed of the empty concatenation is 0. */
  lemma EmptySeedIsZero()
    ensures SeedOf([], []) == 0
  {
  }

  /** Only the concatenation is hashed, so different splits of the same text collide. */
  lemma SplitsCollide(a: seq<CodeUnit>, b: seq<CodeUnit>, c: seq<CodeUnit>, d: seq<CodeUnit>)
    requires a + b == c + d
    ensures SeedOf(a, b) == SeedOf(c, d)
  {
  }

  /** The loop of `generateSeed`. */
  method GenerateSeed(imageUrl: seq<CodeUnit>, userId: seq<CodeUnit>) returns (seed: int)
    ensures seed == SeedOf(imageUrl, userId)
    ensures seed == JsAbs(ToInt32(Polynomial(imageUrl + userId)))
    ensures 0 <= seed <= TwoTo31
  {
    var hash := 0;
    var str := imageUrl + userId;
    var i := 0;
    while i < |str|
      invariant 0 <= i <= |str|
      invariant hash == Hash(str[..i])
    {
      var code := str[i];
      assert str[..i + 1][..i] == str[..i];
      hash := ToInt32(ToInt32(ToInt32(hash) * 32) - hash + code);
      i := i + 1;
    }
    assert str[..i] == str;
    HashIsPolynomial(str);
    seed := if hash < 0 then -hash else hash;
  }
}
