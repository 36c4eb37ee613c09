/** Sample values, bit depth and the integer facts the reference-sample model relies on. */
module PixelMath {

  /** X265_DEPTH: the internal sample bit depth of the build (8 for the standard build). */
  const BitDepth: nat := 8

  /** `1 << n`: on non-negative values `x << n` is x * Pow2(n). */
  function Pow2(n: nat): (r: nat)
    ensures r >= 1
  {
    if n == 0 then 1 else 2 * Pow2(n - 1)
  }

  /** Floor division of a non-negative value by a positive one. */
  function Quotient(x: nat, d: nat): (q: nat)
    requires d > 0
    ensures q * d <= x < q * d + d
  {
    x / d
  }

  /** `x >> n` on a non-negative value: floor division by Pow2(n). */
  function ShiftRight(x: nat, n: nat): (r: nat)
    ensures r <= x
  {
    Quotient(x, Pow2(n))
  }

  /** Pow2 grows strictly with its exponent. */
  lemma {:induction false} Pow2Strict(m: nat, n: nat)
    requires m < n
    ensures Pow2(m) < Pow2(n)
  {
    if m < n - 1 {
      Pow2Strict(m, n - 1);
    }
  }

  /** The value a missing reference sample takes: 1 << (X265_DEPTH - 1). */
  function DcValue(): (v: int)
    ensures 0 <= v < Pow2(BitDepth)
  {
    Pow2Strict(BitDepth - 1, BitDepth);
    Pow2(BitDepth - 1)
  }

  /** A value a sample of the picture can hold: [0, 2^X265_DEPTH). */
  predicate IsPixel(v: int) {
    0 <= v < Pow2(BitDepth)
  }

  predicate AllPixels(s: seq<int>) {
    forall i :: 0 <= i < |s| ==> IsPixel(s[i])
  }

  function Abs(x: int): int {
    if x < 0 then -x else x
  }

  function Min(a: int, b: int): int {
    if a <= b then a else b
  }

  function Max(a: int, b: int): int {
    if a <= b then b else a
  }

  /** C's conversion of an `int` to `uint32_t` (used where a signed value meets an unsigned one). */
  function AsUint32(x: int): (r: nat)
    ensures r < 0x1_0000_0000
  {
    x % 0x1_0000_0000
  }

  lemma MulNonNegative(a: int, b: int)
    requires 0 <= a && 0 <= b
    ensures 0 <= a * b
  {
  }

  /** Multiplying by a positive factor is monotone. */
  lemma {:induction false} MulMonotone(a: int, b: int, d: nat)
    requires a <= b
    ensures a * d <= b * d
  {
    MulNonNegative(b - a, d);
  }

  /** Floor division by a positive divisor of a value in [q*d, (q+1)*d) gives q. */
  lemma {:induction false} DivBetween(x: int, d: int, q: int)
    requires 0 < d
    requires q * d <= x < q * d + d
    ensures x / d == q
  {
    var r := x / d;
    assert x == r * d + x % d;
    if r < q {
      MulMonotone(r + 1, q, d);
    } else if r > q {
      MulMonotone(q + 1, r, d);
    }
  }

  /** A value at or above lo*d divides to at least lo; one below (hi+1)*d to at most hi. */
  lemma {:induction false} DivBounds(x: int, d: int, lo: int, hi: int)
    requires 0 < d
    requires lo * d <= x < hi * d + d
    ensures lo <= x / d <= hi
  {
    var r := x / d;
    assert x == r * d + x % d;
    if r < lo {
      MulMonotone(r + 1, lo, d);
    }
    if r > hi {
      MulMonotone(hi + 1, r, d);
    }
  }

  /** p is where unit c starts in a line of units of u samples: p == c * u, spelled out one
      unit at a time so that loops walking the units need no multiplication. */
  predicate UnitStart(c: nat, u: nat, p: int)
    decreases c
  {
    if c == 0 then p == 0 else p >= u && UnitStart(c - 1, u, p - u)
  }

  lemma {:induction false} UnitStartIs(c: nat, u: nat, p: int)
    ensures UnitStart(c, u, p) <==> p == c * u
    decreases c
  {
    if c > 0 {
      UnitStartIs(c - 1, u, p - u);
      assert c * u == (c - 1) * u + u;
      MulNonNegative(c - 1, u);
    }
  }

  /** A unit has one start. */
  lemma {:induction false} UnitStartUnique(c: nat, u: nat, p: int, q: int)
    requires UnitStart(c, u, p) && UnitStart(c, u, q)
    ensures p == q
    decreases c
  {
    if c > 0 {
      UnitStartUnique(c - 1, u, p - u, q - u);
    }
  }

  /** The unit after the one starting at p starts u samples later. */
  lemma UnitStartNext(c: nat, u: nat, p: int)
    requires UnitStart(c, u, p) && p >= 0
    ensures UnitStart(c + 1, u, p + u)
  {
    assert p + u - u == p;
  }

  /** A unit before the n-th ends no later than the n-th starts. */
  lemma {:induction false} UnitStartBelow(c: nat, n: nat, u: nat, p: int, q: int)
    requires c < n && UnitStart(c, u, p) && UnitStart(n, u, q)
    ensures p + u <= q
    decreases c
  {
    if c > 0 {
      UnitStartBelow(c - 1, n - 1, u, p - u, q - u);
    }
  }

  /** The unit sample k of a line cut into units of u samples lies in: k / u, counted one
      unit at a time. */
  function UnitOfSample(k: nat, u: nat): nat
    requires u > 0
    decreases k
  {
    if k < u then 0 else 1 + UnitOfSample(k - u, u)
  }

  /** Every sample of the unit starting at p lies in that unit. */
  lemma {:induction false} UnitOfSampleIs(c: nat, u: nat, p: int, k: nat)
    requires u > 0 && UnitStart(c, u, p) && p <= k < p + u
    ensures UnitOfSample(k, u) == c
    decreases c
  {
    if c > 0 {
      UnitOfSampleIs(c - 1, u, p - u, k - u);
    }
  }

  /** A sample before the start of unit n lies in a unit before n. */
  lemma {:induction false} UnitOfSampleBelow(k: nat, n: nat, u: nat, p: int)
    requires u > 0 && UnitStart(n, u, p) && k < p
    ensures UnitOfSample(k, u) < n
    decreases k
  {
    if k >= u {
      UnitOfSampleBelow(k - u, n - 1, u, p - u);
    }
  }
}
