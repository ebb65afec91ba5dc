/** Division of integers in float64 (IEEE 754 binary64), as far as the page count needs it. */
module Float64 {

  function Pow2(k: nat): (r: nat)
    ensures r >= 1
  {
    if k == 0 then 1 else 2 * Pow2(k - 1)
  }

  /** The exact whole numbers of a float64 significand: 53 bits. */
  const EXACT: nat := 0x20_0000_0000_0000

  /** The finite float64 values that are not negative: m * 2^e or m / 2^e, with m below 2^53. */
  ghost predicate IsFloat(x: real) {
    exists m: nat, e: nat :: ScaledUp(x, m, e) || ScaledDown(x, m, e)
  }

  predicate ScaledUp(x: real, m: nat, e: nat) { m < EXACT && e <= 971 && x == (m * Pow2(e)) as real }

  predicate ScaledDown(x: real, m: nat, e: nat) { m < EXACT && e <= 1074 && x * Pow2(e) as real == m as real }

  function Distance(x: real, y: real): real { if x < y then y - x else x - y }

  /** Rounding to nearest, whichever way ties go. */
  ghost predicate IsNearest(q: real, r: real) {
    IsFloat(r) && forall y :: IsFloat(y) ==> Distance(r, q) <= Distance(y, q)
  }

  /** math.Ceil, as a whole number. */
  function Ceil(x: real): int { -(-x).Floor }

  /** The number of pages of d records that n records take. */
  function CeilDiv(n: nat, d: nat): (r: nat)
    requires d > 0
  {
    (n + d - 1) / d
  }

  lemma CeilDivIs(n: nat, d: nat, c: nat)
    requires d > 0 && n <= c * d < n + d
    ensures CeilDiv(n, d) == c
  {
    var x := n + d - 1;
    assert c * d <= x < c * d + d;
    var k := x / d;
    assert x == k * d + x % d;
    Scale(k + 1, c, d);
    Scale(c + 1, k, d);
  }

  lemma Scale(a: nat, b: nat, d: nat)
    ensures a <= b ==> a * d <= b * d
  {
    if a <= b { assert b * d == a * d + (b - a) * d; }
  }

  lemma WholeIsFloat(n: nat)
    requires n <= EXACT
    ensures IsFloat(n as real)
  {
    if n < EXACT {
      assert ScaledUp(n as real, n, 0);
    } else {
      assert Pow2(1) == 2 * Pow2(0);
      assert ScaledUp(n as real, EXACT / 2, 1);
    }
  }

  /** The power of two under a number. */
  lemma {:induction false} PowerUnder(d: nat, max: nat) returns (j: nat)
    requires 1 <= d < Pow2(max + 1)
    ensures j <= max && Pow2(j) <= d < 2 * Pow2(j)
  {
    if d < Pow2(max) {
      assert max > 0;
      j := PowerUnder(d, max - 1);
    } else {
      j := max;
    }
  }

  lemma Pow53()
    ensures Pow2(53) == EXACT
  {
    assert Pow2(5) == 32;
    PowSum(5, 5);
    PowSum(10, 10);
    PowSum(20, 20);
    PowSum(40, 10);
    PowSum(50, 3);
  }

  lemma PowerUnderSize(d: nat) returns (j: nat)
    requires 1 <= d <= EXACT
    ensures j <= 53 && Pow2(j) <= d < 2 * Pow2(j)
  {
    Pow53();
    assert Pow2(54) == 2 * EXACT;
    j := PowerUnder(d, 53);
  }

  lemma {:induction false} PowSum(a: nat, b: nat)
    ensures Pow2(a + b) == Pow2(a) * Pow2(b)
  {
    if a > 0 { PowSum(a - 1, b); }
  }

  // ----- the rounded quotient stays between the same whole numbers -----

  lemma DivideBack(a: real, k: real)
    requires k != 0.0
    ensures (a * k) / k == a
  {
  }

  lemma Cancel(a: real, b: real, k: real)
    requires k > 0.0 && a * k < b * k
    ensures a < b
  {
    DivideBack(a, k);
    DivideBack(b, k);
  }

  /** n/d lies at least 1/d above its whole part and below the next whole number. */
  lemma AroundQuotient(n: nat, d: nat, f: nat, q: real)
    requires d >= 1 && f * d < n < (f + 1) * d && q * d as real == n as real
    ensures f as real < q < (f + 1) as real
    ensures (q - f as real) * d as real >= 1.0
  {
    var g := d as real;
    assert f as real * g == (f * d) as real;
    assert (f + 1) as real * g == ((f + 1) * d) as real;
    Cancel(f as real, q, g);
    Cancel(q, (f + 1) as real, g);
    assert (q - f as real) * g == q * g - f as real * g;
  }

  /** A step of 1/P above the whole part is nearer to the quotient, when d < 2P. */
  lemma StepIsNearer(d: nat, P: nat, rest: real, gap: real)
    requires 1 <= P && d < 2 * P && rest > 0.0 && rest * d as real >= 1.0 && gap * P as real == 1.0
    ensures 0.0 < gap < 2.0 * rest
  {
    var p := P as real;
    Cancel(0.0, gap, p);
    assert rest * (2.0 * p - d as real) > 0.0;
    assert (2.0 * rest) * p == rest * (2.0 * p - d as real) + rest * d as real;
    Cancel(gap, 2.0 * rest, p);
  }

  /** Just above the whole part of n/d there is a float nearer to n/d than the whole part itself. */
  lemma FloatAboveFloor(n: nat, d: nat, f: nat, q: real) returns (y: real)
    requires n < EXACT && 1 <= d <= EXACT && f * d < n < (f + 1) * d && q * d as real == n as real
    ensures IsFloat(y) && f as real < y && Distance(y, q) < Distance(f as real, q)
  {
    var j := PowerUnderSize(d);
    var P := Pow2(j);
    var gap := Reciprocal(P);
    y := f as real + gap;
    FloatStep(n, d, f, j, P, gap);
    AroundQuotient(n, d, f, q);
    StepIsNearer(d, P, q - f as real, gap);
  }

  lemma Reciprocal(P: nat) returns (gap: real)
    requires P >= 1
    ensures gap * P as real == 1.0
  {
    gap := 1.0 / P as real;
  }

  lemma FloatStep(n: nat, d: nat, f: nat, j: nat, P: nat, gap: real)
    requires n < EXACT && f * d < n && j <= 53 && P == Pow2(j) && P <= d && gap * P as real == 1.0
    ensures IsFloat(f as real + gap)
  {
    hide *;
    Numerator(n, f, P, d, gap);
    DownIsFloat(f as real + gap, f * P + 1, j, P);
  }

  lemma DownIsFloat(x: real, m: nat, j: nat, P: nat)
    requires m < EXACT && j <= 1074 && P == Pow2(j) && x * P as real == m as real
    ensures IsFloat(x)
  {
    assert ScaledDown(x, m, j);
  }

  lemma Numerator(n: nat, f: nat, P: nat, d: nat, gap: real)
    requires n < EXACT && f * d < n && P <= d && gap * P as real == 1.0
    ensures f * P + 1 < EXACT
    ensures (f as real + gap) * P as real == (f * P + 1) as real
  {
    Scale(P, d, f);
    assert f as real * P as real == (f * P) as real;
    assert (f as real + gap) * P as real == f as real * P as real + gap * P as real;
  }

  /**
   math.Ceil(float64(n) / float64(d)) is the exact page count: the rounded quotient never meets a whole number
   that the exact one does not.
   */
  lemma PageCountIsExact(n: nat, d: nat, q: real, r: real)
    requires n < EXACT && 1 <= d <= EXACT && q * d as real == n as real && IsNearest(q, r)
    ensures Ceil(r) == CeilDiv(n, d)
  {
    var f := n / d;
    WholePart(n, d, f);
    WholeIsFloat(f);
    if n == f * d {
      CeilDivIs(n, d, f);
      Exact(n, d, f, q);
      assert Distance(f as real, q) == 0.0;
      assert r == f as real;
    } else {
      CeilDivIs(n, d, f + 1);
      Between(n, d, f, q, r);
    }
  }

  lemma WholePart(n: nat, d: nat, f: nat)
    requires d >= 1 && f == n / d
    ensures f <= n && f * d <= n < (f + 1) * d && (f + 1) * d == f * d + d
    ensures n == f * d || f < n
  {
    assert n == f * d + n % d;
    assert f <= f * d;
  }

  lemma Exact(n: nat, d: nat, f: nat, q: real)
    requires d >= 1 && f * d == n && q * d as real == n as real
    ensures q == f as real
  {
    var g := d as real;
    assert f as real * g == (f * d) as real;
    DivideBack(f as real, g);
    DivideBack(q, g);
  }

  lemma Between(n: nat, d: nat, f: nat, q: real, r: real)
    requires n < EXACT && 1 <= d <= EXACT && f < n && f * d < n < (f + 1) * d && q * d as real == n as real
    requires IsNearest(q, r)
    ensures f as real < r <= (f + 1) as real
  {
    var y := FloatAboveFloor(n, d, f, q);
    AroundQuotient(n, d, f, q);
    WholeIsFloat(f + 1);
    assert Distance(r, q) <= Distance(y, q);
    assert Distance(r, q) <= Distance((f + 1) as real, q);
  }
}
