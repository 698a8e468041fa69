/** Error analysis of the binary32 difficulty: range, monotonicity and distance from the documented line. */
module DifficultyRounding {
  import opened Bytes
  import opened Difficulty

  // ---------- relative error ----------

  /** Relative error of at most `units` units of roundoff, 2^-24 each. */
  ghost predicate Near(v: real, w: real, units: real) {
    Approx(v, w, units / 16777216.0)
  }

  /** `v` approximates the non-negative `w` with relative error at most `e`. */
  ghost predicate Approx(v: real, w: real, e: real) {
    w >= 0.0 && e >= 0.0 && w - e * w <= v <= w + e * w
  }

  lemma Assoc(a: real, b: real, c: real)
    ensures (a * b) * c == a * (b * c)
  {
  }

  lemma Distribute(a: real, b: real, c: real)
    ensures a * (b + c) == a * b + a * c
  {
  }

  lemma Rearrange(a: real, b: real, c: real, d: real)
    ensures (a * b) * (c * d) == (a * c) * (b * d)
  {
  }

  lemma Cancel(x: real, y: real, c: real)
    requires c > 0.0 && x * c <= y * c
    ensures x <= y
  {
    assert x > y ==> (x - y) * c > 0.0;
  }

  lemma AbsMul(x: real, y: real, a: real, b: real)
    requires -a <= x <= a && -b <= y <= b
    ensures -(a * b) <= x * y <= a * b
  {
    assert (a - x) * (b + y) >= 0.0 && (a + x) * (b - y) >= 0.0;
    assert (a - x) * (b - y) >= 0.0 && (a + x) * (b + y) >= 0.0;
    assert (a - x) * (b + y) == a * b + a * y - x * b - x * y;
    assert (a + x) * (b - y) == a * b - a * y + x * b - x * y;
    assert (a - x) * (b - y) == a * b - a * y - x * b + x * y;
    assert (a + x) * (b + y) == a * b + a * y + x * b + x * y;
  }

  ghost predicate Bounded(x: real, e: real, w: real) {
    -(e * w) <= x <= e * w
  }

  /** Three error terms that are fractions of `w` add up. */
  lemma SumBound(w: real, x1: real, x2: real, x3: real, e1: real, e2: real, e: real, v: real)
    requires w >= 0.0 && e1 >= 0.0 && e2 >= 0.0 && e1 + e2 + e1 * e2 <= e
    requires Bounded(x1, e1, w) && Bounded(x2, e2, w) && Bounded(x3, e1 * e2, w)
    requires v == w + x1 + x2 + x3
    ensures Approx(v, w, e)
  {
    var f := e1 * e2;
    MulLe(e1 + e2 + f, e, w);
    assert (e1 + e2 + f) * w == e1 * w + e2 * w + f * w;
  }

  lemma ErrorTerm(v1: real, w1: real, e: real, w2: real, w: real)
    requires Approx(v1, w1, e) && w2 >= 0.0 && w == w1 * w2
    ensures Bounded((v1 - w1) * w2, e, w)
  {
    AbsMul(v1 - w1, w2, e * w1, w2);
    Assoc(e, w1, w2);
  }

  lemma CrossTerm(v1: real, w1: real, e1: real, v2: real, w2: real, e2: real, w: real)
    requires Approx(v1, w1, e1) && Approx(v2, w2, e2) && w == w1 * w2
    ensures Bounded((v1 - w1) * (v2 - w2), e1 * e2, w)
  {
    AbsMul(v1 - w1, v2 - w2, e1 * w1, e2 * w2);
    Rearrange(e1, w1, e2, w2);
  }

  lemma Expand(v1: real, w1: real, v2: real, w2: real)
    ensures v1 * v2 == w1 * w2 + (v1 - w1) * w2 + (v2 - w2) * w1 + (v1 - w1) * (v2 - w2)
  {
  }

  lemma Signs(v1: real, w1: real, e1: real, v2: real, w2: real, e2: real)
    requires Approx(v1, w1, e1) && Approx(v2, w2, e2)
    ensures w1 >= 0.0 && w2 >= 0.0 && e1 >= 0.0 && e2 >= 0.0 && w1 * w2 >= 0.0
  {
  }

  lemma ApproxMul(v1: real, w1: real, e1: real, v2: real, w2: real, e2: real, e: real)
    requires Approx(v1, w1, e1) && Approx(v2, w2, e2)
    requires e1 + e2 + e1 * e2 <= e
    ensures Approx(v1 * v2, w1 * w2, e)
  {
    hide Approx, Bounded;
    var w := w1 * w2;
    Signs(v1, w1, e1, v2, w2, e2);
    ErrorTerm(v1, w1, e1, w2, w);
    ErrorTerm(v2, w2, e2, w1, w);
    CrossTerm(v1, w1, e1, v2, w2, e2, w);
    Expand(v1, w1, v2, w2);
    SumBound(w, (v1 - w1) * w2, (v2 - w2) * w1, (v1 - w1) * (v2 - w2), e1, e2, e, v1 * v2);
  }

  // Products under a name, so that they can be kept from being multiplied out.

  lemma MulOrder(a: real, x: real, y: real)
    requires a >= 0.0 && x <= y
    ensures Mul(a, x) <= Mul(a, y)
  {
    MulLe(x, y, a);
  }

  lemma MulSum(a: real, x: real, y: real)
    ensures Mul(a, x + y) == Mul(a, x) + Mul(a, y)
  {
    Distribute(a, x, y);
  }

  lemma MulAssoc(a: real, b: real, c: real)
    ensures Mul(Mul(a, b), c) == Mul(a, Mul(b, c))
  {
    Assoc(a, b, c);
  }

  lemma MulCommutes(a: real, b: real)
    ensures Mul(a, b) == Mul(b, a)
  {
  }

  lemma ApproxIsMul(v: real, w: real, e: real)
    ensures Approx(v, w, e) <==> w >= 0.0 && e >= 0.0 && w - Mul(e, w) <= v <= w + Mul(e, w)
  {
  }

  /** The first error, carried over from `w` to `x`. */
  lemma FirstError(w: real, x: real, e1: real, e2: real)
    requires e1 >= 0.0 && w <= x + Mul(e2, x)
    ensures Mul(e1, w) <= Mul(e1, x) + Mul(Mul(e1, e2), x)
  {
    hide Mul;
    MulOrder(e1, w, x + Mul(e2, x));
    MulSum(e1, x, Mul(e2, x));
    MulAssoc(e1, e2, x);
  }

  lemma ErrorsAdd(x: real, e1: real, e2: real, e: real)
    requires x >= 0.0 && e1 + e2 + Mul(e1, e2) <= e
    ensures Mul(e1, x) + Mul(e2, x) + Mul(Mul(e1, e2), x) <= Mul(e, x)
  {
    hide Mul;
    var f := Mul(e1, e2);
    MulOrder(x, e1 + e2 + f, e);
    MulSum(x, e1 + e2, f);
    MulSum(x, e1, e2);
    MulCommutes(x, e1);
    MulCommutes(x, e2);
    MulCommutes(x, f);
    MulCommutes(x, e);
  }

  lemma ApproxTrans(v: real, w: real, x: real, e1: real, e2: real, e: real)
    requires Approx(v, w, e1) && Approx(w, x, e2) && e1 + e2 + e1 * e2 <= e
    ensures Approx(v, x, e)
  {
    ApproxIsMul(v, w, e1);
    ApproxIsMul(w, x, e2);
    ApproxIsMul(v, x, e);
    assert Mul(e1, e2) == e1 * e2 >= 0.0 by { NonNegativeProduct(e1, e2); }
    hide Mul, Approx;
    FirstError(w, x, e1, e2);
    ErrorsAdd(x, e1, e2, e);
  }

  /** Dividing by an approximation. */
  lemma ApproxDiv(k: real, p: real, p0: real, e: real, f: real)
    requires k >= 0.0 && p0 > 0.0 && Approx(p, p0, e) && e < 0.5 && f >= 0.0 && e <= f * (1.0 - e)
    ensures p > 0.0 && Approx(k / p, k / p0, f)
  {
    MulLe(e, 0.5, p0);
    var a, a0 := k / p, k / p0;
    DivMul(k, p0);
    DivMul(k, p);
    QuotientSign(k, p);
    QuotientSign(k, p0);
    QuotientGap(a, p, a0, p0, e);
    QuotientBound(a, a0, e, f);
  }

  lemma QuotientSign(k: real, p: real)
    requires k >= 0.0 && p > 0.0
    ensures k / p >= 0.0
  {
  }

  lemma MulDifference(a: real, x: real, y: real)
    ensures Mul(a, x - y) == Mul(a, x) - Mul(a, y) && Mul(x - y, a) == Mul(x, a) - Mul(y, a)
  {
    Distribute(a, x, -y);
    Distribute(a, y, x - y);
  }

  lemma MulCancel(x: real, y: real, c: real)
    requires c > 0.0 && Mul(x, c) <= Mul(y, c)
    ensures x <= y
  {
    Cancel(x, y, c);
  }

  /** Equal products: the factors' gaps are proportional. */
  lemma QuotientGap(a: real, p: real, a0: real, p0: real, e: real)
    requires a >= 0.0 && p0 > 0.0 && a * p == a0 * p0 && -(e * p0) <= p - p0 <= e * p0
    ensures a0 - a <= e * a && a - a0 <= e * a
  {
    assert Mul(a, p) == Mul(a0, p0) && Mul(e, p0) == e * p0 && Mul(e, a) == e * a;
    hide Mul;
    MulOrder(a, p - p0, Mul(e, p0));
    MulOrder(a, p0 - p, Mul(e, p0));
    MulDifference(a, p, p0);
    MulDifference(a, p0, p);
    MulDifference(p0, a0, a);
    MulDifference(p0, a, a0);
    MulAssoc(a, e, p0);
    MulCommutes(a, e);
    MulCancel(a0 - a, Mul(e, a), p0);
    MulCancel(a - a0, Mul(e, a), p0);
  }

  lemma QuotientBound(a: real, a0: real, e: real, f: real)
    requires a >= 0.0 && a0 >= 0.0 && 0.0 <= e < 0.5 && f >= 0.0 && e <= f * (1.0 - e)
    requires a0 - a <= e * a && a - a0 <= e * a
    ensures Approx(a, a0, f)
  {
    ApproxIsMul(a, a0, f);
    assert Mul(f, 1.0 - e) == f * (1.0 - e) && Mul(e, a) == e * a && Mul(1.0, a) == a;
    hide Mul, Approx;
    MulDifference(a, 1.0, e);
    MulOrder(a, e, Mul(f, 1.0 - e));
    MulCommutes(a, e);
    MulCommutes(a, Mul(f, 1.0 - e));
    MulAssoc(f, 1.0 - e, a);
    MulOrder(f, Mul(1.0 - e, a), a0);
  }

  lemma ExactlyNear(w: real)
    requires w >= 0.0
    ensures Approx(w, w, 0.0)
  {
  }

  // ---------- one rounding ----------

  const SMALL := 1.0 / 1000000000000.0

  const TWO_65 := 36893488147419103232.0

  lemma RoundError(rnd: Rounding, x: real)
    requires IsBinary32Rounding(rnd)
    ensures Rounded(rnd(x), x)
    ensures x >= 0.0 ==> rnd(x) >= 0.0
    ensures x <= 0.0 ==> rnd(x) <= 0.0
  {
    assert SmallInteger(0.0);
    assert x >= 0.0 ==> InOrder(0.0, x);
    assert x <= 0.0 ==> InOrder(x, 0.0);
  }

  lemma RoundMonotone32(rnd: Rounding, x: real, y: real)
    requires IsBinary32Rounding(rnd) && x <= y
    ensures rnd(x) <= rnd(y)
  {
    assert InOrder(x, y);
  }

  /** Rounding a number that is not tiny. */
  lemma RoundedNear(v: real, x: real)
    requires Rounded(v, x) && x >= EPSILON / 4.0
    ensures Near(v, x, 2.0)
  {
  }

  ghost predicate IsBalance(v: real, n: real) {
    Near(v, n, 2.0) && 0.0 <= v <= TWO_65
  }

  lemma IntegerNear(rnd: Rounding, n: U64)
    requires IsBinary32Rounding(rnd)
    ensures IsBalance(rnd(n as real), n as real)
  {
    RoundError(rnd, n as real);
    if n == 0 {
      RoundError(rnd, 0.0);
      assert SmallInteger(0.0);
    } else {
      RoundedNear(rnd(n as real), n as real);
    }
  }

  /** A rounded product with the gradient, against -t. */
  ghost predicate ProductError(prod: real, t: real) {
    t >= 0.0 && Abs(prod + t) <= 3.0 * t / 16777216.0 + SMALL
  }

  lemma SlopeError(bigA: real, a: real, z: real, prod: real)
    requires a >= 0.0 && 0.0 <= z <= TWO_65
    requires Rounded(bigA, -a) && Rounded(prod, Mul(bigA, z))
    ensures ProductError(prod, Mul(a, z))
  {
    var t, v, tiny := Mul(a, z), Mul(bigA, z), Mul(z, TINY);
    Scale(bigA, a, z);
    TinyProduct(z);
    assert t >= 0.0;
    hide Mul, ProductError;
    SlopeSum(t, v, prod, tiny);
  }

  lemma Scale(bigA: real, a: real, z: real)
    requires z >= 0.0 && Rounded(bigA, -a) && a >= 0.0
    ensures Abs(Mul(bigA, z) + Mul(a, z)) <= Mul(a, z) / 16777216.0 + Mul(z, TINY)
  {
    AbsMul(bigA + a, z, a / 16777216.0 + TINY, z);
    assert (bigA + a) * z == bigA * z + a * z;
    ScaledSum(a, z);
  }

  lemma SlopeSum(t: real, v: real, prod: real, tiny: real)
    requires t >= 0.0 && 0.0 <= tiny <= SMALL / 10.0
    requires Abs(v + t) <= t / 16777216.0 + tiny && Rounded(prod, v)
    ensures ProductError(prod, t)
  {
  }

  lemma TinyProduct(z: real)
    requires 0.0 <= z <= TWO_65
    ensures 0.0 <= Mul(z, TINY) <= SMALL / 10.0
  {
    MulLe(0.0, z, TINY);
    MulLe(z, TWO_65, TINY);
    assert TWO_65 * TINY <= SMALL / 10.0;
  }

  lemma ScaledSum(a: real, z: real)
    ensures (a / 16777216.0 + TINY) * z == (a * z) / 16777216.0 + z * TINY
  {
  }

  // ---------- the linear core, in scaled quantities ----------

  /**
   * The rounded balance, minimum and start of the ramp times the computed slope (t, beta, sigma) and the exact
   * balance and minimum times the exact slope (t0, beta0); k is M - m.
   */
  datatype Scaled = Scaled(k: real, t: real, beta: real, sigma: real, t0: real, beta0: real)

  ghost predicate NearStart(sigma: real, beta: real, k: real) {
    Near(sigma, beta + k, 2.0)
  }

  ghost predicate IsScaled(s: Scaled) {
    && Near(s.t, s.t0, 9.0) && Near(s.beta, s.beta0, 9.0) && NearStart(s.sigma, s.beta, s.k)
    && 0.0 <= s.k <= 255.0 && s.beta0 + s.k <= 262144.0
  }

  /** Bounds when the middle branch is taken. */
  lemma ScaledBounds(s: Scaled)
    requires IsScaled(s) && s.beta <= s.t <= s.sigma
    ensures 0.0 <= s.k && 0.0 <= s.beta && s.t <= 262146.0 && s.t - s.beta <= s.k + 0.032
    ensures Abs(s.t - s.t0) <= 0.142 && Abs(s.beta - s.beta0) <= 0.142
  {
  }

  /** On the outer branches the exact line is within a half of the constant returned, or beyond it. */
  lemma OuterScaled(s: Scaled)
    requires IsScaled(s)
    ensures s.t >= s.sigma ==> s.t0 - s.beta0 >= s.k - 0.5
    ensures s.t <= s.beta ==> s.t0 - s.beta0 <= 0.5
  {
  }

  /** The rounded operations of the middle branch, together. */
  lemma MiddleError(t: real, beta: real, bigM: real, prod: real, ab: real, bigB: real, sum: real)
    requires 0.0 <= beta <= t <= 262146.0 && t - beta <= bigM + 0.032 && bigM <= 255.0
    requires ProductError(prod, t) && ProductError(ab, beta)
    requires Rounded(bigB, bigM - ab) && Rounded(sum, prod + bigB)
    ensures Abs(sum - (bigM - (t - beta))) <= 0.115
  {
    assert Abs(prod + t) <= 0.047 && Abs(ab + beta) <= 0.047;
    assert Abs(bigM - ab) <= 262402.0;
    assert Abs(bigB - (bigM + beta)) <= 0.063;
  }

  lemma MiddleScaled(s: Scaled, bigM: real, prod: real, ab: real, bigB: real, sum: real)
    requires IsScaled(s) && s.beta <= s.t <= s.sigma && s.k <= bigM <= 255.0
    requires ProductError(prod, s.t) && ProductError(ab, s.beta)
    requires Rounded(bigB, bigM - ab) && Rounded(sum, prod + bigB)
    ensures bigM - s.k - 0.5 < sum < bigM + 0.5 && Abs(sum - (bigM - (s.t0 - s.beta0))) <= 0.4
  {
    hide Near, NearStart, IsScaled, ProductError, Rounded;
    ScaledBounds(s);
    MiddleError(s.t, s.beta, bigM, prod, ab, bigB, sum);
  }
}
