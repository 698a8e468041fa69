/** The binary32 difficulty lies in [m, M], never rises with the balance, and is within 1 of the documented value. */
module DifficultyBounds {
  import opened Bytes
  import opened Difficulty
  import opened DifficultyRounding

  /** One evaluation: exact inputs, their roundings, and the fields of the configuration. */
  datatype Run = Run(coeff: real, b: real, q: real, x: real, qf: real, bf: real, xf: real,
                     p: real, start: real, bigA: real, bigB: real, bigM: real, m: real)

  ghost predicate InRange(r: Run) {
    r.coeff > 0.0 && r.q > 0.0 && 0.0 <= r.m <= r.bigM <= 255.0
  }

  ghost predicate Computed(rnd: Rounding, r: Run) {
    && InRange(r)
    && IsBalance(r.qf, r.q) && IsBalance(r.bf, r.b) && IsBalance(r.xf, r.x)
    && r.p == rnd(Mul(r.coeff, r.qf)) && Abs(r.p) >= EPSILON
    && r.start == rnd(r.bf + r.p)
    && r.bigA == rnd((r.m - r.bigM) / r.p)
    && r.bigB == rnd(r.bigM - rnd(Mul(r.bigA, r.bf)))
  }

  /** The value rounded to an integer in the middle branch. */
  function Middle(rnd: Rounding, r: Run): real {
    rnd(rnd(Mul(r.bigA, r.xf)) + r.bigB)
  }

  function Lq(r: Run): real { r.coeff * r.q }

  ghost predicate PositiveLq(r: Run) { r.p >= EPSILON && Lq(r) > 0.0 }

  /** The minimum balance is not so large, against Lq, that its rounding error moves the line by a difficulty step. */
  ghost predicate Gentle(bigM: real, m: real, b: real, lq: real) {
    lq > 0.0 && (bigM - m) * (b / lq + 1.0) <= 262144.0
  }

  // ---------- the slope ----------

  /** The gradient's magnitude: from the computed Lq, and exactly. */
  function Slope(r: Run): real { if r.p > 0.0 then (r.bigM - r.m) / r.p else 0.0 }
  function ExactSlope(r: Run): real { if Lq(r) > 0.0 then (r.bigM - r.m) / Lq(r) else 0.0 }

  lemma ProductNear(coeff: real, q: real, qf: real, r: real, p: real)
    requires coeff > 0.0 && q > 0.0 && Near(qf, q, 2.0) && r == coeff * qf
    requires Rounded(p, r) && Abs(p) >= EPSILON && (r >= 0.0 ==> p >= 0.0)
    ensures p >= EPSILON && coeff * q > 0.0 && Near(p, coeff * q, 5.0)
  {
    MulPositive(coeff, q);
    ExactlyNear(coeff);
    ApproxMul(coeff, coeff, 0.0, qf, q, 2.0 / 16777216.0, 2.0 / 16777216.0);
    NearIsPositive(r, coeff * q);
    RoundedNear(p, r);
    ApproxTrans(p, r, coeff * q, 2.0 / 16777216.0, 2.0 / 16777216.0, 5.0 / 16777216.0);
  }

  lemma NearIsPositive(v: real, w: real)
    requires Near(v, w, 2.0)
    ensures v >= 0.0
  {
  }

  lemma LqNear(rnd: Rounding, r: Run)
    requires IsBinary32Rounding(rnd) && Computed(rnd, r)
    ensures PositiveLq(r) && Near(r.p, Lq(r), 5.0)
  {
    RoundError(rnd, Mul(r.coeff, r.qf));
    hide IsBinary32Rounding, Rounded, Near;
    ProductNear(r.coeff, r.q, r.qf, r.coeff * r.qf, r.p);
  }

  lemma SlopesNear(rnd: Rounding, r: Run)
    requires IsBinary32Rounding(rnd) && Computed(rnd, r)
    ensures Near(Slope(r), ExactSlope(r), 6.0)
  {
    LqNear(rnd, r);
    ApproxDiv(r.bigM - r.m, r.p, Lq(r), 5.0 / 16777216.0, 6.0 / 16777216.0);
  }

  lemma ProductsNear(a: real, a0: real, v: real, w: real)
    requires Near(a, a0, 6.0) && Near(v, w, 2.0)
    ensures Near(Mul(a, v), Mul(a0, w), 9.0)
  {
    ApproxMul(a, a0, 6.0 / 16777216.0, v, w, 2.0 / 16777216.0, 9.0 / 16777216.0);
  }

  lemma StartNear(rnd: Rounding, r: Run)
    requires IsBinary32Rounding(rnd) && Computed(rnd, r) && PositiveLq(r)
    ensures NearStart(Mul(Slope(r), r.start), Mul(Slope(r), r.bf), r.bigM - r.m)
  {
    assert Slope(r) >= 0.0 && Slope(r) * r.p == r.bigM - r.m by {
      QuotientSign(r.bigM - r.m, r.p);
      DivMul(r.bigM - r.m, r.p);
    }
    hide Slope, IsBinary32Rounding, Near, Rounded;
    RoundError(rnd, r.bf + r.p);
    RoundedNear(r.start, r.bf + r.p);
    StartProduct(Slope(r), r.start, r.bf, r.p, r.bigM - r.m);
  }

  lemma StartProduct(a: real, start: real, bf: real, p: real, k: real)
    requires a >= 0.0 && Near(start, bf + p, 2.0) && a * p == k
    ensures NearStart(Mul(a, start), Mul(a, bf), k)
  {
    ExactlyNear(a);
    ApproxMul(a, a, 0.0, start, bf + p, 2.0 / 16777216.0, 2.0 / 16777216.0);
    Distribute(a, bf, p);
  }

  lemma QuotientOfNegation(k: real, p: real)
    requires p > 0.0
    ensures -k / p == -(k / p)
  {
  }

  ghost predicate GradientError(r: Run) {
    Rounded(r.bigA, -Slope(r)) && Slope(r) >= 0.0 && r.bigA <= 0.0
  }

  lemma GradientRounded(rnd: Rounding, r: Run)
    requires IsBinary32Rounding(rnd) && Computed(rnd, r) && PositiveLq(r)
    ensures GradientError(r)
  {
    QuotientOfNegation(r.bigM - r.m, r.p);
    assert r.m - r.bigM == -(r.bigM - r.m);
    QuotientSign(r.bigM - r.m, r.p);
    RoundError(rnd, -Slope(r));
  }

  // ---------- scaling by the slope ----------

  function ScaledOf(r: Run): Scaled {
    Scaled(r.bigM - r.m, Mul(Slope(r), r.xf), Mul(Slope(r), r.bf), Mul(Slope(r), r.start),
           Mul(ExactSlope(r), r.x), Mul(ExactSlope(r), r.b))
  }

  lemma GentleScaled(k: real, b: real, p0: real)
    requires p0 > 0.0
    ensures k * (b / p0 + 1.0) == k / p0 * b + k
  {
    DivMul(b, p0);
    DivMul(k, p0);
    Distribute(k, b / p0, 1.0);
    var c := b / p0;
    assert b == c * p0;
    assert k / p0 * (c * p0) == (k / p0 * p0) * c;
  }

  ghost predicate ExactlyGentle(r: Run) {
    Mul(ExactSlope(r), r.b) + (r.bigM - r.m) <= 262144.0
  }

  lemma GentleIsScaled(r: Run)
    requires Gentle(r.bigM, r.m, r.b, Lq(r))
    ensures ExactlyGentle(r)
  {
    GentleScaled(r.bigM - r.m, r.b, Lq(r));
  }

  lemma RunIsScaled(rnd: Rounding, r: Run)
    requires IsBinary32Rounding(rnd) && Computed(rnd, r) && Gentle(r.bigM, r.m, r.b, Lq(r))
    ensures IsScaled(ScaledOf(r)) && PositiveLq(r)
  {
    hide IsBinary32Rounding, Near, NearStart, Mul, Slope, ExactSlope, Gentle, Computed;
    Unpack(rnd, r);
    LqNear(rnd, r);
    SlopesNear(rnd, r);
    ProductsNear(Slope(r), ExactSlope(r), r.xf, r.x);
    ProductsNear(Slope(r), ExactSlope(r), r.bf, r.b);
    StartNear(rnd, r);
    GentleIsScaled(r);
  }

  lemma Unpack(rnd: Rounding, r: Run)
    requires Computed(rnd, r)
    ensures InRange(r) && Near(r.xf, r.x, 2.0) && Near(r.bf, r.b, 2.0)
    ensures 0.0 <= r.xf <= TWO_65 && 0.0 <= r.bf <= TWO_65
  {
    hide Near;
  }

  ghost predicate OrderKept(r: Run) {
    && (r.bf <= r.xf ==> ScaledOf(r).beta <= ScaledOf(r).t) && (r.xf <= r.bf ==> ScaledOf(r).t <= ScaledOf(r).beta)
    && (r.xf <= r.start ==> ScaledOf(r).t <= ScaledOf(r).sigma)
    && (r.start <= r.xf ==> ScaledOf(r).sigma <= ScaledOf(r).t)
  }

  lemma OrderIsKept(r: Run)
    requires GradientError(r)
    ensures OrderKept(r)
  {
    var a := Slope(r);
    ScaleOrder(a, r.bf, r.xf);
    ScaleOrder(a, r.xf, r.bf);
    ScaleOrder(a, r.xf, r.start);
    ScaleOrder(a, r.start, r.xf);
  }

  lemma ScaleOrder(a: real, x: real, y: real)
    requires a >= 0.0
    ensures x <= y ==> Mul(a, x) <= Mul(a, y)
  {
    if x <= y { MulLe(x, y, a); }
  }

  /** The exact line in scaled quantities. */
  function Line(r: Run): real { if Lq(r) > 0.0 then Base(r.bigM, r.m, r.b, Lq(r), r.x) else 0.0 }

  lemma LineIsScaled(r: Run)
    requires PositiveLq(r)
    ensures Line(r) == r.bigM - (ScaledOf(r).t0 - ScaledOf(r).beta0)
  {
    QuotientOfNegation(r.bigM - r.m, Lq(r));
    assert r.m - r.bigM == -(r.bigM - r.m);
    Distribute(ExactSlope(r), r.x, -r.b);
  }

  // ---------- the three branches ----------

  lemma MiddleProducts(rnd: Rounding, r: Run)
    requires IsBinary32Rounding(rnd) && GradientError(r) && 0.0 <= r.xf <= TWO_65 && 0.0 <= r.bf <= TWO_65
    ensures ProductError(rnd(Mul(r.bigA, r.xf)), ScaledOf(r).t)
    ensures ProductError(rnd(Mul(r.bigA, r.bf)), ScaledOf(r).beta)
  {
    hide Slope, ExactSlope, IsBinary32Rounding, Rounded, ProductError, Mul;
    RoundError(rnd, Mul(r.bigA, r.xf));
    RoundError(rnd, Mul(r.bigA, r.bf));
    SlopeError(r.bigA, Slope(r), r.xf, rnd(Mul(r.bigA, r.xf)));
    SlopeError(r.bigA, Slope(r), r.bf, rnd(Mul(r.bigA, r.bf)));
  }

  lemma MiddleSums(rnd: Rounding, r: Run)
    requires IsBinary32Rounding(rnd) && Computed(rnd, r)
    ensures Rounded(r.bigB, r.bigM - rnd(Mul(r.bigA, r.bf)))
    ensures Rounded(Middle(rnd, r), rnd(Mul(r.bigA, r.xf)) + r.bigB)
  {
    hide IsBinary32Rounding, Rounded, Mul;
    RoundError(rnd, r.bigM - rnd(Mul(r.bigA, r.bf)));
    RoundError(rnd, rnd(Mul(r.bigA, r.xf)) + r.bigB);
  }

  ghost predicate MiddleClose(rnd: Rounding, r: Run) {
    r.m - 0.5 < Middle(rnd, r) < r.bigM + 0.5 && Abs(Middle(rnd, r) - Line(r)) <= 0.4
  }

  lemma MiddleFromScaled(r: Run, prod: real, ab: real, sum: real)
    requires IsScaled(ScaledOf(r)) && OrderKept(r) && InRange(r) && r.bf <= r.xf <= r.start
    requires ProductError(prod, ScaledOf(r).t) && ProductError(ab, ScaledOf(r).beta)
    requires Rounded(r.bigB, r.bigM - ab) && Rounded(sum, prod + r.bigB)
    ensures r.m - 0.5 < sum < r.bigM + 0.5
    ensures Abs(sum - (r.bigM - (ScaledOf(r).t0 - ScaledOf(r).beta0))) <= 0.4
  {
    hide Slope, ExactSlope, Rounded, ProductError, IsScaled;
    MiddleScaled(ScaledOf(r), r.bigM, prod, ab, r.bigB, sum);
  }

  /** In the middle branch the value before rounding is within 0.4 of the exact line and rounds into [m, M]. */
  lemma MiddleIsClose(rnd: Rounding, r: Run)
    requires IsBinary32Rounding(rnd) && Computed(rnd, r) && Gentle(r.bigM, r.m, r.b, Lq(r))
    requires r.bf <= r.xf <= r.start
    ensures MiddleClose(rnd, r)
  {
    hide IsBinary32Rounding, Computed, Gentle, Near, IsScaled, Slope, ExactSlope, OrderKept, Rounded, ProductError;
    hide Mul, Lq;
    hide Middle, Line, GradientError;
    RunIsScaled(rnd, r);
    GradientRounded(rnd, r);
    OrderIsKept(r);
    Unpack(rnd, r);
    MiddleProducts(rnd, r);
    MiddleSums(rnd, r);
    MiddleFromScaled(r, rnd(Mul(r.bigA, r.xf)), rnd(Mul(r.bigA, r.bf)), Middle(rnd, r));
    LineIsScaled(r);
  }

  ghost predicate OuterClose(r: Run) {
    && (r.start <= r.xf ==> Line(r) <= r.m + 0.5)
    && (r.xf <= r.bf ==> Line(r) >= r.bigM - 0.5)
  }

  /** On the outer branches the exact line is within a half of the constant returned, or beyond it. */
  lemma OuterIsClose(rnd: Rounding, r: Run)
    requires IsBinary32Rounding(rnd) && Computed(rnd, r) && Gentle(r.bigM, r.m, r.b, Lq(r))
    ensures OuterClose(r)
  {
    hide IsBinary32Rounding, Computed, Gentle, Near, IsScaled, Slope, ExactSlope, Rounded, Mul, Lq, Line, GradientError;
    RunIsScaled(rnd, r);
    GradientRounded(rnd, r);
    OrderIsKept(r);
    OuterScaled(ScaledOf(r));
    LineIsScaled(r);
  }

  // ---------- the theorems ----------

  function RunOf(rnd: Rounding, config: Config, b: U64, q: U64, coeff: real, x: U64): Run {
    Run(coeff, b as real, q as real, x as real,
        rnd(q as real), config.b, rnd(x as real), rnd(Mul(coeff, rnd(q as real))),
        config.minDiffStart, config.bigA, config.bigB, config.bigM as real, config.m as real)
  }

  lemma RunIsComputed(rnd: Rounding, maxDiff: Byte, minDiff: Byte, b: U64, q: U64, coeff: F32, config: Config, x: U64)
    requires IsBinary32Rounding(rnd)
    requires New(rnd, maxDiff, minDiff, b, q, coeff) == Success(config)
    ensures Computed(rnd, RunOf(rnd, config, b, q, coeff.v, x))
    ensures config.bigM == maxDiff && config.m == minDiff
  {
    hide New, IsBinary32Rounding, IsBalance, Mul;
    Fields(rnd, maxDiff, minDiff, b, q, coeff, config);
    IntegerNear(rnd, b);
    IntegerNear(rnd, q);
    IntegerNear(rnd, x);
    var d := minDiff as real - maxDiff as real;
    ExactDifference(rnd, minDiff, maxDiff);
    var r := RunOf(rnd, config, b, q, coeff.v, x);
    assert r.m - r.bigM == d;
    assert r.bigA == rnd(rnd(d) / r.p);
  }

  lemma ExactDifference(rnd: Rounding, m: Byte, n: Byte)
    requires IsBinary32Rounding(rnd)
    ensures rnd(m as real - n as real) == m as real - n as real
  {
    assert m as real - n as real == (m - n) as real;
    assert SmallInteger(m as real - n as real);
  }

  /** Rounding a value near the line, against rounding the clamped line. */
  lemma CloseRound(m: int, bigM: int, y: real, line: real)
    requires 0 <= m <= bigM
    requires m as real - 0.5 < y < bigM as real + 0.5 && Abs(y - line) <= 0.4
    ensures m <= Round(y) <= bigM
    ensures -1 <= Round(y) - Round(Clamp(m as real, bigM as real, line)) <= 1
  {
    var c := Clamp(m as real, bigM as real, line);
    RoundInRange(m, bigM, y);
    RoundInRange(m, bigM, c);
    if y >= 0.0 {
      RoundShift(y, c, 1);
    }
    RoundShift(c, y, 1);
  }

  lemma OuterRound(m: int, bigM: int, line: real)
    requires 0 <= m <= bigM
    ensures line <= m as real + 0.5 ==> m <= Round(Clamp(m as real, bigM as real, line)) <= m + 1
    ensures line >= bigM as real - 0.5 ==> bigM - 1 <= Round(Clamp(m as real, bigM as real, line)) <= bigM
  {
    RoundInRange(m, bigM, Clamp(m as real, bigM as real, line));
  }

  /** Range and distance from the documented value, for one balance. */
  lemma RoundedDifficulty(rnd: Rounding, maxDiff: Byte, minDiff: Byte, b: U64, q: U64, coeff: F32, config: Config,
                          x: U64)
    requires IsBinary32Rounding(rnd)
    requires New(rnd, maxDiff, minDiff, b, q, coeff) == Success(config)
    requires Gentle(maxDiff as real, minDiff as real, b as real, coeff.v * q as real)
    ensures minDiff <= Calculate(rnd, config, x) <= maxDiff
    ensures -1 <= Calculate(rnd, config, x) - Documented(maxDiff, minDiff, b, coeff.v * q as real, x) <= 1
  {
    hide IsBinary32Rounding, Gentle, Computed, Base, Clamp, Round, Mul, New;
    var r := RunOf(rnd, config, b, q, coeff.v, x);
    RunIsComputed(rnd, maxDiff, minDiff, b, q, coeff, config, x);
    assert coeff.v * q as real == Lq(r);
    OuterIsClose(rnd, r);
    OuterRound(minDiff, maxDiff, Line(r));
    if r.bf <= r.xf <= r.start {
      MiddleIsClose(rnd, r);
      CloseRound(minDiff, maxDiff, Middle(rnd, r), Line(r));
    }
  }

  lemma GradientIsNegative(rnd: Rounding, maxDiff: Byte, minDiff: Byte, b: U64, q: U64, coeff: F32, config: Config,
                           x: U64)
    requires IsBinary32Rounding(rnd)
    requires New(rnd, maxDiff, minDiff, b, q, coeff) == Success(config)
    ensures config.bigA <= 0.0
  {
    hide IsBinary32Rounding, Computed, PositiveLq, Slope, Rounded, New;
    RunIsComputed(rnd, maxDiff, minDiff, b, q, coeff, config, x);
    LqNear(rnd, RunOf(rnd, config, b, q, coeff.v, x));
    GradientRounded(rnd, RunOf(rnd, config, b, q, coeff.v, x));
  }

  lemma MiddleNeverRises(rnd: Rounding, bigA: real, bigB: real, x: real, y: real)
    requires IsBinary32Rounding(rnd) && bigA <= 0.0 && x <= y
    ensures ToU8(Round(rnd(rnd(Mul(bigA, y)) + bigB))) <= ToU8(Round(rnd(rnd(Mul(bigA, x)) + bigB)))
  {
    hide IsBinary32Rounding, Round;
    MulLe(x, y, -bigA);
    RoundMonotone32(rnd, Mul(bigA, y), Mul(bigA, x));
    RoundMonotone32(rnd, rnd(Mul(bigA, y)) + bigB, rnd(Mul(bigA, x)) + bigB);
    RoundMonotone(rnd(rnd(Mul(bigA, y)) + bigB), rnd(rnd(Mul(bigA, x)) + bigB));
  }

  /** Without a minimum balance no further condition is needed: M - m is at most 255. */
  lemma ZeroMinimumIsGentle(maxDiff: Byte, minDiff: Byte, lq: real)
    requires lq > 0.0
    ensures Gentle(maxDiff as real, minDiff as real, 0.0, lq)
  {
    assert 0.0 / lq == 0.0;
  }

  // ---------- the ramp, over exact reals ----------

  /** The least integer not below `y`. */
  function Ceil(y: real): int { -(-y).Floor }

  /** The balances seen while successive claims are paid. */
  ghost predicate ClaimRun(balances: seq<U64>, q: U64) {
    forall i :: 0 < i < |balances| ==> balances[i] == balances[i - 1] - q
  }

  lemma {:induction false} BalanceAfter(balances: seq<U64>, q: U64, k: nat)
    requires ClaimRun(balances, q) && k < |balances|
    ensures balances[k] == balances[0] - k * q
  {
    if k == 0 {
    } else {
      BalanceAfter(balances, q, k - 1);
    }
  }

  /** How far k claims raise the exact line: k(M - m) / L. */
  function Rise(k: real, span: real, coeff: real): real
    requires coeff > 0.0
  {
    k * span / coeff
  }

  lemma LineAfterClaims(bigM: real, m: real, b: real, coeff: real, q: real, lq: real, x: real, k: real, y: real)
    requires coeff > 0.0 && q > 0.0 && lq == coeff * q && y == x - k * q
    ensures lq > 0.0
    ensures Base(bigM, m, b, lq, y) == Base(bigM, m, b, lq, x) + Rise(k, bigM - m, coeff)
  {
    MulPositive(coeff, q);
    var a := (m - bigM) / lq;
    DivMul(m - bigM, lq);
    Assoc(a, coeff, q);
    assert (a * q) * coeff == m - bigM;
    assert a * q == (m - bigM) / coeff;
    assert a * (y - b) == a * (x - b) - k * (a * q);
    assert k * (bigM - m) / coeff == -(k * ((m - bigM) / coeff));
  }

  /** How far k claims raise the documented difficulty. */
  lemma DocumentedRamp(maxDiff: Byte, minDiff: Byte, b: U64, q: U64, coeff: real, lq: real, balances: seq<U64>, k: nat)
    requires coeff > 0.0 && q > 0 && minDiff <= maxDiff && ClaimRun(balances, q) && k < |balances|
    requires lq > 0.0 && lq == coeff * q as real
    ensures Documented(maxDiff, minDiff, b, lq, balances[k])
      <= Documented(maxDiff, minDiff, b, lq, balances[0])
         + Ceil(Rise(k as real, maxDiff as real - minDiff as real, coeff))
  {
    hide Round, Base, Clamp, Ceil, ClaimRun, Rise;
    var x, y := balances[0], balances[k];
    var bigM, m := maxDiff as real, minDiff as real;
    BalanceAfter(balances, q, k);
    assert y as real == x as real - k as real * q as real;
    LineAfterClaims(bigM, m, b as real, coeff, q as real, lq, x as real, k as real, y as real);
    RiseIsNonNegative(k as real, bigM - m, coeff);
    var before, after := Base(bigM, m, b as real, lq, x as real), Base(bigM, m, b as real, lq, y as real);
    ClampShift(minDiff, maxDiff, before, after, Rise(k as real, bigM - m, coeff));
  }

  lemma PositiveInputs(rnd: Rounding, maxDiff: Byte, minDiff: Byte, b: U64, q: U64, coeff: F32, config: Config)
    requires New(rnd, maxDiff, minDiff, b, q, coeff) == Success(config)
    ensures coeff.v > 0.0 && q > 0 && minDiff <= maxDiff && Mul(coeff.v, q as real) > 0.0
  {
    MulPositive(coeff.v, q as real);
  }

  /** The documented difficulty of a faucet with b + Lq or more is the minimum. */
  lemma DocumentedMinimum(maxDiff: Byte, minDiff: Byte, b: U64, lq: real, x: U64)
    requires lq > 0.0 && minDiff <= maxDiff && x as real >= b as real + lq
    ensures Documented(maxDiff, minDiff, b, lq, x) == minDiff
  {
    ExactBranches(maxDiff as real, minDiff as real, b as real, lq, x as real);
    hide Base, Round, Clamp;
    RoundedMinimum(minDiff, maxDiff, Base(maxDiff as real, minDiff as real, b as real, lq, x as real));
  }

  /**
   * Along a run of claims that each lower the balance by q, k claims raise the difficulty by at most
   * ceil(k(M - m) / L); so a faucet above b + Lq cannot reach the maximum before that bound is M - m.
   */
  lemma Ramp(maxDiff: Byte, minDiff: Byte, b: U64, q: U64, coeff: F32, config: Config, balances: seq<U64>, k: nat)
    requires New(Exact(), maxDiff, minDiff, b, q, coeff) == Success(config)
    requires ClaimRun(balances, q) && k < |balances|
    ensures var rise := Ceil(Rise(k as real, maxDiff as real - minDiff as real, coeff.v));
      && Calculate(Exact(), config, balances[k]) <= Calculate(Exact(), config, balances[0]) + rise
      && (balances[0] as real >= b as real + coeff.v * q as real && Calculate(Exact(), config, balances[k]) == maxDiff
          ==> rise >= maxDiff - minDiff)
  {
    hide New, Calculate, Documented, Ceil, ClaimRun, Rise, Mul;
    var lq := coeff.v * q as real;
    FastFormIsDocumentedLine(maxDiff, minDiff, b, q, coeff, config, balances[0]);
    FastFormIsDocumentedLine(maxDiff, minDiff, b, q, coeff, config, balances[k]);
    PositiveInputs(Exact(), maxDiff, minDiff, b, q, coeff, config);
    DocumentedRamp(maxDiff, minDiff, b, q, coeff.v, lq, balances, k);
    if balances[0] as real >= b as real + lq { DocumentedMinimum(maxDiff, minDiff, b, lq, balances[0]); }
  }

  /** The same ramp as binary32 computes it: rounding adds at most one at either end. */
  lemma RoundedRamp(rnd: Rounding, maxDiff: Byte, minDiff: Byte, b: U64, q: U64, coeff: F32, config: Config,
                    balances: seq<U64>, k: nat)
    requires IsBinary32Rounding(rnd)
    requires New(rnd, maxDiff, minDiff, b, q, coeff) == Success(config)
    requires Gentle(maxDiff as real, minDiff as real, b as real, coeff.v * q as real)
    requires ClaimRun(balances, q) && k < |balances|
    ensures var rise := Ceil(Rise(k as real, maxDiff as real - minDiff as real, coeff.v));
      && Calculate(rnd, config, balances[k]) <= Calculate(rnd, config, balances[0]) + rise + 2
      && (balances[0] as real >= b as real + coeff.v * q as real && Calculate(rnd, config, balances[k]) == maxDiff
          ==> rise + 1 >= maxDiff - minDiff)
  {
    hide IsBinary32Rounding, New, Calculate, Documented, Ceil, ClaimRun, Rise, Gentle, Mul;
    var lq := coeff.v * q as real;
    PositiveInputs(rnd, maxDiff, minDiff, b, q, coeff, config);
    assert lq > 0.0 by { MulPositive(coeff.v, q as real); }
    RoundedDifficulty(rnd, maxDiff, minDiff, b, q, coeff, config, balances[0]);
    RoundedDifficulty(rnd, maxDiff, minDiff, b, q, coeff, config, balances[k]);
    DocumentedRamp(maxDiff, minDiff, b, q, coeff.v, lq, balances, k);
    if balances[0] as real >= b as real + lq { DocumentedMinimum(maxDiff, minDiff, b, lq, balances[0]); }
  }

  lemma RiseIsNonNegative(k: real, d: real, coeff: real)
    requires k >= 0.0 && d >= 0.0 && coeff > 0.0
    ensures Rise(k, d, coeff) >= 0.0
  {
    QuotientSign(k * d, coeff);
  }

  lemma ClampShift(m: Byte, bigM: Byte, before: real, after: real, c: real)
    requires m <= bigM && c >= 0.0 && after == before + c
    ensures Round(Clamp(m as real, bigM as real, after)) <= Round(Clamp(m as real, bigM as real, before)) + Ceil(c)
  {
    RoundShift(Clamp(m as real, bigM as real, before), Clamp(m as real, bigM as real, after), Ceil(c));
  }

  lemma RoundedMinimum(m: Byte, bigM: Byte, line: real)
    requires m <= bigM && line <= m as real
    ensures Round(Clamp(m as real, bigM as real, line)) == m
  {
  }

  // ---------- where the hypothesis fails ----------

  function Unit(e: int): real { if e >= 0 then Pow2(e) as real else 1.0 / Pow2(-e) as real }

  /** `k` units of 2^e is the one value with a 24-bit significand nearest to `x`, and no tie. */
  ghost predicate Nearest(x: real, k: int, e: int) {
    && -149 <= e <= 104 && -16777216 < k < 16777216
    && Abs(x) >= 8388608.0 * Unit(e) && Abs(x - k as real * Unit(e)) < Unit(e) / 2.0
  }

  /** Round-to-nearest on the normal range, ties left open. */
  ghost predicate RoundsToNearest(rnd: Rounding) {
    forall x, k, e {:trigger Nearest(x, k, e)} :: Nearest(x, k, e) ==> rnd(x) == k as real * Unit(e)
  }

  lemma Units()
    ensures Unit(3) == 8.0 && Unit(-21) == 1.0 / 2097152.0
  {
    Pow2Add(10, 11);
    assert Pow2(3) == 8 && Pow2(10) == 1024 && Pow2(11) == 2048;
  }

  lemma SmallIntegersAreExact(rnd: Rounding, n: int)
    requires IsBinary32Rounding(rnd) && -16777216 <= n <= 16777216
    ensures rnd(n as real) == n as real
  {
    assert SmallInteger(n as real);
  }

  lemma NearestValue(rnd: Rounding, x: real, k: int, e: int, v: real)
    requires RoundsToNearest(rnd) && Nearest(x, k, e) && v == k as real * Unit(e)
    ensures rnd(x) == v
  {
  }

  const FAILING := Config(64, 18, 13135042.0, 13135051.0, -10718777.0 / 2097152.0, 67134720.0)

  lemma FailingGradient(rnd: Rounding)
    requires RoundsToNearest(rnd)
    ensures rnd(-46.0 / 9.0) == FAILING.bigA
  {
    hide RoundsToNearest, Unit;
    Units();
    NearestValue(rnd, -46.0 / 9.0, -10718777, -21, FAILING.bigA);
  }

  lemma FailingProducts(rnd: Rounding)
    requires RoundsToNearest(rnd)
    ensures rnd(Mul(FAILING.bigA, 13135042.0)) == -67134656.0 && rnd(64.0 + 67134656.0) == FAILING.bigB
    ensures rnd(Mul(FAILING.bigA, 13135050.0)) == -67134704.0
  {
    hide RoundsToNearest, Unit;
    Units();
    NearestValue(rnd, Mul(FAILING.bigA, 13135042.0), -8391832, 3, -67134656.0);
    NearestValue(rnd, 64.0 + 67134656.0, 8391840, 3, 67134720.0);
    NearestValue(rnd, Mul(FAILING.bigA, 13135050.0), -8391838, 3, -67134704.0);
  }

  lemma FailingIntegers(rnd: Rounding)
    requires IsBinary32Rounding(rnd)
    ensures rnd(9.0) == 9.0 && rnd(Mul(1.0, 9.0)) == 9.0 && rnd(18.0 - 64.0) == -46.0 && rnd(16.0) == 16.0
    ensures rnd(13135042.0) == 13135042.0 && rnd(13135050.0) == 13135050.0 && rnd(13135051.0) == 13135051.0
  {
    hide IsBinary32Rounding;
    SmallIntegersAreExact(rnd, 9);
    SmallIntegersAreExact(rnd, 16);
    SmallIntegersAreExact(rnd, -46);
    SmallIntegersAreExact(rnd, 13135042);
    SmallIntegersAreExact(rnd, 13135050);
    SmallIntegersAreExact(rnd, 13135051);
  }

  /**
   * With a minimum balance that is not gentle the range is left and the difficulty rises with the balance: for
   * M = 64, m = 18, b = 13135042, L = 1 and q = 9, a balance of b + 8 gets 16, where the documented value is 23,
   * and one sat more gets 18.
   */
  lemma RangeFailsWithoutGentle(rnd: Rounding)
    requires IsBinary32Rounding(rnd) && RoundsToNearest(rnd)
    ensures New(rnd, 64, 18, 13135042, 9, Finite(1.0)) == Success(FAILING)
    ensures Calculate(rnd, FAILING, 13135050) == 16 && Calculate(rnd, FAILING, 13135051) == 18
    ensures Documented(64, 18, 13135042, 9.0, 13135050) == 23
    ensures !Gentle(64.0, 18.0, 13135042.0, 9.0)
  {
    FailingIntegers(rnd);
    FailingGradient(rnd);
    FailingProducts(rnd);
    hide IsBinary32Rounding, RoundsToNearest, Mul;
  }
}
