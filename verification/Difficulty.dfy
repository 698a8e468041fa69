/**
 * The balance-dependent difficulty. Every binary32 operation goes through a rounding function, so the
 * exact-real reading of the code is the instance whose rounding is the identity.
 */
module Difficulty {
  import opened Bytes

  // ---------- binary32 ----------

  datatype F32 = Finite(v: real) | PlusInfinity | MinusInfinity | NaN

  type Rounding = real -> real

  const MAX_F32 := 340282346638528859811704183484516925440.0
  /** Half the least subnormal, 2^-150. */
  const TINY := 1.0 / 1427247692705959881058285969449495136382746624.0
  /** f32::EPSILON, 2^-23. */
  const EPSILON := 1.0 / 8388608.0

  function Abs(x: real): (r: real) { if x < 0.0 then -x else x }

  /** The error of one rounding: unit roundoff 2^-24, or half the least subnormal. */
  ghost predicate Rounded(v: real, x: real) {
    Abs(v - x) <= Abs(x) / 16777216.0 + TINY
  }

  ghost predicate InOrder(x: real, y: real) { x <= y }

  ghost predicate SmallInteger(x: real) {
    x.Floor as real == x && Abs(x) <= 16777216.0
  }

  /** What round-to-nearest binary32 gives (IEEE 754-2019, section 4.3.1), before overflow is considered. */
  ghost predicate IsBinary32Rounding(rnd: Rounding) {
    && (forall x, y {:trigger InOrder(x, y)} :: InOrder(x, y) ==> rnd(x) <= rnd(y))
    && (forall x {:trigger Rounded(rnd(x), x)} :: Rounded(rnd(x), x))
    && (forall x {:trigger SmallInteger(x)} :: SmallInteger(x) ==> rnd(x) == x)
  }

  function Exact(): Rounding { x => x }

  /** One operation: round, and overflow to an infinity beyond the largest finite value. */
  function Op(rnd: Rounding, x: real): F32 {
    if rnd(x) > MAX_F32 then PlusInfinity else if rnd(x) < -MAX_F32 then MinusInfinity else Finite(rnd(x))
  }

  // ---------- the configuration ----------

  datatype Result<T, E> = Success(value: T) | Failure(error: E)

  datatype ConfigError =
    | MaxDiffMustBeGreaterThanMinDiff
    | PerClaimMustBeGreaterThanZero
    | DifficultyIncreaseCoefficientMustBeGreaterThanZero
    | ArithmeticOverflow
    | InvalidCalculation

  datatype Config = Config(bigM: Byte, m: Byte, b: real, minDiffStart: real, bigA: real, bigB: real)

  predicate NotPositive(x: F32) {
    x.MinusInfinity? || (x.Finite? && x.v <= 0.0)
  }

  function New(rnd: Rounding, maxDiff: Byte, minDiff: Byte, minBalance: U64, perClaim: U64, coeff: F32)
    : (r: Result<Config, ConfigError>)
    ensures r.Success? ==>
      r.value.bigM == maxDiff >= minDiff == r.value.m && perClaim > 0 && coeff.Finite? && coeff.v > 0.0
  {
    if maxDiff < minDiff then Failure(MaxDiffMustBeGreaterThanMinDiff)
    else if perClaim == 0 then Failure(PerClaimMustBeGreaterThanZero)
    else if NotPositive(coeff) then Failure(DifficultyIncreaseCoefficientMustBeGreaterThanZero)
    else if !coeff.Finite? then Failure(ArithmeticOverflow) // the product is infinite or NaN
    else
      var bigM, m := maxDiff as real, minDiff as real;
      var b, q := rnd(minBalance as real), rnd(perClaim as real);
      var lq := Op(rnd, Mul(coeff.v, q));
      if !lq.Finite? then Failure(ArithmeticOverflow) else
      var start := Op(rnd, b + lq.v);
      if !start.Finite? then Failure(ArithmeticOverflow) else
      if Abs(lq.v) < EPSILON then Failure(InvalidCalculation) else
      var bigA := Op(rnd, rnd(m - bigM) / lq.v);
      if !bigA.Finite? then Failure(ArithmeticOverflow) else
      var ab := Op(rnd, Mul(bigA.v, b));
      if !ab.Finite? then Failure(ArithmeticOverflow) else
      var bigB := Op(rnd, bigM - ab.v);
      if !bigB.Finite? then Failure(ArithmeticOverflow) else
      Success(Config(maxDiff, minDiff, b, start.v, bigA.v, bigB.v))
  }

  /**
   * Which refusal is given when several inputs are bad: the first in the order bounds, claim amount, coefficient; a
   * coefficient that is not finite and not minus infinity is found out by the overflow it causes.
   */
  lemma FirstBadInput(rnd: Rounding, maxDiff: Byte, minDiff: Byte, minBalance: U64, perClaim: U64, coeff: F32)
    ensures var r := New(rnd, maxDiff, minDiff, minBalance, perClaim, coeff);
      && (r == Failure(MaxDiffMustBeGreaterThanMinDiff) <==> maxDiff < minDiff)
      && (r == Failure(PerClaimMustBeGreaterThanZero) <==> maxDiff >= minDiff && perClaim == 0)
      && (r == Failure(DifficultyIncreaseCoefficientMustBeGreaterThanZero) <==>
            maxDiff >= minDiff && perClaim != 0 && (coeff == MinusInfinity || (coeff.Finite? && coeff.v <= 0.0)))
      && (maxDiff >= minDiff && perClaim != 0 && coeff in {PlusInfinity, NaN} ==> r == Failure(ArithmeticOverflow))
  {
    hide Mul, Abs;
  }

  function Mul(a: real, b: real): real { a * b }

  // ---------- the calculation ----------

  /** To the nearest integer, halves away from zero. */
  function Round(y: real): (n: int)
    ensures Abs(n as real - y) <= 0.5
  {
    if y >= 0.0 then (y + 0.5).Floor else -(-y + 0.5).Floor
  }

  function Distance(a: int, b: int): int { if a < b then b - a else a - b }

  /** The saturating cast to `u8`. */
  function ToU8(n: int): Byte {
    if n < 0 then 0 else if n > 255 then 255 else n
  }

  function Calculate(rnd: Rounding, config: Config, balance: U64): Byte {
    var x := rnd(balance as real);
    if x >= config.minDiffStart then config.m
    else if x <= config.b then config.bigM
    else ToU8(Round(rnd(rnd(Mul(config.bigA, x)) + config.bigB)))
  }

  // ---------- the documented line ----------

  function Base(bigM: real, m: real, b: real, lq: real, x: real): real
    requires lq > 0.0
  {
    (m - bigM) / lq * (x - b) + bigM
  }

  function Clamp(m: real, bigM: real, y: real): real {
    if (if y < bigM then y else bigM) > m then (if y < bigM then y else bigM) else m
  }

  /** round(max(m, min(M, base(x)))) */
  function Documented(bigM: Byte, m: Byte, b: U64, lq: real, x: U64): int
    requires lq > 0.0
  {
    Round(Clamp(m as real, bigM as real, Base(bigM as real, m as real, b as real, lq, x as real)))
  }

  lemma MulLe(a: real, b: real, c: real)
    requires a <= b && c >= 0.0
    ensures a * c <= b * c
  {
  }

  lemma NonNegativeProduct(a: real, b: real)
    requires 0.0 <= a && 0.0 <= b
    ensures 0.0 <= a * b
  {
  }

  lemma DivMul(a: real, b: real)
    requires b != 0.0
    ensures a / b * b == a
  {
  }

  lemma RoundMonotone(x: real, y: real)
    requires x <= y
    ensures Round(x) <= Round(y)
  {
  }

  /** Raising a non-negative argument by at most `n` raises the rounded value by at most `n`. */
  lemma RoundShift(x: real, y: real, n: int)
    requires 0.0 <= x && 0 <= n && y <= x + n as real
    ensures Round(y) <= Round(x) + n
  {
    RoundMonotone(y, x + n as real);
    assert (x + 0.5 + n as real).Floor == (x + 0.5).Floor + n;
  }

  /** How the fields of a constructed configuration were computed. */
  lemma Fields(rnd: Rounding, maxDiff: Byte, minDiff: Byte, minBalance: U64, perClaim: U64, coeff: F32, config: Config)
    requires New(rnd, maxDiff, minDiff, minBalance, perClaim, coeff) == Success(config)
    ensures
      var lq := rnd(Mul(coeff.v, rnd(perClaim as real)));
      && Abs(lq) >= EPSILON
      && config.bigM == maxDiff && config.m == minDiff
      && config.b == rnd(minBalance as real)
      && config.minDiffStart == rnd(config.b + lq)
      && config.bigA == rnd(rnd(minDiff as real - maxDiff as real) / lq)
      && config.bigB == rnd(maxDiff as real - rnd(Mul(config.bigA, config.b)))
  {
  }

  /** Over exact reals the three-branch, precomputed form is the documented clamped line, rounded. */
  lemma FastFormIsDocumentedLine(maxDiff: Byte, minDiff: Byte, b: U64, q: U64, coeff: F32, config: Config, x: U64)
    requires New(Exact(), maxDiff, minDiff, b, q, coeff) == Success(config)
    ensures coeff.v * q as real > 0.0
    ensures Calculate(Exact(), config, x) == Documented(maxDiff, minDiff, b, coeff.v * q as real, x)
  {
    var lq := coeff.v * q as real;
    MulPositive(coeff.v, q as real);
    ExactBranches(maxDiff as real, minDiff as real, b as real, lq, x as real);
    ExactMiddle(maxDiff, minDiff, b, q, coeff, config, x as real);
    ExactOuter(maxDiff, minDiff, b, q, coeff, config);
    hide New, Base, Round, ToU8, Mul;
    RoundInRange(minDiff, maxDiff, Clamp(minDiff as real, maxDiff as real,
      Base(maxDiff as real, minDiff as real, b as real, lq, x as real)));
    CastIsNearest(Round(Base(maxDiff as real, minDiff as real, b as real, lq, x as real)));
  }

  /** The cast gives the nearest byte. */
  lemma CastIsNearest(n: int)
    ensures 0 <= n <= 255 ==> ToU8(n) == n
    ensures forall b: Byte :: Distance(ToU8(n), n) <= Distance(b, n)
  {
  }

  lemma ExactOuter(maxDiff: Byte, minDiff: Byte, b: U64, q: U64, coeff: F32, config: Config)
    requires New(Exact(), maxDiff, minDiff, b, q, coeff) == Success(config)
    ensures config.b == b as real && config.minDiffStart == b as real + coeff.v * q as real
    ensures config.bigM == maxDiff && config.m == minDiff
  {
    Fields(Exact(), maxDiff, minDiff, b, q, coeff, config);
  }

  lemma ExactMiddle(maxDiff: Byte, minDiff: Byte, b: U64, q: U64, coeff: F32, config: Config, x: real)
    requires New(Exact(), maxDiff, minDiff, b, q, coeff) == Success(config)
    requires coeff.v * q as real > 0.0
    ensures Mul(config.bigA, x) + config.bigB
         == Base(maxDiff as real, minDiff as real, b as real, coeff.v * q as real, x)
  {
    Fields(Exact(), maxDiff, minDiff, b, q, coeff, config);
    hide New;
    ExactBranches(maxDiff as real, minDiff as real, b as real, coeff.v * q as real, x);
  }

  /** Rounding stays between integer bounds. */
  lemma RoundInRange(lo: int, hi: int, y: real)
    requires 0 <= lo && lo as real - 0.5 < y < hi as real + 0.5
    ensures lo <= Round(y) <= hi
  {
  }

  /** Where the unclamped line lies on each of the three branches. */
  lemma ExactBranches(bigM: real, m: real, b: real, lq: real, x: real)
    requires lq > 0.0 && m <= bigM
    ensures var a := (m - bigM) / lq; a * x + (bigM - a * b) == Base(bigM, m, b, lq, x)
    ensures x >= b + lq ==> Base(bigM, m, b, lq, x) <= m
    ensures x <= b ==> Base(bigM, m, b, lq, x) >= bigM
    ensures b <= x <= b + lq ==> m <= Base(bigM, m, b, lq, x) <= bigM
  {
    var a, d := (m - bigM) / lq, x - b;
    DivMul(m - bigM, lq);
    assert a <= 0.0;
    assert a * d == a * x - a * b;
    if x >= b + lq { MulLe(lq, d, -a); }
    if x <= b { MulLe(d, 0.0, -a); }
    if b <= x <= b + lq { MulLe(0.0, d, -a); MulLe(d, lq, -a); }
  }

  lemma MulPositive(a: real, b: real)
    requires a > 0.0 && b > 0.0
    ensures a * b > 0.0
  {
  }
}
