/** Which configurations are accepted, under any binary32 rounding, and the examples the source fixes. */
module DifficultyAccepted {
  import opened Bytes
  import opened Difficulty
  import opened DifficultyRounding
  import opened DifficultyBounds

  function ValueOf(x: F32): real { if x.Finite? then x.v else 0.0 }

  predicate SoundInputs(maxDiff: Byte, minDiff: Byte, perClaim: U64, coeff: F32) {
    minDiff <= maxDiff && perClaim > 0 && !NotPositive(coeff)
  }

  lemma SmallQuotient(d: real, lq: real)
    requires 0.0 <= d <= 255.0 && lq >= EPSILON
    ensures -2139095040.0 <= -d / lq <= 0.0
  {
    var a := -d / lq;
    DivMul(-d, lq);
    assert a < -2139095040.0 ==> a * lq < -2139095040.0 * EPSILON;
    assert a > 0.0 ==> a * lq > 0.0;
  }

  const TWO_32 := 4294967296.0

  lemma ProductBelow(a: real, b: real)
    requires a <= TWO_32 && 0.0 <= b <= TWO_65
    ensures Mul(a, b) <= TWO_32 * TWO_65
  {
    MulLe(a, TWO_32, b);
    assert Mul(a, b) <= TWO_32 * b;
  }

  lemma NegatedProduct(a: real, b: real)
    ensures Mul(-a, b) == -Mul(a, b)
  {
  }

  lemma SmallProduct(a: real, b: real)
    requires -TWO_32 <= a <= TWO_32 && 0.0 <= b <= TWO_65
    ensures -TWO_32 * TWO_65 <= Mul(a, b) <= TWO_32 * TWO_65
  {
    hide Mul;
    ProductBelow(a, b);
    ProductBelow(-a, b);
    NegatedProduct(a, b);
  }

  /** A rounded value is at most twice the bound on what is rounded. */
  lemma RoundedBound(rnd: Rounding, x: real, bound: real)
    requires IsBinary32Rounding(rnd) && bound >= 1.0 && -bound <= x <= bound
    ensures -2.0 * bound <= rnd(x) <= 2.0 * bound
  {
    assert Rounded(rnd(x), x);
  }

  /** The quotient, the product and the intercept computed after the division guard are all finite. */
  lemma LateChecksPass(rnd: Rounding, maxDiff: Byte, minDiff: Byte, b: U64, lq: real)
    requires IsBinary32Rounding(rnd) && minDiff <= maxDiff && lq >= EPSILON
    ensures var a := Op(rnd, rnd(minDiff as real - maxDiff as real) / lq);
      && a.Finite?
      && var ab := Op(rnd, Mul(a.v, rnd(b as real)));
      && ab.Finite? && Op(rnd, maxDiff as real - ab.v).Finite?
  {
    var d := maxDiff as real - minDiff as real;
    ExactDifference(rnd, minDiff, maxDiff);
    IntegerNear(rnd, b);
    hide IsBinary32Rounding, Mul, Near;
    SmallQuotient(d, lq);
    assert minDiff as real - maxDiff as real == -d;
    RoundedBound(rnd, -d / lq, 2139095040.0);
    var a := rnd(-d / lq);
    SmallProduct(a, rnd(b as real));
    RoundedBound(rnd, Mul(a, rnd(b as real)), TWO_32 * TWO_65);
    var ab := rnd(Mul(a, rnd(b as real)));
    RoundedBound(rnd, maxDiff as real - ab, 4.0 * TWO_32 * TWO_65);
  }

  /**
   * A configuration is accepted exactly when its inputs are sound, the computed L * q is 2^-23 or more, and it and
   * b + L * q do not overflow; of the three overflow checks after those none can fail.
   */
  lemma AcceptedIff(rnd: Rounding, maxDiff: Byte, minDiff: Byte, b: U64, q: U64, coeff: F32)
    requires IsBinary32Rounding(rnd)
    ensures var r, lq := New(rnd, maxDiff, minDiff, b, q, coeff), rnd(Mul(ValueOf(coeff), rnd(q as real)));
      var start := rnd(rnd(b as real) + lq);
      && (r.Success? <==>
            SoundInputs(maxDiff, minDiff, q, coeff) && coeff.Finite? && EPSILON <= lq <= MAX_F32 && start <= MAX_F32)
      && (r == Failure(InvalidCalculation) <==>
            SoundInputs(maxDiff, minDiff, q, coeff) && coeff.Finite? && lq < EPSILON && start <= MAX_F32)
      && (r == Failure(ArithmeticOverflow) <==>
            SoundInputs(maxDiff, minDiff, q, coeff) && (coeff.Finite? ==> lq > MAX_F32 || start > MAX_F32))
  {
    if SoundInputs(maxDiff, minDiff, q, coeff) && coeff.Finite? {
      var lq := rnd(Mul(coeff.v, rnd(q as real)));
      NotNegative(rnd, b, q, coeff.v);
      if lq >= EPSILON { LateChecksPass(rnd, maxDiff, minDiff, b, lq); }
    }
    hide Mul, IsBinary32Rounding;
  }

  lemma NotNegative(rnd: Rounding, b: U64, q: U64, coeff: real)
    requires IsBinary32Rounding(rnd) && coeff > 0.0
    ensures rnd(Mul(coeff, rnd(q as real))) >= 0.0 && rnd(rnd(b as real) + rnd(Mul(coeff, rnd(q as real)))) >= 0.0
  {
    hide IsBinary32Rounding, Rounded, Mul;
    RoundError(rnd, q as real);
    RoundError(rnd, b as real);
    assert Mul(coeff, rnd(q as real)) >= 0.0 by { NonNegativeMul(coeff, rnd(q as real)); }
    RoundError(rnd, Mul(coeff, rnd(q as real)));
    RoundError(rnd, rnd(b as real) + rnd(Mul(coeff, rnd(q as real))));
  }

  lemma NonNegativeMul(a: real, b: real)
    requires a >= 0.0 && b >= 0.0
    ensures Mul(a, b) >= 0.0
  {
    NonNegativeProduct(a, b);
  }

  /** Exact arithmetic is one of the roundings. */
  lemma ExactIsARounding()
    ensures IsBinary32Rounding(Exact())
  {
    var rnd := Exact();
    forall x, y | InOrder(x, y) ensures rnd(x) <= rnd(y) {}
    forall x ensures Rounded(rnd(x), x) {}
  }

  /** The binary32 constants: the gap above 1, the largest finite number, half the least positive one. */
  lemma Constants()
    ensures EPSILON * Pow2(23) as real == 1.0 && TINY * Pow2(150) as real == 1.0
    ensures MAX_F32 == (Pow2(128) - Pow2(104)) as real
  {
    Powers();
    hide Pow2;
  }

  lemma PowerOfSum(a: nat, b: nat, n: nat, p: nat, q: nat)
    requires n == a + b && Pow2(a) == p && Pow2(b) == q
    ensures Pow2(n) == p * q
  {
    Pow2Add(a, b);
  }

  lemma SmallPowers()
    ensures Pow2(6) == 64 && Pow2(7) == 128 && Pow2(8) == 256
  {
  }

  lemma Powers()
    ensures Pow2(23) == 8_388_608 && Pow2(104) == 20_282_409_603_651_670_423_947_251_286_016
    ensures Pow2(128) == 340_282_366_920_938_463_463_374_607_431_768_211_456
    ensures Pow2(150) == 1_427_247_692_705_959_881_058_285_969_449_495_136_382_746_624
  {
    hide *;
    var p16, p32 := 0x1_0000, 0x1_0000_0000;
    SmallPowers();
    PowerOfSum(8, 8, 16, 256, 256);
    PowerOfSum(16, 7, 23, p16, 128);
    PowerOfSum(16, 16, 32, p16, p16);
    PowerOfSum(32, 32, 64, p32, p32);
    PowerOfSum(64, 32, 96, p32 * p32, p32);
    PowerOfSum(96, 8, 104, p32 * p32 * p32, 256);
    PowerOfSum(64, 64, 128, p32 * p32, p32 * p32);
    PowerOfSum(128, 16, 144, p32 * p32 * p32 * p32, p16);
    PowerOfSum(144, 6, 150, p32 * p32 * p32 * p32 * p16, 64);
  }

  // ---------- the examples of the source, over exact reals ----------

  /** A configuration with b = 0, or with M = m, and its gradient. */
  function Example(maxDiff: Byte, minDiff: Byte, b: real, lq: real, bigA: real, bigB: real): Config {
    Config(maxDiff, minDiff, b, b + lq, bigA, bigB)
  }

  lemma AcceptedExamples()
    ensures New(Exact(), 255, 20, 0, 10_000, Finite(10.0)) == Success(Example(255, 20, 0.0, 100_000.0, -0.00235, 255.0))
    ensures New(Exact(), 255, 20, 5000, 10_000, Finite(10.0))
      == Success(Example(255, 20, 5000.0, 100_000.0, -0.00235, 266.75))
    ensures New(Exact(), 255, 17, 0, 5000, Finite(25.0)) == Success(Example(255, 17, 0.0, 125_000.0, -0.001904, 255.0))
    ensures New(Exact(), 100, 100, 0, 10_000, Finite(10.0)) == Success(Example(100, 100, 0.0, 100_000.0, 0.0, 100.0))
    ensures New(Exact(), 255, 20, 1_000_000, 100_000, Finite(50.0))
      == Success(Example(255, 20, 1_000_000.0, 5_000_000.0, -0.000047, 302.0))
  {
  }

  lemma RefusedExamples()
    ensures New(Exact(), 10, 20, 0, 10_000, Finite(10.0)) == Failure(MaxDiffMustBeGreaterThanMinDiff)
    ensures New(Exact(), 255, 20, 0, 0, Finite(10.0)) == Failure(PerClaimMustBeGreaterThanZero)
    ensures New(Exact(), 255, 20, 0, 10_000, Finite(-1.0))
      == Failure(DifficultyIncreaseCoefficientMustBeGreaterThanZero)
    ensures New(Exact(), 255, 20, 0, 1, Finite(EPSILON / 10.0)) == Failure(InvalidCalculation)
    ensures New(Exact(), 255, 20, U64_MAX, U64_MAX, Finite(MAX_F32)) == Failure(ArithmeticOverflow)
  {
  }

  lemma CalculatedExamples()
    ensures var c := Example(255, 20, 0.0, 100_000.0, -0.00235, 255.0);
      && Calculate(Exact(), c, 0) == 255 && Calculate(Exact(), c, 99_999) == 20 && Calculate(Exact(), c, 1) > 20
      && Calculate(Exact(), c, 100_000) == 20 && Calculate(Exact(), c, 150_000) == 20
      && Calculate(Exact(), c, 1_000_000) == 20
      && Calculate(Exact(), c, 25_000) > Calculate(Exact(), c, 50_000) > Calculate(Exact(), c, 75_000)
      && Calculate(Exact(), c, 50_000) == 138
    ensures var c := Example(255, 20, 5000.0, 100_000.0, -0.00235, 266.75);
      Calculate(Exact(), c, 0) == 255 && Calculate(Exact(), c, 5000) == 255 && Calculate(Exact(), c, 4999) == 255
    ensures var c := Example(255, 17, 0.0, 125_000.0, -0.001904, 255.0);
      Calculate(Exact(), c, 200_000) == 17 && Calculate(Exact(), c, 0) == 255
    ensures var c := Example(100, 100, 0.0, 100_000.0, 0.0, 100.0);
      Calculate(Exact(), c, 0) == 100 && Calculate(Exact(), c, 50_000) == 100 && Calculate(Exact(), c, 100_000) == 100
    ensures var c := Example(255, 20, 1_000_000.0, 5_000_000.0, -0.000047, 302.0);
      && Calculate(Exact(), c, 10_000_000) == 20 && Calculate(Exact(), c, 500_000) == 255
      && 20 < Calculate(Exact(), c, 3_500_000) < 255
  {
  }
}
