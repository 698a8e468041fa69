/** Round-to-nearest, ties to even (IEEE 754-2019, section 4.3.1), and that it is a rounding as assumed. */
module Binary32 {
  import opened Bytes
  import opened Difficulty
  import opened DifficultyBounds

  /** The nearest integer, ties to even. */
  function NearestInt(y: real): (n: int)
    requires y >= 0.0
    ensures Abs(n as real - y) <= 0.5
  {
    var f := y.Floor;
    if y - f as real < 0.5 || (y - f as real == 0.5 && f % 2 == 0) then f else f + 1
  }

  /** The nearest number with a 24-bit significand, where 1 is the least positive one. */
  function Round24(y: real): real
    requires y >= 0.0
    decreases y.Floor
  {
    if y < 16777216.0 then NearestInt(y) as real else 2.0 * Round24(y / 2.0)
  }

  /** 2^149: least subnormals in 1. */
  const SCALE := 713623846352979940529142984724747568191373312.0

  function Magnitude(x: real): real
    requires x >= 0.0
  {
    Round24(x * SCALE) / SCALE
  }

  function RoundReal(x: real): real {
    if x < 0.0 then -Magnitude(-x) else Magnitude(x)
  }

  function NearestEven(): Rounding { x => RoundReal(x) }

  lemma IntMonotone(x: real, y: real)
    requires 0.0 <= x <= y
    ensures NearestInt(x) <= NearestInt(y)
  {
  }

  lemma IntOfInt(n: nat)
    ensures NearestInt(n as real) == n
  {
  }

  /** Rounding does not cross a binade boundary. */
  lemma {:induction false} StaysInBinade(y: real)
    requires y >= 0.0
    ensures Round24(y) >= 0.0
    ensures y <= 16777216.0 ==> Round24(y) <= 16777216.0
    ensures y >= 8388608.0 ==> Round24(y) >= 8388608.0
    ensures y >= 16777216.0 ==> Round24(y) >= 16777216.0
    decreases y.Floor
  {
    IntOfInt(8388608);
    IntOfInt(16777216);
    if y < 16777216.0 {
      IntMonotone(y, 16777216.0);
      if y >= 8388608.0 { IntMonotone(8388608.0, y); }
    } else {
      StaysInBinade(y / 2.0);
    }
  }

  lemma {:induction false} Round24Monotone(x: real, y: real)
    requires 0.0 <= x <= y
    ensures Round24(x) <= Round24(y)
    decreases y.Floor
  {
    if y < 16777216.0 {
      IntMonotone(x, y);
    } else if x < 16777216.0 {
      StaysInBinade(x);
      StaysInBinade(y);
    } else {
      Round24Monotone(x / 2.0, y / 2.0);
    }
  }

  lemma {:induction false} Round24Error(y: real)
    requires y >= 0.0
    ensures Abs(Round24(y) - y) <= if y < 8388608.0 then 0.5 else y / 16777216.0
    decreases y.Floor
  {
    if y < 16777216.0 {
      assert Round24(y) == NearestInt(y) as real;
    } else {
      Round24Error(y / 2.0);
    }
  }

  lemma Round24Doubles(y: real)
    requires y >= 8388608.0
    ensures Round24(2.0 * y) == 2.0 * Round24(y)
  {
    assert 2.0 * y / 2.0 == y;
  }

  /** `y` times 2^j. */
  function Shifted(y: real, j: nat): real { y * Pow2(j) as real }

  lemma ShiftedOnce(y: real, j: nat)
    requires y >= 0.0
    ensures Shifted(y, 0) == y && Shifted(y, j) >= y
    ensures j > 0 ==> Shifted(y, j) == 2.0 * Shifted(y, j - 1)
  {
    if j > 0 {
      var p, q := Pow2(j - 1) as real, Pow2(j) as real;
      assert q == 2.0 * p;
    }
    MulLe(1.0, Pow2(j) as real, y);
  }

  /** A number of the normal range rounds like its significand. */
  lemma {:induction false} Round24Scales(y: real, j: nat)
    requires y >= 8388608.0
    ensures Shifted(y, j) >= y && Round24(Shifted(y, j)) == Shifted(Round24(y), j)
  {
    hide Round24, Shifted;
    StaysInBinade(y);
    ShiftedOnce(y, j);
    ShiftedOnce(Round24(y), j);
    if j == 0 {
    } else {
      Round24Scales(y, j - 1);
      Round24Doubles(Shifted(y, j - 1));
    }
  }

  lemma {:induction false} Round24Exact(k: nat, j: nat)
    requires k <= 16777216
    ensures Shifted(k as real, j) >= 0.0 && Round24(Shifted(k as real, j)) == Shifted(k as real, j)
  {
    hide Shifted, Round24, NearestInt;
    ShiftedOnce(k as real, j);
    ShiftedIsIntegral(k, j);
    if j == 0 {
      ExactSmall(k);
    } else {
      Round24Exact(k, j - 1);
      ExactDouble(Shifted(k as real, j - 1), Shifted(k as real, j));
    }
  }

  lemma ExactSmall(k: nat)
    requires k <= 16777216
    ensures Round24(k as real) == k as real
  {
    IntOfInt(k);
    IntOfInt(8388608);
    if k == 16777216 { Round24Doubles(8388608.0); }
  }

  lemma ExactDouble(y: real, z: real)
    requires 0.0 <= y && z == 2.0 * y && Round24(y) == y && NearestInt(z) as real == z
    ensures Round24(z) == z
  {
    if y >= 8388608.0 { Round24Doubles(y); }
  }

  lemma ShiftedIsIntegral(k: nat, j: nat)
    ensures Shifted(k as real, j) >= 0.0 && NearestInt(Shifted(k as real, j)) as real == Shifted(k as real, j)
  {
    var n: nat := k * Pow2(j);
    assert n as real == Shifted(k as real, j);
    IntOfInt(n);
  }

  lemma Squared(n: nat, v: int)
    requires Pow2(n) == v
    ensures Pow2(2 * n) == v * v
  {
    Pow2Add(n, n);
  }

  lemma ScaleIsPow2()
    ensures Pow2(149) as real == SCALE
  {
    assert Pow2(8) == 256 && Pow2(5) == 32;
    hide Pow2;
    Squared(8, 0x100);
    Squared(16, 0x1_0000);
    Squared(32, 0x1_0000_0000);
    Squared(64, 0x1_0000_0000_0000_0000);
    Pow2Add(128, 16);
    Pow2Add(144, 5);
  }

  lemma MagnitudeMonotone(x: real, y: real)
    requires 0.0 <= x <= y
    ensures 0.0 <= Magnitude(x) <= Magnitude(y)
  {
    Round24Monotone(x * SCALE, y * SCALE);
    StaysInBinade(x * SCALE);
  }

  lemma MagnitudeError(x: real)
    requires x >= 0.0
    ensures Abs(Magnitude(x) - x) <= x / 16777216.0 + TINY
  {
    Round24Error(x * SCALE);
  }

  lemma MagnitudeExact(n: nat)
    requires n <= 16777216
    ensures Magnitude(n as real) == n as real
  {
    ScaleIsPow2();
    hide Pow2, Round24;
    Round24Exact(n, 149);
    assert Shifted(n as real, 149) == n as real * SCALE;
  }

  lemma RealMonotone(x: real, y: real)
    requires x <= y
    ensures RoundReal(x) <= RoundReal(y)
  {
    hide Magnitude;
    if x >= 0.0 {
      MagnitudeMonotone(x, y);
    } else if y < 0.0 {
      MagnitudeMonotone(-y, -x);
    } else {
      MagnitudeMonotone(0.0, -x);
      MagnitudeMonotone(0.0, y);
    }
  }

  lemma RealError(x: real)
    ensures Rounded(RoundReal(x), x)
  {
    hide Magnitude;
    MagnitudeError(Abs(x));
  }

  lemma RealExact(x: real)
    requires SmallInteger(x)
    ensures RoundReal(x) == x
  {
    hide Magnitude;
    var n := x.Floor;
    if x >= 0.0 {
      MagnitudeExact(n);
    } else {
      assert -x == (-n) as real;
      MagnitudeExact(-n);
    }
  }

  /** Round-to-nearest-even is monotone, has the assumed error and is exact on small integers. */
  lemma NearestEvenIsARounding()
    ensures IsBinary32Rounding(NearestEven())
  {
    hide RoundReal, Rounded, SmallInteger;
    var rnd := NearestEven();
    forall x, y | InOrder(x, y) ensures rnd(x) <= rnd(y) { RealMonotone(x, y); }
    forall x ensures Rounded(rnd(x), x) { RealError(x); }
    forall x | SmallInteger(x) ensures rnd(x) == x { RealExact(x); }
  }

  /** A unit in least subnormals. */
  lemma UnitScaled(e: int)
    requires -149 <= e
    ensures Unit(e) * SCALE == Pow2(e + 149) as real
  {
    ScaleIsPow2();
    hide Pow2;
    if e >= 0 {
      Pow2Add(e, 149);
      ProductAsReal(Pow2(e), Pow2(149));
    } else {
      Pow2Add(e + 149, -e);
      ProductAsReal(Pow2(e + 149), Pow2(-e));
      CancelFactor(Pow2(e + 149) as real, Pow2(-e) as real);
    }
  }

  lemma ProductAsReal(a: int, b: int)
    ensures (a * b) as real == a as real * b as real
  {
  }

  lemma CancelFactor(p: real, q: real)
    requires q != 0.0
    ensures 1.0 / q * (p * q) == p
  {
    var r := 1.0 / q;
    DivMul(1.0, q);
    assert r * (p * q) == p * (r * q);
  }

  lemma SignificandRounds(y: real, k: int)
    requires y >= 8388608.0 && k < 16777216 && Abs(y - k as real) < 0.5
    ensures Round24(y) == k as real
  {
    hide NearestInt;
    var n := NearestInt(y);
    assert -1.0 < n as real - k as real < 1.0;
    assert n == k;
    assert y < 16777216.0;
  }

  /** The same number in units, and in least subnormals. */
  lemma InUnits(x: real, u: real, j: nat) returns (y: real)
    requires u > 0.0 && u * SCALE == Pow2(j) as real
    ensures x == y * u && x * SCALE == Shifted(y, j)
  {
    y := x / u;
    DivMul(x, u);
    Regroup(y, u, SCALE);
  }

  lemma BackToReals(k: real, u: real, j: nat)
    requires u * SCALE == Pow2(j) as real
    ensures Shifted(k, j) / SCALE == k * u
  {
    Regroup(k, u, SCALE);
    var v := k * u;
    assert v * SCALE / SCALE == v;
  }

  /** The significand of `x` in units of 2^e, and `x` in least subnormals. */
  lemma SignificandOf(x: real, k: int, e: int) returns (y: real)
    requires x >= 0.0 && Nearest(x, k, e)
    ensures y >= 8388608.0 && k < 16777216 && Abs(y - k as real) < 0.5
    ensures x * SCALE == Shifted(y, e + 149)
    ensures Shifted(k as real, e + 149) / SCALE == k as real * Unit(e)
  {
    hide Unit, Pow2, Shifted;
    UnitScaled(e);
    UnitIsPositive(e);
    y := InUnits(x, Unit(e), e + 149);
    Quotients(x, k as real, Unit(e), y);
    BackToReals(k as real, Unit(e), e + 149);
  }

  lemma NearestMagnitude(x: real, k: int, e: int)
    requires x >= 0.0 && Nearest(x, k, e)
    ensures Magnitude(x) == k as real * Unit(e)
  {
    var j: nat := e + 149;
    hide Unit, Pow2, Round24, Shifted, Nearest;
    var y := SignificandOf(x, k, e);
    SignificandRounds(y, k);
    Round24Scales(y, j);
  }

  lemma Regroup(a: real, b: real, c: real)
    ensures a * b * c == a * (b * c)
  {
  }

  lemma UnitIsPositive(e: int)
    ensures Unit(e) > 0.0
  {
    if e < 0 { DivMul(1.0, Pow2(-e) as real); }
  }

  lemma LessFactor(a: real, b: real, u: real)
    requires u > 0.0
    ensures Mul(a, u) < Mul(b, u) ==> a < b
    ensures Mul(a, u) <= Mul(b, u) ==> a <= b
  {
    assert a > b ==> a * u > b * u;
    assert a == b ==> a * u == b * u;
  }

  lemma Difference(y: real, k: real, u: real)
    ensures Mul(y - k, u) == Mul(y, u) - Mul(k, u)
  {
  }

  lemma Quotients(x: real, k: real, u: real, y: real)
    requires u > 0.0 && x == y * u && x >= 8388608.0 * u && Abs(x - k * u) < u / 2.0
    ensures y >= 8388608.0 && Abs(y - k) < 0.5
  {
    assert Mul(y, u) == x && Mul(8388608.0, u) == 8388608.0 * u && Mul(k, u) == k * u && Mul(0.5, u) == u / 2.0;
    Close(x, k, u, y);
  }

  lemma Close(x: real, k: real, u: real, y: real)
    requires u > 0.0 && x == Mul(y, u) && x >= Mul(8388608.0, u) && Abs(x - Mul(k, u)) < Mul(0.5, u)
    ensures y >= 8388608.0 && Abs(y - k) < 0.5
  {
    hide Mul;
    LessFactor(8388608.0, y, u);
    Difference(y, k, u);
    Difference(k, y, u);
    LessFactor(y - k, 0.5, u);
    LessFactor(k - y, 0.5, u);
  }

  lemma RealNearest(x: real, k: int, e: int)
    requires Nearest(x, k, e)
    ensures RoundReal(x) == k as real * Unit(e)
  {
    hide Magnitude, Unit;
    if x >= 0.0 {
      NearestMagnitude(x, k, e);
    } else {
      Negated(k as real, Unit(e));
      assert Nearest(-x, -k, e);
      NearestMagnitude(-x, -k, e);
    }
  }

  lemma NearestEvenIsNearest()
    ensures RoundsToNearest(NearestEven())
  {
    hide RoundReal, Unit, Nearest;
    var rnd := NearestEven();
    forall x, k, e | Nearest(x, k, e) ensures rnd(x) == k as real * Unit(e) { RealNearest(x, k, e); }
  }

  lemma Negated(k: real, u: real)
    ensures -k * u == -(k * u)
  {
  }

  /** The failing configuration fails for the rounding that binary32 arithmetic uses. */
  lemma Binary32LeavesTheRange()
    ensures var rnd := NearestEven();
      && New(rnd, 64, 18, 13135042, 9, Finite(1.0)) == Success(FAILING)
      && Calculate(rnd, FAILING, 13135050) == 16 && Calculate(rnd, FAILING, 13135051) == 18
  {
    hide *;
    NearestEvenIsARounding();
    NearestEvenIsNearest();
    RangeFailsWithoutGentle(NearestEven());
  }
}
