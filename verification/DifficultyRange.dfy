/**
 * Exactly when the binary32 difficulty stays in [m, M], and exactly when it never rises with the balance: the two
 * edges of the middle branch decide.
 */
module DifficultyRange {
  import opened Bytes
  import opened Difficulty
  import opened DifficultyRounding
  import opened DifficultyBounds

  /** The balance takes the middle branch. */
  predicate InMiddle(rnd: Rounding, config: Config, x: U64) {
    config.b < rnd(x as real) < config.minDiffStart
  }

  /** The least and the greatest balance of the middle branch, if any balance takes it. */
  datatype Edges = NoMiddle | Middle(lo: U64, hi: U64)

  ghost predicate AreEdges(rnd: Rounding, config: Config, edges: Edges) {
    match edges
    case NoMiddle => forall x: U64 :: !InMiddle(rnd, config, x)
    case Middle(lo, hi) =>
      && InMiddle(rnd, config, lo) && InMiddle(rnd, config, hi)
      && forall x: U64 :: InMiddle(rnd, config, x) ==> lo <= x <= hi
  }

  lemma {:induction false} LeastInMiddle(rnd: Rounding, config: Config, x: U64) returns (lo: U64)
    requires InMiddle(rnd, config, x)
    ensures InMiddle(rnd, config, lo) && forall y: U64 :: InMiddle(rnd, config, y) ==> lo <= y
    decreases x
  {
    if y: U64 :| y < x && InMiddle(rnd, config, y) {
      lo := LeastInMiddle(rnd, config, y);
    } else {
      lo := x;
    }
  }

  lemma {:induction false} GreatestInMiddle(rnd: Rounding, config: Config, x: U64) returns (hi: U64)
    requires InMiddle(rnd, config, x)
    ensures InMiddle(rnd, config, hi) && forall y: U64 :: InMiddle(rnd, config, y) ==> y <= hi
    decreases U64_MAX - x
  {
    if y: U64 :| y > x && InMiddle(rnd, config, y) {
      hi := GreatestInMiddle(rnd, config, y);
    } else {
      hi := x;
    }
  }

  lemma EdgesExist(rnd: Rounding, config: Config) returns (edges: Edges)
    ensures AreEdges(rnd, config, edges)
  {
    if x: U64 :| InMiddle(rnd, config, x) {
      var lo := LeastInMiddle(rnd, config, x);
      var hi := GreatestInMiddle(rnd, config, x);
      edges := Middle(lo, hi);
    } else {
      edges := NoMiddle;
    }
  }

  /** The range holds at the edges: two evaluations, once the configuration is known. */
  predicate EdgesFit(rnd: Rounding, config: Config, edges: Edges) {
    edges.Middle? ==> Calculate(rnd, config, edges.lo) <= config.bigM && config.m <= Calculate(rnd, config, edges.hi)
  }

  /** The branches meet in order: at the upper edge only if a balance lies above it. */
  predicate EdgesDescend(rnd: Rounding, config: Config, edges: Edges) {
    edges.Middle? ==>
      && Calculate(rnd, config, edges.lo) <= config.bigM
      && (edges.hi < U64_MAX ==> config.m <= Calculate(rnd, config, edges.hi))
  }

  ghost predicate KeepsRange(rnd: Rounding, config: Config) {
    forall x: U64 :: config.m <= Calculate(rnd, config, x) <= config.bigM
  }

  ghost predicate NeverRises(rnd: Rounding, config: Config) {
    forall x: U64, y: U64 :: x <= y ==> Calculate(rnd, config, y) <= Calculate(rnd, config, x)
  }

  /** What a configuration that was accepted is known to satisfy, whatever its minimum balance. */
  ghost predicate Sound(rnd: Rounding, config: Config) {
    IsBinary32Rounding(rnd) && config.bigA <= 0.0 && config.m <= config.bigM && config.b >= rnd(0.0)
  }

  lemma AcceptedIsSound(rnd: Rounding, maxDiff: Byte, minDiff: Byte, b: U64, q: U64, coeff: F32, config: Config)
    requires IsBinary32Rounding(rnd)
    requires New(rnd, maxDiff, minDiff, b, q, coeff) == Success(config)
    ensures Sound(rnd, config) && config.bigM == maxDiff && config.m == minDiff
  {
    Fields(rnd, maxDiff, minDiff, b, q, coeff, config);
    hide IsBinary32Rounding;
    GradientIsNegative(rnd, maxDiff, minDiff, b, q, coeff, config, 0);
    RoundMonotone32(rnd, 0.0, b as real);
    hide New;
  }

  /** In the middle branch the difficulty never rises. */
  lemma MiddleDescends(rnd: Rounding, config: Config, x: U64, y: U64)
    requires Sound(rnd, config) && x <= y && InMiddle(rnd, config, x) && InMiddle(rnd, config, y)
    ensures Calculate(rnd, config, y) <= Calculate(rnd, config, x)
  {
    hide IsBinary32Rounding, ToU8, Round, Mul;
    RoundMonotone32(rnd, x as real, y as real);
    MiddleNeverRises(rnd, config.bigA, config.bigB, rnd(x as real), rnd(y as real));
  }

  /** Which branch a balance takes. */
  lemma Branch(rnd: Rounding, config: Config, x: U64)
    ensures rnd(x as real) >= config.minDiffStart ==> Calculate(rnd, config, x) == config.m
    ensures rnd(x as real) < config.minDiffStart && rnd(x as real) <= config.b ==>
      Calculate(rnd, config, x) == config.bigM
  {
    hide ToU8, Round, Mul;
  }

  /** Below the lower edge the difficulty is M, above the upper edge m, and between them it descends. */
  lemma Shape(rnd: Rounding, config: Config, lo: U64, hi: U64, x: U64)
    requires Sound(rnd, config) && AreEdges(rnd, config, Middle(lo, hi))
    ensures 0 < lo <= hi
    ensures x < lo ==> Calculate(rnd, config, x) == config.bigM
    ensures x > hi ==> Calculate(rnd, config, x) == config.m
    ensures lo <= x <= hi ==>
      InMiddle(rnd, config, x) && Calculate(rnd, config, hi) <= Calculate(rnd, config, x) <= Calculate(rnd, config, lo)
  {
    hide IsBinary32Rounding, Calculate;
    assert InMiddle(rnd, config, x) ==> lo <= x <= hi;
    Branch(rnd, config, x);
    if x <= lo { RoundMonotone32(rnd, x as real, lo as real); } else { RoundMonotone32(rnd, lo as real, x as real); }
    if x <= hi { RoundMonotone32(rnd, x as real, hi as real); } else { RoundMonotone32(rnd, hi as real, x as real); }
    if lo <= x <= hi {
      MiddleDescends(rnd, config, lo, x);
      MiddleDescends(rnd, config, x, hi);
    }
  }

  /** Without a middle branch the difficulty is M up to some balance and m from there on. */
  lemma ShapeWithoutMiddle(rnd: Rounding, config: Config, x: U64, y: U64)
    requires Sound(rnd, config) && AreEdges(rnd, config, NoMiddle) && x <= y
    ensures Calculate(rnd, config, x) in {config.m, config.bigM}
    ensures Calculate(rnd, config, y) <= Calculate(rnd, config, x)
  {
    RoundMonotone32(rnd, x as real, y as real);
    hide IsBinary32Rounding, ToU8, Round, Mul;
    assert !InMiddle(rnd, config, x) && !InMiddle(rnd, config, y);
  }

  /** The difficulty is in [m, M] for every balance if and only if it is at the two edges. */
  lemma RangeIff(rnd: Rounding, maxDiff: Byte, minDiff: Byte, b: U64, q: U64, coeff: F32, config: Config, edges: Edges)
    requires IsBinary32Rounding(rnd)
    requires New(rnd, maxDiff, minDiff, b, q, coeff) == Success(config) && AreEdges(rnd, config, edges)
    ensures config.bigM == maxDiff && config.m == minDiff
    ensures KeepsRange(rnd, config) <==> EdgesFit(rnd, config, edges)
  {
    AcceptedIsSound(rnd, maxDiff, minDiff, b, q, coeff, config);
    hide New, IsBinary32Rounding, Calculate, InMiddle;
    if EdgesFit(rnd, config, edges) {
      forall x: U64 ensures config.m <= Calculate(rnd, config, x) <= config.bigM {
        match edges
        case NoMiddle => ShapeWithoutMiddle(rnd, config, x, x);
        case Middle(lo, hi) => Shape(rnd, config, lo, hi, x);
      }
    }
  }

  /** The difficulty never rises with the balance if and only if the branches meet in order at the two edges. */
  lemma OrderIff(rnd: Rounding, maxDiff: Byte, minDiff: Byte, b: U64, q: U64, coeff: F32, config: Config, edges: Edges)
    requires IsBinary32Rounding(rnd)
    requires New(rnd, maxDiff, minDiff, b, q, coeff) == Success(config) && AreEdges(rnd, config, edges)
    ensures NeverRises(rnd, config) <==> EdgesDescend(rnd, config, edges)
  {
    AcceptedIsSound(rnd, maxDiff, minDiff, b, q, coeff, config);
    hide New, IsBinary32Rounding, Calculate, InMiddle;
    if EdgesDescend(rnd, config, edges) {
      forall x: U64, y: U64 | x <= y ensures Calculate(rnd, config, y) <= Calculate(rnd, config, x) {
        match edges
        case NoMiddle => ShapeWithoutMiddle(rnd, config, x, y);
        case Middle(lo, hi) => DescendsAcross(rnd, config, lo, hi, x, y);
      }
    }
    if NeverRises(rnd, config) && edges.Middle? {
      Shape(rnd, config, edges.lo, edges.hi, edges.lo - 1);
      if edges.hi < U64_MAX { Shape(rnd, config, edges.lo, edges.hi, edges.hi + 1); }
    }
  }

  lemma DescendsAcross(rnd: Rounding, config: Config, lo: U64, hi: U64, x: U64, y: U64)
    requires Sound(rnd, config) && AreEdges(rnd, config, Middle(lo, hi))
    requires EdgesDescend(rnd, config, Middle(lo, hi)) && x <= y
    ensures Calculate(rnd, config, y) <= Calculate(rnd, config, x)
  {
    hide IsBinary32Rounding, Calculate, InMiddle;
    Shape(rnd, config, lo, hi, x);
    Shape(rnd, config, lo, hi, y);
    if lo <= x && y <= hi { MiddleDescends(rnd, config, x, y); }
  }

  /** A difficulty that stays in range never rises. */
  lemma RangeImpliesOrder(rnd: Rounding, maxDiff: Byte, minDiff: Byte, b: U64, q: U64, coeff: F32, config: Config)
    requires IsBinary32Rounding(rnd)
    requires New(rnd, maxDiff, minDiff, b, q, coeff) == Success(config) && KeepsRange(rnd, config)
    ensures NeverRises(rnd, config)
  {
    hide New, IsBinary32Rounding, Calculate, AreEdges, KeepsRange, NeverRises;
    var edges := EdgesExist(rnd, config);
    RangeIff(rnd, maxDiff, minDiff, b, q, coeff, config, edges);
    OrderIff(rnd, maxDiff, minDiff, b, q, coeff, config, edges);
  }

  /** A gentle minimum balance is enough for both, and can be read off the settings. */
  lemma GentleKeepsRangeAndOrder(rnd: Rounding, maxDiff: Byte, minDiff: Byte, b: U64, q: U64, coeff: F32,
                                 config: Config)
    requires IsBinary32Rounding(rnd)
    requires New(rnd, maxDiff, minDiff, b, q, coeff) == Success(config)
    requires Gentle(maxDiff as real, minDiff as real, b as real, coeff.v * q as real)
    ensures KeepsRange(rnd, config) && NeverRises(rnd, config)
  {
    AcceptedIsSound(rnd, maxDiff, minDiff, b, q, coeff, config);
    hide New, IsBinary32Rounding, Calculate, NeverRises;
    forall x: U64 ensures config.m <= Calculate(rnd, config, x) <= config.bigM {
      RoundedDifficulty(rnd, maxDiff, minDiff, b, q, coeff, config, x);
    }
    RangeImpliesOrder(rnd, maxDiff, minDiff, b, q, coeff, config);
  }
}
