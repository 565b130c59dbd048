/** The three-shaped evaluation of a position and its hand-written order.
    `Winning` is the top element, `Losing` the bottom one, and two estimates
    compare by their payload. The `f64` payload is modelled as a `real`, so
    the order is total (there is no NaN). */
module PositionEvaluator {

  datatype PositionEvaluation = Winning | Losing | Estimate(value: real)

  datatype Ordering = Less | Equal | Greater

  /** `partial_cmp`: the arms are tried in the source's order. */
  function Compare(a: PositionEvaluation, b: PositionEvaluation): (o: Ordering)
    ensures o == Equal <==> a == b
  {
    match (a, b)
    case (Winning, Winning) => Equal
    case (Winning, _) => Greater
    case (_, Winning) => Less
    case (Losing, Losing) => Equal
    case (Losing, _) => Less
    case (_, Losing) => Greater
    case (Estimate(x), Estimate(y)) => if x < y then Less else if x == y then Equal else Greater
  }

  /** `eq`: same shape and, for estimates, equal payloads. */
  predicate Eq(a: PositionEvaluation, b: PositionEvaluation) {
    match (a, b)
    case (Winning, Winning) => true
    case (Losing, Losing) => true
    case (Estimate(x), Estimate(y)) => x == y
    case _ => false
  }

  /** `a > b` as the derived `PartialOrd` operator reads it. */
  predicate IsGreater(a: PositionEvaluation, b: PositionEvaluation) {
    Compare(a, b) == Greater
  }

  /** `a < b` as the derived `PartialOrd` operator reads it. */
  predicate IsLess(a: PositionEvaluation, b: PositionEvaluation) {
    Compare(a, b) == Less
  }

  lemma WinningIsTop(a: PositionEvaluation)
    ensures Compare(Winning, a) == (if a == Winning then Equal else Greater)
    ensures Compare(a, Winning) == (if a == Winning then Equal else Less)
  {
  }

  lemma LosingIsBottom(a: PositionEvaluation)
    ensures Compare(Losing, a) == (if a == Losing then Equal else Less)
    ensures Compare(a, Losing) == (if a == Losing then Equal else Greater)
  {
  }

  lemma EstimatesCompareByPayload(x: real, y: real)
    ensures IsLess(Estimate(x), Estimate(y)) <==> x < y
    ensures IsGreater(Estimate(x), Estimate(y)) <==> x > y
    ensures Compare(Estimate(x), Estimate(y)) == Equal <==> x == y
  {
  }

  /** `eq` agrees with `partial_cmp == Equal`, and both are value equality. */
  lemma EqAgreesWithCompare(a: PositionEvaluation, b: PositionEvaluation)
    ensures Eq(a, b) <==> Compare(a, b) == Equal
    ensures Eq(a, b) <==> a == b
  {
  }

  lemma CompareAntisymmetric(a: PositionEvaluation, b: PositionEvaluation)
    ensures IsGreater(a, b) <==> IsLess(b, a)
    ensures Compare(a, b) == Equal <==> Compare(b, a) == Equal
  {
  }

  lemma CompareTransitive(a: PositionEvaluation, b: PositionEvaluation, c: PositionEvaluation)
    ensures IsLess(a, b) && IsLess(b, c) ==> IsLess(a, c)
    ensures IsGreater(a, b) && IsGreater(b, c) ==> IsGreater(a, c)
  {
  }

  /** Any two evaluations are related one way or the other. */
  lemma CompareTotal(a: PositionEvaluation, b: PositionEvaluation)
    ensures !IsGreater(a, b) <==> IsLess(a, b) || a == b
    ensures !IsLess(a, b) <==> IsGreater(a, b) || a == b
  {
  }
}
