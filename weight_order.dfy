/**
 * The order in which data kinds are presented: ascending weight.
 * The source's comparator subtracts the two weights in 32-bit arithmetic;
 * the model keeps that comparator as written and uses the comparison it
 * evidently intends (the sign of the true difference) for sorting.
 */
module WeightOrder {
  import opened JavaInt

  /** `sWeightComparator.compare` as written: `object1.weight - object2.weight`, wrapping on overflow. */
  function CompareAsWritten(w1: Int32, w2: Int32): (r: Int32)
    ensures INT_MIN <= w1 - w2 <= INT_MAX ==> r == w1 - w2
    ensures w1 - w2 < INT_MIN ==> r == w1 - w2 + TWO_POW_32
    ensures w1 - w2 > INT_MAX ==> r == w1 - w2 - TWO_POW_32
  {
    Wrap(w1 - w2)
  }

  /** The comparison the comparator is meant to compute (`Integer.compare`): its sign is the order of the weights. */
  function Compare(w1: Int32, w2: Int32): (r: int)
    ensures r < 0 <==> w1 < w2
    ensures r == 0 <==> w1 == w2
    ensures r > 0 <==> w1 > w2
  {
    if w1 < w2 then -1 else if w1 == w2 then 0 else 1
  }

  /** Whenever the subtraction does not overflow, the comparator as written orders weights exactly as intended. */
  lemma AsWrittenAgreesWithoutOverflow(w1: Int32, w2: Int32)
    requires INT_MIN <= w1 - w2 <= INT_MAX
    ensures CompareAsWritten(w1, w2) < 0 <==> Compare(w1, w2) < 0
    ensures CompareAsWritten(w1, w2) == 0 <==> Compare(w1, w2) == 0
    ensures CompareAsWritten(w1, w2) > 0 <==> Compare(w1, w2) > 0
  {
  }

  /**
   * With weights INT_MIN, 0 and 1 the comparator as written says INT_MIN < 0 and 0 < 1
   * but INT_MIN > 1: it is not transitive, so it breaks the contract a sort relies on.
   */
  lemma AsWrittenIsNotTransitive()
    ensures CompareAsWritten(INT_MIN, 0) < 0
    ensures CompareAsWritten(0, 1) < 0
    ensures CompareAsWritten(INT_MIN, 1) > 0
  {
  }
}
