/**
 This module holds the values every part of the analyzer shares: the four
 scores the external lexicon scorer produces for one text, and the three-way
 sentiment label derived from the compound score.
 */
module Scores {

  /** The scorer's output for one text. The model assumes nothing about the
      ranges of the components or about their sum: the analyzer never checks
      them. */
  datatype ScoreVector = ScoreVector(pos: real, neu: real, neg: real, compound: real)

  /** The external polarity scorer, left uninterpreted: every operation that
      scores text takes it as a parameter. */
  type Scorer = string -> ScoreVector

  const Zero := ScoreVector(0.0, 0.0, 0.0, 0.0)

  /** Component-wise sum of two score vectors. */
  function Add(a: ScoreVector, b: ScoreVector): ScoreVector
  {
    ScoreVector(a.pos + b.pos, a.neu + b.neu, a.neg + b.neg, a.compound + b.compound)
  }

  /** Component-wise division by a positive count. */
  function DivideBy(v: ScoreVector, n: nat): ScoreVector
    requires n > 0
  {
    var d := n as real;
    ScoreVector(v.pos / d, v.neu / d, v.neg / d, v.compound / d)
  }

  /** `n` copies of `s` added together. */
  function Times(n: nat, s: ScoreVector): ScoreVector
  {
    var k := n as real;
    ScoreVector(k * s.pos, k * s.neu, k * s.neg, k * s.compound)
  }

  datatype Label = Positive | Neutral | Negative

  const PositiveThreshold: real := 0.05
  const NegativeThreshold: real := -0.05

  /** The classifier: a total function of the compound score whose two
      boundaries are inclusive on the positive and negative side. */
  function LabelOf(compound: real): (l: Label)
    ensures l == Positive <==> compound >= PositiveThreshold
    ensures l == Negative <==> compound <= NegativeThreshold
    ensures l == Neutral <==> NegativeThreshold < compound < PositiveThreshold
  {
    if compound >= PositiveThreshold then Positive
    else if compound <= NegativeThreshold then Negative
    else Neutral
  }

  /** The boundary values named by the classifier's design. */
  lemma LabelBoundaries()
    ensures LabelOf(0.05) == Positive
    ensures LabelOf(-0.05) == Negative
    ensures LabelOf(0.049) == Neutral
    ensures LabelOf(-0.049) == Neutral
    ensures LabelOf(0.0) == Neutral
  {
  }

  /** Dividing `n` equal contributions by `n` gives back one contribution. */
  lemma DivideTimes(n: nat, s: ScoreVector)
    requires n > 0
    ensures DivideBy(Times(n, s), n) == s
  {
    var k := n as real;
    assert k * s.pos / k == s.pos;
    assert k * s.neu / k == s.neu;
    assert k * s.neg / k == s.neg;
    assert k * s.compound / k == s.compound;
  }
}
