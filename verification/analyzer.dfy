/**
 The analyzer class of `src/analyzer/sentiment_analyzer.py`: single-review
 analysis, the batch fold that buckets reviews by label and averages their
 scores, and the customer conclusion chosen from a batch result.
 */
module Analyzer {
  import opened Scores

  /** What `analyze_review` returns for one review. */
  datatype AnalysisResult = AnalysisResult(text: string, scores: ScoreVector, sentiment: Label)

  /** What `analyze_comments` returns. While the fold runs, `averageScores`
      holds the running sums, as the source reuses the same dictionary. */
  datatype BatchResult = BatchResult(
    positive: seq<string>,
    neutral: seq<string>,
    negative: seq<string>,
    averageScores: ScoreVector)
  {
    /** The bucket named by a label. */
    function BucketFor(l: Label): seq<string>
    {
      match l
      case Positive => positive
      case Neutral => neutral
      case Negative => negative
    }

    /** The number of reviews over all three buckets. */
    function Size(): nat
    {
      |positive| + |neutral| + |negative|
    }
  }

  const EmptyResult := BatchResult([], [], [], Zero)

  function AnalyzeReview(score: Scorer, review: string): (r: AnalysisResult)
    ensures r.text == review
    ensures r.scores == score(review)
    ensures r.sentiment == LabelOf(score(review).compound)
  {
    var scores := score(review);
    AnalysisResult(review, scores, LabelOf(scores.compound))
  }

  // Reference definitions, independent of the fold.

  /** The comments whose label is `l`, in input order, duplicates kept. */
  function Bucket(score: Scorer, comments: seq<string>, l: Label): seq<string>
  {
    if |comments| == 0 then []
    else
      (if LabelOf(score(comments[0]).compound) == l then [comments[0]] else [])
      + Bucket(score, comments[1..], l)
  }

  /** The component-wise sum of the scores of all comments. */
  function Total(score: Scorer, comments: seq<string>): ScoreVector
  {
    if |comments| == 0 then Zero
    else Add(score(comments[0]), Total(score, comments[1..]))
  }

  // The fold of `analyze_comments`.

  /** One iteration of the loop: append the comment to its label's bucket and
      add its scores to the running sums. */
  function Record(score: Scorer, acc: BatchResult, comment: string): BatchResult
  {
    var analysis := AnalyzeReview(score, comment);
    var sums := Add(acc.averageScores, analysis.scores);
    match analysis.sentiment
    case Positive => acc.(positive := acc.positive + [comment], averageScores := sums)
    case Neutral => acc.(neutral := acc.neutral + [comment], averageScores := sums)
    case Negative => acc.(negative := acc.negative + [comment], averageScores := sums)
  }

  /** One iteration appends to exactly one bucket, the comment's own. */
  lemma {:induction false} RecordAppends(score: Scorer, acc: BatchResult, comment: string)
    ensures forall l: Label :: Record(score, acc, comment).BucketFor(l) == acc.BucketFor(l) + Bucket(score, [comment], l)
    ensures Record(score, acc, comment).averageScores == Add(acc.averageScores, Total(score, [comment]))
  {
    assert [comment][1..] == [];
  }

  /** The loop over `comments`, in input order, starting from `acc`. */
  function Fold(score: Scorer, acc: BatchResult, comments: seq<string>): (r: BatchResult)
    ensures forall l: Label :: r.BucketFor(l) == acc.BucketFor(l) + Bucket(score, comments, l)
    ensures r.averageScores == Add(acc.averageScores, Total(score, comments))
    decreases |comments|
  {
    if |comments| == 0 then
      assert forall l: Label :: acc.BucketFor(l) + Bucket(score, comments, l) == acc.BucketFor(l);
      acc
    else
      var next := Record(score, acc, comments[0]);
      RecordAppends(score, acc, comments[0]);
      assert comments == [comments[0]] + comments[1..];
      assert forall l: Label ::
          Bucket(score, comments, l) == Bucket(score, [comments[0]], l) + Bucket(score, comments[1..], l);
      Fold(score, next, comments[1..])
  }

  function AnalyzeComments(score: Scorer, comments: seq<string>): (r: BatchResult)
    ensures forall l: Label :: r.BucketFor(l) == Bucket(score, comments, l)
    ensures r.Size() == |comments|
    ensures |comments| == 0 ==> r == EmptyResult
    ensures |comments| > 0 ==> r.averageScores == DivideBy(Total(score, comments), |comments|)
  {
    var folded := Fold(score, EmptyResult, comments);
    FoldFromEmpty(score, comments);
    BucketsPartitionLength(score, comments);
    var n := |comments|;
    if n > 0 then BatchResult(folded.positive, folded.neutral, folded.negative, DivideBy(folded.averageScores, n))
    else folded
  }

  /** The loop from an empty result ends with the reference buckets and the
      total of the scores. */
  lemma {:induction false} FoldFromEmpty(score: Scorer, comments: seq<string>)
    ensures Fold(score, EmptyResult, comments)
            == BatchResult(Bucket(score, comments, Positive), Bucket(score, comments, Neutral),
                           Bucket(score, comments, Negative), Total(score, comments))
  {
    var folded := Fold(score, EmptyResult, comments);
    assert folded.BucketFor(Positive) == [] + Bucket(score, comments, Positive);
    assert folded.BucketFor(Neutral) == [] + Bucket(score, comments, Neutral);
    assert folded.BucketFor(Negative) == [] + Bucket(score, comments, Negative);
  }

  // Properties of the buckets.

  /** Every comment lands in exactly one bucket: the bucket sizes add up to
      the input size and, as multisets, the buckets add up to the input. */
  lemma {:induction false} BucketsPartition(score: Scorer, comments: seq<string>)
    ensures |Bucket(score, comments, Positive)| + |Bucket(score, comments, Neutral)|
            + |Bucket(score, comments, Negative)| == |comments|
    ensures multiset(Bucket(score, comments, Positive)) + multiset(Bucket(score, comments, Neutral))
            + multiset(Bucket(score, comments, Negative)) == multiset(comments)
    decreases |comments|
  {
    BucketsPartitionLength(score, comments);
    if |comments| > 0 {
      var h, rest := comments[0], comments[1..];
      BucketsPartition(score, rest);
      assert comments == [h] + rest;
      var l := LabelOf(score(h).compound);
      forall m: Label
        ensures multiset(Bucket(score, comments, m))
                == (if m == l then multiset{h} else multiset{}) + multiset(Bucket(score, rest, m))
      {
        assert Bucket(score, comments, m) == (if m == l then [h] else []) + Bucket(score, rest, m);
      }
    }
  }

  /** The length half of `BucketsPartition` alone. Callers that only need
      the bucket sizes use it, which keeps multisets out of their proofs. */
  lemma {:induction false} BucketsPartitionLength(score: Scorer, comments: seq<string>)
    ensures |Bucket(score, comments, Positive)| + |Bucket(score, comments, Neutral)|
            + |Bucket(score, comments, Negative)| == |comments|
    decreases |comments|
  {
    if |comments| > 0 {
      BucketsPartitionLength(score, comments[1..]);
    }
  }

  /** A comment is in the bucket of `l` exactly when it is in the input and
      its label is `l`. */
  lemma {:induction false} BucketMembership(score: Scorer, comments: seq<string>, l: Label, x: string)
    ensures x in Bucket(score, comments, l) <==> x in comments && LabelOf(score(x).compound) == l
    decreases |comments|
  {
    if |comments| > 0 {
      BucketMembership(score, comments[1..], l, x);
      assert comments == [comments[0]] + comments[1..];
    }
  }

  /** Bucketing preserves input order: the bucket of a concatenation is the
      concatenation of the buckets. */
  lemma {:induction false} BucketAppend(score: Scorer, a: seq<string>, b: seq<string>, l: Label)
    ensures Bucket(score, a + b, l) == Bucket(score, a, l) + Bucket(score, b, l)
    decreases |a|
  {
    if |a| > 0 {
      BucketAppend(score, a[1..], b, l);
      assert (a + b)[1..] == a[1..] + b;
    } else {
      assert a + b == b;
    }
  }

  /** No comment is in two buckets of a batch result. */
  lemma {:induction false} BucketsDisjoint(score: Scorer, comments: seq<string>, l1: Label, l2: Label, x: string)
    requires l1 != l2
    ensures var r := AnalyzeComments(score, comments);
            !(x in r.BucketFor(l1) && x in r.BucketFor(l2))
  {
    BucketMembership(score, comments, l1, x);
    BucketMembership(score, comments, l2, x);
  }

  /** A one-review batch agrees with single-review analysis: the review is in
      the bucket of its sentiment, only there, and the averages are its scores. */
  lemma {:induction false} SingletonBatch(score: Scorer, x: string)
    ensures var r := AnalyzeComments(score, [x]);
            var a := AnalyzeReview(score, x);
            && r.BucketFor(a.sentiment) == [x]
            && (forall l: Label :: l != a.sentiment ==> r.BucketFor(l) == [])
            && r.averageScores == a.scores
  {
    var s := score(x);
    assert [x][1..] == [];
    assert Total(score, [x]) == s;
    assert DivideBy(s, 1) == s;
  }

  /** The total of comments that all score `s` is `|comments|` copies of `s`. */
  lemma {:induction false} TotalUniform(score: Scorer, comments: seq<string>, s: ScoreVector)
    requires forall k :: 0 <= k < |comments| ==> score(comments[k]) == s
    ensures Total(score, comments) == Times(|comments|, s)
    decreases |comments|
  {
    if |comments| > 0 {
      TotalUniform(score, comments[1..], s);
    }
  }

  /** A batch whose reviews all score `s` averages to exactly `s`. */
  lemma {:induction false} UniformBatch(score: Scorer, comments: seq<string>, s: ScoreVector)
    requires |comments| > 0
    requires forall k :: 0 <= k < |comments| ==> score(comments[k]) == s
    ensures AnalyzeComments(score, comments).averageScores == s
  {
    TotalUniform(score, comments, s);
    DivideTimes(|comments|, s);
  }

  // The customer conclusion.

  /** The three templates of `generate_customer_conclusion`, with the
      percentage each one shows. */
  datatype Conclusion =
    | ProductHighlights(positivePercent: real)
    | ConsiderBeforeBuying(negativePercent: real)
    | BalancedFeedback

  /** The conclusion, or the division by zero an all-empty result raises. */
  datatype ConclusionOutcome = Concluded(conclusion: Conclusion) | ZeroDivisionError

  /** The label a conclusion template stands for. */
  function ConclusionLabel(c: Conclusion): Label
  {
    match c
    case ProductHighlights(_) => Positive
    case ConsiderBeforeBuying(_) => Negative
    case BalancedFeedback => Neutral
  }

  /** `count` as a percentage of `total`, before any truncation. */
  function Percentage(count: nat, total: nat): (p: real)
    requires total > 0
    ensures p * total as real == 100.0 * count as real
    ensures count <= total ==> 0.0 <= p <= 100.0
  {
    (count as real / total as real) * 100.0
  }

  function GenerateCustomerConclusion(results: BatchResult): (r: ConclusionOutcome)
    ensures r.ZeroDivisionError? <==> results.Size() == 0
    ensures r.Concluded? ==> ConclusionLabel(r.conclusion) == LabelOf(results.averageScores.compound)
    ensures r.Concluded? && r.conclusion.ProductHighlights? ==>
              r.conclusion.positivePercent * results.Size() as real == 100.0 * |results.positive| as real
              && 0.0 <= r.conclusion.positivePercent <= 100.0
    ensures r.Concluded? && r.conclusion.ConsiderBeforeBuying? ==>
              r.conclusion.negativePercent * results.Size() as real == 100.0 * |results.negative| as real
              && 0.0 <= r.conclusion.negativePercent <= 100.0
  {
    var total := |results.positive| + |results.negative| + |results.neutral|;
    if total == 0 then ZeroDivisionError
    else
      var posPercentage := Percentage(|results.positive|, total);
      var negPercentage := Percentage(|results.negative|, total);
      var compound := results.averageScores.compound;
      if compound >= 0.05 then Concluded(ProductHighlights(posPercentage))
      else if compound <= -0.05 then Concluded(ConsiderBeforeBuying(negPercentage))
      else Concluded(BalancedFeedback)
  }

  /** The conclusion of an analyzed batch exists exactly when the batch is
      non-empty, and its template follows the batch's average compound. */
  lemma {:induction false} ConclusionOfBatch(score: Scorer, comments: seq<string>)
    ensures var r := AnalyzeComments(score, comments);
            var c := GenerateCustomerConclusion(r);
            && (c.ZeroDivisionError? <==> |comments| == 0)
            && (c.Concluded? ==> ConclusionLabel(c.conclusion) == LabelOf(r.averageScores.compound))
  {
  }
}
