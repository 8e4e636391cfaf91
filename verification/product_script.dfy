/**
 The stand-alone script `product_sentiment_analysis.py`: its own copy of the
 threshold rule and a bucket-only variant of the batch fold.
 */
module ProductScript {
  import opened Scores
  import Analyzer

  /** `analyze_sentiment`: the script's own threshold chain, written with its
      own literals. */
  function AnalyzeSentiment(score: Scorer, text: string): (l: Label)
    ensures l == Positive <==> score(text).compound >= 0.05
    ensures l == Negative <==> score(text).compound <= -0.05
    ensures l == Neutral <==> -0.05 < score(text).compound < 0.05
  {
    var compoundScore := score(text).compound;
    if compoundScore >= 0.05 then Positive
    else if compoundScore <= -0.05 then Negative
    else Neutral
  }

  /** The script's label agrees with the analyzer's classifier on every text. */
  lemma {:induction false} SentimentAgreesWithClassifier(score: Scorer, text: string)
    ensures AnalyzeSentiment(score, text) == LabelOf(score(text).compound)
  {
  }

  /** The dictionary `analyze_product_comments` returns. */
  datatype CategorizedComments = CategorizedComments(
    positive: seq<string>,
    negative: seq<string>,
    neutral: seq<string>)
  {
    function BucketFor(l: Label): seq<string>
    {
      match l
      case Positive => positive
      case Negative => negative
      case Neutral => neutral
    }
  }

  /** One iteration: append the comment to the bucket of its label. */
  function Place(score: Scorer, acc: CategorizedComments, comment: string): CategorizedComments
  {
    match AnalyzeSentiment(score, comment)
    case Positive => acc.(positive := acc.positive + [comment])
    case Negative => acc.(negative := acc.negative + [comment])
    case Neutral => acc.(neutral := acc.neutral + [comment])
  }

  lemma {:induction false} PlaceAppends(score: Scorer, acc: CategorizedComments, comment: string)
    ensures forall l: Label ::
              Place(score, acc, comment).BucketFor(l) == acc.BucketFor(l) + Analyzer.Bucket(score, [comment], l)
  {
    assert [comment][1..] == [];
  }

  /** The loop of `analyze_product_comments`, starting from `acc`. */
  function Categorize(score: Scorer, acc: CategorizedComments, comments: seq<string>): (r: CategorizedComments)
    ensures forall l: Label :: r.BucketFor(l) == acc.BucketFor(l) + Analyzer.Bucket(score, comments, l)
    decreases |comments|
  {
    if |comments| == 0 then
      assert forall l: Label :: acc.BucketFor(l) + Analyzer.Bucket(score, comments, l) == acc.BucketFor(l);
      acc
    else
      PlaceAppends(score, acc, comments[0]);
      assert forall l: Label ::
          Analyzer.Bucket(score, comments, l)
          == Analyzer.Bucket(score, [comments[0]], l) + Analyzer.Bucket(score, comments[1..], l);
      Categorize(score, Place(score, acc, comments[0]), comments[1..])
  }

  function AnalyzeProductComments(score: Scorer, comments: seq<string>): (r: CategorizedComments)
    ensures forall l: Label :: r.BucketFor(l) == Analyzer.Bucket(score, comments, l)
    ensures |r.positive| + |r.negative| + |r.neutral| == |comments|
    ensures |comments| == 0 ==> r == CategorizedComments([], [], [])
  {
    Analyzer.BucketsPartitionLength(score, comments);
    Categorize(score, CategorizedComments([], [], []), comments)
  }

  /** The script's buckets are the bucket fields of the analyzer's batch
      result on the same input and scorer. */
  lemma {:induction false} AgreesWithAnalyzeComments(score: Scorer, comments: seq<string>)
    ensures var p := AnalyzeProductComments(score, comments);
            var a := Analyzer.AnalyzeComments(score, comments);
            p.positive == a.positive && p.negative == a.negative && p.neutral == a.neutral
  {
    var p := AnalyzeProductComments(score, comments);
    var a := Analyzer.AnalyzeComments(score, comments);
    assert p.BucketFor(Positive) == a.BucketFor(Positive);
    assert p.BucketFor(Negative) == a.BucketFor(Negative);
    assert p.BucketFor(Neutral) == a.BucketFor(Neutral);
  }
}
