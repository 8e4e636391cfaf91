/**
 The branch choices of the dashboard's `main` in `app_streamlit.py`: which
 narrative the single-review mode shows, and which banner and summary the
 batch mode shows for an uploaded file. Rendering itself is not modelled.
 */
module Dashboard {
  import opened Maybe
  import opened Scores
  import opened Analyzer
  import opened Ingestion

  /** What the single-review mode shows: the analysis and the narrative
      picked from its compound score. */
  datatype SingleReviewView = SingleReviewView(result: AnalysisResult, narrative: Label)

  /** The "Analyze Single Review" branch; an empty text area shows nothing. */
  function SingleReview(score: Scorer, userInput: string): (v: Option<SingleReviewView>)
    ensures v.Some? <==> userInput != []
    ensures v.Some? ==> v.value.result.text == userInput && v.value.result.scores == score(userInput)
    ensures v.Some? ==> v.value.narrative == LabelOf(score(userInput).compound)
    ensures v.Some? ==> v.value.narrative == v.value.result.sentiment
  {
    if userInput == [] then None
    else
      var result := AnalyzeReview(score, userInput);
      var compoundScore := result.scores.compound;
      var narrative :=
        if compoundScore >= 0.05 then Positive
        else if compoundScore <= -0.05 then Negative
        else Neutral;
      Some(SingleReviewView(result, narrative))
  }

  /** The "Analysis Summary" templates of the batch mode, with the
      percentage each one shows. */
  datatype Summary =
    | Recommended(positivePercent: real)
    | ImprovementInitiated(negativePercent: real)
    | MixedFeedback

  function SummaryLabel(s: Summary): Label
  {
    match s
    case Recommended(_) => Positive
    case ImprovementInitiated(_) => Negative
    case MixedFeedback => Neutral
  }

  /** What the batch mode shows: the batch result, the overall banner and the
      summary. */
  datatype BatchView = BatchView(results: BatchResult, overall: Label, summary: Summary)

  /** The batch branch for a list of reviews; an empty list shows nothing, so
      every division below has a positive divisor. */
  function BatchReport(score: Scorer, reviews: seq<string>): (v: Option<BatchView>)
    ensures v.Some? <==> |reviews| > 0
    ensures v.Some? ==> v.value.results == AnalyzeComments(score, reviews)
    ensures v.Some? ==> v.value.overall == LabelOf(v.value.results.averageScores.compound)
    ensures v.Some? ==> SummaryLabel(v.value.summary) == v.value.overall
    ensures v.Some? && v.value.summary.Recommended? ==>
              && v.value.summary.positivePercent * |reviews| as real == 100.0 * |v.value.results.positive| as real
              && 0.0 <= v.value.summary.positivePercent <= 100.0
    ensures v.Some? && v.value.summary.ImprovementInitiated? ==>
              && v.value.summary.negativePercent * |reviews| as real == 100.0 * |v.value.results.negative| as real
              && 0.0 <= v.value.summary.negativePercent <= 100.0
  {
    if |reviews| == 0 then None
    else
      var results := AnalyzeComments(score, reviews);
      var compound := results.averageScores.compound;
      var overall :=
        if compound >= 0.05 then Positive
        else if compound <= -0.05 then Negative
        else Neutral;
      var totalReviews := |reviews|;
      var summary :=
        if compound >= 0.05 then Recommended(Percentage(|results.positive|, totalReviews))
        else if compound <= -0.05 then ImprovementInitiated(Percentage(|results.negative|, totalReviews))
        else MixedFeedback;
      Some(BatchView(results, overall, summary))
  }

  /** The "Analyze File" branch: load the upload, then report on it. */
  function AnalyzeUpload(
    score: Scorer,
    file: Option<Upload>,
    readJson: string -> seq<string>,
    readCsv: string -> seq<string>): (v: Option<BatchView>)
    ensures v.Some? <==> |LoadFileContent(file, readJson, readCsv)| > 0
    ensures v.Some? ==> v.value.results == AnalyzeComments(score, LoadFileContent(file, readJson, readCsv))
    ensures file.None? ==> v == None
    ensures file.Some? && FormatOf(file.value.name) == Unsupported ==> v == None
    ensures file.Some? && FormatOf(file.value.name) == Txt ==>
              (v == None <==> AllSpace(file.value.content))
  {
    BatchReport(score, LoadFileContent(file, readJson, readCsv))
  }

  /** A `.txt` upload with some non-blank text is reported on, and the report
      analyzes exactly its stripped non-blank lines, in file order. */
  lemma {:induction false} TxtUploadAnalyzesItsLines(
    score: Scorer,
    name: string,
    content: string,
    readJson: string -> seq<string>,
    readCsv: string -> seq<string>)
    requires FormatOf(name) == Txt
    requires !AllSpace(content)
    ensures var v := AnalyzeUpload(score, Some(Upload(name, content)), readJson, readCsv);
            && v.Some?
            && v.value.results == AnalyzeComments(score, TxtLines(content))
            && v.value.results.Size() == |TxtLines(content)|
  {
  }

  /** A one-line `.txt` upload is analyzed as the single review made of that
      line stripped, and agrees with single-review analysis of it. */
  lemma {:induction false} OneLineTxtUpload(
    score: Scorer,
    name: string,
    line: string,
    readJson: string -> seq<string>,
    readCsv: string -> seq<string>)
    requires FormatOf(name) == Txt
    requires '\n' !in line && !AllSpace(line)
    ensures var v := AnalyzeUpload(score, Some(Upload(name, line)), readJson, readCsv);
            var a := AnalyzeReview(score, Strip(line));
            && v.Some?
            && v.value.results.BucketFor(a.sentiment) == [Strip(line)]
            && v.value.results.averageScores == a.scores
  {
    TxtLinesOfOneLine(line);
    SingletonBatch(score, Strip(line));
  }

  /** The dashboard's summary and the analyzer's customer conclusion agree on
      a non-empty batch: same template, same percentage. */
  lemma {:induction false} SummaryAgreesWithConclusion(score: Scorer, reviews: seq<string>)
    requires |reviews| > 0
    ensures var v := BatchReport(score, reviews).value;
            var c := GenerateCustomerConclusion(v.results);
            && c.Concluded?
            && SummaryLabel(v.summary) == ConclusionLabel(c.conclusion)
            && (v.summary.Recommended? ==> v.summary.positivePercent == c.conclusion.positivePercent)
            && (v.summary.ImprovementInitiated? ==> v.summary.negativePercent == c.conclusion.negativePercent)
  {
  }
}
