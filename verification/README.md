# Product review sentiment analyzer: a Dafny model

This project models the core of a small product-review sentiment analyzer.
An external lexicon scorer (VADER) gives each review four scores: `pos`,
`neu`, `neg` and `compound`. The analyzer maps the compound score to one of
three labels (`positive`, `neutral`, `negative`) with inclusive thresholds at
+0.05 and -0.05. It folds a batch of reviews into three order-preserving
buckets plus the average of each score component, and it picks the conclusion
template from the batch's average compound. The dashboard reads plain-text
uploads line by line and selects its narratives with the same threshold rule.

The scorer is not modelled. It is the parameter `score: Scorer` (a total
function `string -> ScoreVector`) of every operation that scores text, and
nothing is assumed about its output (no range, no `pos + neu + neg == 1`).
Scores are `real`, so there is no floating-point rounding.

Modules, one per source component:

- `Scores` (`scores.dfy`): `ScoreVector`, `Label` and the classifier `LabelOf`.
- `Analyzer` (`analyzer.dfy`): the `ProductSentimentAnalyzer` class of
  `src/analyzer/sentiment_analyzer.py`. It has a fold (`Record`/`Fold`) that
  mirrors the loop of `analyze_comments`, plus independent reference
  definitions: `Bucket` filters from the front and `Total` sums from the
  front.
- `ProductScript` (`product_sentiment_analysis.py`): the script's own
  threshold chain and its bucket-only fold.
- `Ingestion` (`ingestion.dfy`): `load_file_content`. This covers Python's
  `split`, `strip` and `lower` as used there, extension dispatch, and the
  `.txt` reader.
- `Dashboard` (`dashboard.dfy`): which narrative, banner and summary `main`
  selects in its two modes.
- `Maybe` (`maybe.dfy`): `Option`, for Python's `None`.

## Model

| member | source | states |
|---|---|---|
| `Scores.LabelOf` | src/analyzer/sentiment_analyzer.py:42-48 | The label is positive iff compound >= 0.05, negative iff compound <= -0.05, and neutral iff it lies strictly between; the function is total |
| `Scores.LabelBoundaries` | src/analyzer/sentiment_analyzer.py:44-48 | Both boundaries are inclusive: 0.05 is positive, -0.05 is negative, and ±0.049 and 0 are neutral |
| `Analyzer.AnalyzeReview` | src/analyzer/sentiment_analyzer.py:7-15 | The result carries the input text and the scorer's scores unchanged, and its sentiment is the label of the compound score |
| `Analyzer.RecordAppends` | src/analyzer/sentiment_analyzer.py:27-32 | One loop iteration appends the comment to its own label's bucket only and adds its scores to the running sums |
| `Analyzer.Fold` | src/analyzer/sentiment_analyzer.py:26-32 | Folding from any accumulator appends each label's filtered sub-sequence to that bucket and adds the component-wise total to the sums |
| `Analyzer.FoldFromEmpty` | src/analyzer/sentiment_analyzer.py:19-32 | The loop started from empty buckets and zero sums ends with each label's filtered input and the component-wise total |
| `Analyzer.AnalyzeComments` | src/analyzer/sentiment_analyzer.py:17-40 | Each bucket is the input filtered by its label; bucket sizes add up to the input size; an empty input gives empty buckets and all-zero averages; otherwise each average is the component total divided by n |
| `Analyzer.BucketsPartition` | src/analyzer/sentiment_analyzer.py:26-28 | Every comment lands in exactly one bucket: the lengths sum to the input length, and the buckets' multisets sum to the input's multiset |
| `Analyzer.BucketsPartitionLength` | src/analyzer/sentiment_analyzer.py:26-28 | The three bucket lengths sum to the input length |
| `Analyzer.BucketMembership` | src/analyzer/sentiment_analyzer.py:26-28 | A string is in the bucket of l iff it is in the input and its label is l |
| `Analyzer.BucketAppend` | src/analyzer/sentiment_analyzer.py:26-28 | Bucketing preserves input order: the bucket of a + b is the bucket of a followed by the bucket of b |
| `Analyzer.BucketsDisjoint` | src/analyzer/sentiment_analyzer.py:26-28 | No comment appears in two different buckets of a batch result |
| `Analyzer.SingletonBatch` | src/analyzer/sentiment_analyzer.py:7-40 | A one-review batch puts the review in the bucket of its single-review sentiment and nowhere else, and its averages equal that review's scores |
| `Analyzer.TotalUniform` | src/analyzer/sentiment_analyzer.py:31-32 | If every comment scores s, the summed scores are n copies of s |
| `Analyzer.UniformBatch` | src/analyzer/sentiment_analyzer.py:31-38 | A non-empty batch whose reviews all score s averages to exactly s |
| `Analyzer.Percentage` | src/analyzer/sentiment_analyzer.py:58-59 | The percentage times the total is 100 times the count, and it lies in [0, 100] when the count does not exceed the total |
| `Analyzer.GenerateCustomerConclusion` | src/analyzer/sentiment_analyzer.py:50-84 | The call fails with a division by zero iff all buckets are empty; otherwise the template follows the threshold rule on the average compound, and the percentage shown is the positive or negative share of all bucketed reviews, in [0, 100] |
| `Analyzer.ConclusionOfBatch` | src/analyzer/sentiment_analyzer.py:52-62 | On an analyzed batch the conclusion fails exactly when the input was empty, and otherwise follows the label of the average compound |
| `ProductScript.AnalyzeSentiment` | product_sentiment_analysis.py:17-28 | The script's label is positive iff compound >= 0.05, negative iff compound <= -0.05, and neutral otherwise |
| `ProductScript.SentimentAgreesWithClassifier` | product_sentiment_analysis.py:23-28 | The script's threshold chain agrees with the analyzer's classifier on every text |
| `ProductScript.PlaceAppends` | product_sentiment_analysis.py:38-39 | One iteration appends the comment to exactly the bucket of its label |
| `ProductScript.Categorize` | product_sentiment_analysis.py:37-39 | Folding from any accumulator appends to each bucket the input filtered by that label, in order |
| `ProductScript.AnalyzeProductComments` | product_sentiment_analysis.py:30-41 | Each bucket is the input filtered by its label; the lengths sum to the input length; an empty input yields three empty buckets |
| `ProductScript.AgreesWithAnalyzeComments` | product_sentiment_analysis.py:30-41 | With the same scorer, the script's buckets equal the bucket fields of `analyze_comments` on the same input |
| `Ingestion.TrimStart` | app_streamlit.py:24 | The result is no longer than the input, every character removed from the front is whitespace, and the result does not start with whitespace |
| `Ingestion.TrimEnd` | app_streamlit.py:24 | The result is a prefix of the input, every character removed from the end is whitespace, and the result does not end with whitespace |
| `Ingestion.TrimStartIsSuffix` | app_streamlit.py:24 | Trimming the start keeps exactly the suffix of the input after an all-whitespace prefix |
| `Ingestion.TrimEndLeavesSpace` | app_streamlit.py:24 | What trimming the end removes is all whitespace |
| `Ingestion.Strip` | app_streamlit.py:24 | The stripped text is empty iff the input is all whitespace; otherwise it has no whitespace at either end |
| `Ingestion.StripIsSlice` | app_streamlit.py:24 | Stripping removes only whitespace: the result is a contiguous slice of the input with whitespace on both sides of it |
| `Ingestion.StripTrimmed` | app_streamlit.py:24 | Stripping a line that is already trimmed, or an empty string, changes nothing |
| `Ingestion.StripIdempotent` | app_streamlit.py:24 | Stripping twice is the same as stripping once |
| `Ingestion.Split` | app_streamlit.py:24 | Splitting gives exactly one more piece than there are separators, and no piece contains the separator |
| `Ingestion.JoinSplit` | app_streamlit.py:24 | Joining the pieces with the separator gives back the original string |
| `Ingestion.SplitJoin` | app_streamlit.py:24 | A non-empty list of pieces with no separator in them splits back into itself after joining |
| `Ingestion.SplitAppend` | app_streamlit.py:24 | Splitting a + sep + b gives the pieces of a followed by the pieces of b |
| `Ingestion.LastPieceIsSuffix` | app_streamlit.py:9 | The last piece is the whole string when there is no separator; otherwise it is the suffix after the last separator |
| `Ingestion.FileExtension` | app_streamlit.py:9 | The extension has no dot and is no longer than the name. It is the lowercased whole name when the name has no dot, and otherwise the name has a dot right before the text it came from |
| `Ingestion.ExtensionIsSuffix` | app_streamlit.py:9 | The extension is the lowercased text that ends the name |
| `Ingestion.ExtensionAfterLastDot` | app_streamlit.py:9 | For any stem, the extension of stem + "." + ext is ext lowercased, provided ext has no dot |
| `Ingestion.FormatAfterLastDot` | app_streamlit.py:9-21 | The format of stem + "." + ext is the format of ext alone, for any stem, provided ext has no dot |
| `Ingestion.UpperCaseTxt` | app_streamlit.py:9-21 | Dispatch ignores letter case: any name ending in `.TXT` is read as plain text |
| `Ingestion.LastDotDecides` | app_streamlit.py:9-11 | Only the last dot counts: any name ending in `.txt.json` is read as JSON |
| `Ingestion.DotlessName` | app_streamlit.py:9-21 | A name without a dot is its own extension: a file named `txt` is read as plain text |
| `Ingestion.NonBlankLines` | app_streamlit.py:24 | There are at most as many lines as pieces, and every line kept is non-empty with no whitespace at either end |
| `Ingestion.KeepLine` | app_streamlit.py:24 | A piece contributes at most one line, and that line is non-empty with no whitespace at either end |
| `Ingestion.KeepLineIsStrippedPiece` | app_streamlit.py:24 | A piece contributes nothing iff it is all whitespace, and otherwise contributes exactly its stripped form |
| `Ingestion.NonBlankLinesEmpty` | app_streamlit.py:24 | No line survives iff every piece is all whitespace |
| `Ingestion.NonBlankLinesMembership` | app_streamlit.py:24 | A string is among the kept lines iff it is non-empty and is the stripped form of some piece |
| `Ingestion.NonBlankLinesAppend` | app_streamlit.py:24 | Filtering pieces keeps order: the lines kept from ps + qs are those kept from ps followed by those kept from qs |
| `Ingestion.TxtLines` | app_streamlit.py:21-24 | Every line is trimmed and non-empty. There are at most (number of line feeds + 1) lines, and there are none iff the content is all whitespace |
| `Ingestion.NoLinesWhenBlank` | app_streamlit.py:24 | Content made only of whitespace and line feeds yields no lines, and nothing else does |
| `Ingestion.TxtLinesMembership` | app_streamlit.py:24 | A string is a review of a `.txt` body iff it is non-empty and is the stripped form of one of the body's line-feed-separated lines |
| `Ingestion.TxtLinesOfOneLine` | app_streamlit.py:24 | Text without a line feed yields its stripped form as the only review, or nothing when it is blank |
| `Ingestion.TxtLinesAppend` | app_streamlit.py:24 | Lines keep their order: the lines of a + "\n" + b are the lines of a followed by the lines of b |
| `Ingestion.TxtLinesRoundTrip` | app_streamlit.py:24 | Writing trimmed, non-empty lines one per line and reading the text back gives the same lines |
| `Ingestion.TxtLinesAreStripped` | app_streamlit.py:24 | Stripping any returned line again leaves it unchanged |
| `Ingestion.LoadFileContent` | app_streamlit.py:7-29 | No file and an unsupported extension both give an empty list. A `.txt` upload gives exactly the `.txt` reader's lines of the body: trimmed, non-empty, and none iff the body is all whitespace. `.json` and `.csv` go to their readers |
| `Dashboard.SingleReview` | app_streamlit.py:55-115 | Something is shown iff the input is non-empty. It shows the analysis of the input, and the narrative follows the threshold rule on the review's compound, agreeing with the review's sentiment |
| `Dashboard.BatchReport` | app_streamlit.py:138-249 | Something is shown iff the review list is non-empty, so every division has a positive divisor. The banner and the summary both follow the threshold rule on the average compound, and each percentage is the bucket's share of all reviews, in [0, 100] |
| `Dashboard.AnalyzeUpload` | app_streamlit.py:135-140 | A report is shown iff the loaded review list is non-empty, and it is the batch analysis of exactly those reviews. A missing file, an unsupported extension, or an all-whitespace `.txt` body shows nothing |
| `Dashboard.TxtUploadAnalyzesItsLines` | app_streamlit.py:135-140 | A `.txt` upload with some non-blank text is reported on, and the report analyzes exactly its stripped non-blank lines, one bucket entry per line |
| `Dashboard.OneLineTxtUpload` | app_streamlit.py:135-140 | A one-line non-blank `.txt` upload is analyzed as the single stripped line: it sits in the bucket of its own sentiment and the averages are its scores |
| `Dashboard.SummaryAgreesWithConclusion` | app_streamlit.py:207-228 | On a non-empty batch the dashboard's summary and the analyzer's customer conclusion pick the same template and show the same percentage |

## Left out

- The VADER scorer's internals: it is a third-party library. It is a parameter here, and nothing is assumed about its output. The two source files use two different packages (`vaderSentiment` and `nltk.sentiment`). `ProductScript.AgreesWithAnalyzeComments` therefore holds for one shared scorer, not for those two packages.
- Floating point: scores, thresholds and percentages are exact reals. A float compound close to ±0.05 could compare differently.
- The `int(x * 100)` truncation of every displayed percentage (app_streamlit.py:63-65, 148-155, 216, 228; src/analyzer/sentiment_analyzer.py:65, 72). The model keeps the untruncated percentage, because float rounding can differ from an exact floor.
- The progress-bar value `(compound + 1) / 2` (app_streamlit.py:90, 167): presentation only.
- All Streamlit and Plotly rendering, the pie charts, and the exact template text. Only which template is chosen is modelled.
- The `st.button` clicks and the input-method radio in `main`: UI events. `SingleReview` and `AnalyzeUpload` model what happens after the click.
- JSON and CSV parsing (`json.load`, `pd.read_csv`): library code and file I/O. They are the parameters `readJson` and `readCsv`, including the `get('comments', [])` default. These readers are total functions to lists of strings, so their exceptions (malformed JSON, `.get` on a non-object value, a file with no columns) and non-string elements such as NaN from `tolist()` are out of scope.
- UTF-8 decoding of an uploaded `.txt` body: `Upload.content` is the decoded text, and a decoding failure is not modelled.
- Ingestion.FileExtension: lowercases only ASCII `A`-`Z`, whereas Python's `str.lower` is full Unicode. No non-ASCII character lowercases to a letter of `json`, `csv` or `txt`, so dispatch is unaffected.
- `utils/customization.py`: an HTTP call with a bearer token, a TTL cache and CSS injection. This is network I/O and framework glue.
- `app.py`: it reads a JSON file and prints `analyze_comments` output.
- The SSL context patch and `nltk.download` in product_sentiment_analysis.py:7-15: environment side effects.
- Exceptions raised by the scorer: the source does not catch them, so a failing scorer aborts the whole batch. The model's scorer is total.
