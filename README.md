# Restaurant review sentiment labelling, modelled in Dafny

This project models the core of the restaurant review chatbot: the
`Restaurant` class that reads the `Review` column of a table and labels
each review. The class does four things:

- **Normaliser** (`clean_text`): lower-cases a review, deletes every
  character that is neither a word character nor whitespace, strips both
  ends and collapses whitespace runs into one space. If it raises, it hands
  its argument back unchanged.
- **Classifier** (`get_sentiment`): scores the cleaned text with an
  external polarity scorer. A polarity above 0.1 is Positive, below -0.1 is
  Negative, anything else is Neutral. A successful polarity is appended to
  `sentiment_scores`. If the scorer raises, the answer is
  `("Neutral", 0.0)` and nothing is appended.
- **Review loop** (`feedback`): walks the reviews in order. It skips
  greetings (the whole lower-cased review equals one of six phrases) and
  cells that are not strings, which raise at `review.lower()`. For every
  other review it raises one count of `sentiment_counts` and appends a
  record to `processed_reviews`.
- **Summary** (`print_summary`): the total of the counts, one percentage
  per category with a guard against a zero total, and polarity statistics
  only when some polarity was recorded.

Files:

- `text.dfy` (module `Text`): the normaliser over ASCII strings, with its
  canonical shape (`IsClean`), idempotence and word preservation.
- `classifier.dfy` (module `Classifier`): the thresholds and the
  scorer-or-fallback pair.
- `reviews.dfy` (module `Reviews`): the `Restaurant` class, with fields
  `sentimentCounts` (a map), `sentimentScores` and `processedReviews`
  (sequences), and the methods `GetSentiment` and `Feedback`. `Feedback`
  is a loop proved against the pure specification `Run` (a fold of `Step`).
  Lemmas about `Run` state the invariants the loop keeps. `Labels` is an
  independent left-to-right description of the records a run produces.
- `summary.dfy` (module `Summary`): the arithmetic of the summary.
- `wrappers.dfy` (module `Wrappers`): the `Option` type.

The polarity scorer (TextBlob) is a parameter `scorer: string -> Option<real>`.
`None` stands for "the scorer raised". Reading the table is also left to
the caller: `Feedback` takes the `Review` column as a sequence of cells.
Each cell is a `Str` or a `NonStr`, for example NaN for an empty cell.

A failed scoring appends nothing to the scores: the append at line 71 of
`Restaurant_Reviews_Chatbot.py` comes after the scorer call, so an exception
skips it, and the `(Neutral, 0.0)` fallback is returned without being
recorded as a score. `GetSentiment` and `Step` model that. So
`sentimentScores` can be shorter than `processedReviews`, and the model
proves `|scores| <= |records|`.

Character classes follow Python's `str` semantics restricted to ASCII. `\w`
is `[A-Za-z0-9_]`. `\s` and `str.strip()` use `str.isspace()`, which in
ASCII is tab, line feed, vertical tab, form feed, carriage return, the
four separators 0x1C to 0x1F, and space.

Polarities are doubles in the source and reals here. The code only
compares them with the constants 0.1 and -0.1. The real 0.1 stands for the
double nearest 0.1, and likewise for -0.1, so every comparison comes out
the same.

## Model

| member | source | states |
|---|---|---|
| `Text.CleanText` | Restaurant_Reviews_Chatbot.py:55-60 | `clean_text` on a string: lower-case, filter, strip, collapse, in that order |
| `Text.LowerStr` | Restaurant_Reviews_Chatbot.py:58 | `text.lower()`, character by character, keeping the length |
| `Text.Keep` | Restaurant_Reviews_Chatbot.py:58 | the `[^\w\s]` deletion, one character at a time |
| `Text.Strip` | Restaurant_Reviews_Chatbot.py:59 | `text.strip()`, as `rstrip` after `lstrip` |
| `Text.Collapse` | Restaurant_Reviews_Chatbot.py:59 | the `\s+` to `' '` substitution, emitting the space at the last character of each run |
| `Text.CleanTextIsClean` | Restaurant_Reviews_Chatbot.py:55-60 | the cleaned text holds only lower-case word characters and single spaces, with no space at either end and never two spaces in a row |
| `Text.CleanTextIdempotent` | Restaurant_Reviews_Chatbot.py:55-60 | cleaning the cleaned text changes nothing |
| `Text.CleanTextFixes` | Restaurant_Reviews_Chatbot.py:58-59 | text already in the clean shape passes through every step of the cleaning unchanged |
| `Text.CleanTextKeepsWords` | Restaurant_Reviews_Chatbot.py:58-59 | apart from spaces, the cleaned text is exactly the word characters of the lower-cased input, in their original order |
| `Text.CleanValueIsClean` | Restaurant_Reviews_Chatbot.py:55-63 | a string is cleaned into the clean shape; a value that is not a string raises at `.lower()` and is returned unchanged |
| `Text.CleanValue` | Restaurant_Reviews_Chatbot.py:61-63 | the exception path returns the argument itself; a string stays a string |
| `Text.KeepProps` | Restaurant_Reviews_Chatbot.py:58 | the `[^\w\s]` deletion keeps only word and whitespace characters of its input, all of them when nothing else is present, and a single character exactly when it is one of those |
| `Text.KeepAppend` | Restaurant_Reviews_Chatbot.py:58 | the deletion works character by character: filtering two pieces is filtering their concatenation, so every word or whitespace character is kept in order and every other one deleted |
| `Text.StripProps` | Restaurant_Reviews_Chatbot.py:59 | `strip()` leaves no whitespace at either end, keeps only input characters, and changes nothing already stripped |
| `Text.StripIsSlice` | Restaurant_Reviews_Chatbot.py:59 | `strip()` returns a slice `s[a..b]` of its input with only whitespace outside it; with `StripProps` it is exactly the input without its leading and trailing whitespace |
| `Text.CollapseProps` | Restaurant_Reviews_Chatbot.py:59 | `\s+` to `' '` leaves no two adjacent spaces, keeps exactly the non-whitespace characters in their order, and keeps a non-whitespace first or last character in place |
| `Text.CollapseRun` | Restaurant_Reviews_Chatbot.py:59 | a non-empty run of whitespace becomes exactly one space |
| `Text.CollapseAppend` | Restaurant_Reviews_Chatbot.py:59 | the substitution works piece by piece wherever the cut does not split a whitespace run, so each maximal run becomes one space and everything else is kept in order |
| `Text.CollapseFixes` | Restaurant_Reviews_Chatbot.py:59 | text with only single spaces as whitespace is not changed by the collapse |
| `Classifier.Classify` | Restaurant_Reviews_Chatbot.py:73-78 | Positive exactly when the polarity is above 0.1, Negative exactly when below -0.1, Neutral exactly on [-0.1, 0.1], boundaries included |
| `Classifier.ClassifyMonotone` | Restaurant_Reviews_Chatbot.py:73-78 | a higher polarity never gets a lower category |
| `Classifier.Polarity` | Restaurant_Reviews_Chatbot.py:68-70 | a value that is not a string never gets a polarity (TextBlob refuses it and raises) |
| `Classifier.Analyse` | Restaurant_Reviews_Chatbot.py:65-83 | the returned category always agrees with the returned polarity; on success the polarity is the scorer's; on failure the pair is ("Neutral", 0.0) |
| `Reviews.Restaurant.constructor` | Restaurant_Reviews_Chatbot.py:47-53 | counts start at zero for exactly the three categories, scores and records start empty, and the invariant of the loop holds |
| `Reviews.Restaurant.GetSentiment` | Restaurant_Reviews_Chatbot.py:65-83 | returns the pair `Analyse` describes; appends exactly the polarity when scoring succeeds and nothing when it raises; changes no other field |
| `Reviews.Restaurant.Feedback` | Restaurant_Reviews_Chatbot.py:99-128 | the new counts, scores and records are those of `Run` over the reviews from the old state; the count keys stay the three categories; the consistency invariant is kept |
| `Reviews.IsGreeting` | Restaurant_Reviews_Chatbot.py:110 | the whole raw review, lower-cased, equals one of the six greeting phrases |
| `Reviews.Skipped` | Restaurant_Reviews_Chatbot.py:110-127 | a review the loop passes over: a greeting, or a cell that is not a string and raises at `.lower()` |
| `Reviews.Run` | Restaurant_Reviews_Chatbot.py:106-127 | the loop as a fold of `Step` over the reviews in order; the three count keys stay the three categories |
| `Reviews.Step` | Restaurant_Reviews_Chatbot.py:106-127 | a greeting or a value that is not a string leaves counts, scores and records exactly as they were |
| `Reviews.StepEffect` | Restaurant_Reviews_Chatbot.py:114-120 | an iteration that does not skip appends one record with the raw review and a label matching its polarity, and raises exactly that label's count by one; when scoring succeeds the record holds the scorer's polarity and it is appended to the scores, when it fails the record is the Neutral 0.0 fallback and the scores are unchanged |
| `Reviews.StepConsistent` | Restaurant_Reviews_Chatbot.py:114-120 | one iteration keeps the invariant: each count equals the number of records with that label, at most one score per record, every label agrees with its polarity |
| `Reviews.RunConsistent` | Restaurant_Reviews_Chatbot.py:106-127 | the whole loop keeps that invariant |
| `Reviews.ConsistentTotal` | Restaurant_Reviews_Chatbot.py:115-120 | under the invariant the three counts add up to the number of records |
| `Reviews.CountsSum` | Restaurant_Reviews_Chatbot.py:115 | every record is counted under exactly one of the three labels |
| `Reviews.RunGrows` | Restaurant_Reviews_Chatbot.py:115-120 | counts never decrease, and the loop only appends to the records and the scores |
| `Reviews.RunIsLabels` | Restaurant_Reviews_Chatbot.py:106-120 | the loop appends exactly the records and the scores of the reviews it is given, in input order |
| `Reviews.LabelsAppend` | Restaurant_Reviews_Chatbot.py:106 | labelling two parts of the input one after the other gives the records and scores of the whole, in order |
| `Reviews.LabelsFromInput` | Restaurant_Reviews_Chatbot.py:110-117 | every record holds the raw, uncleaned text of an input review that is a string and not a greeting |
| `Reviews.LabelsCount` | Restaurant_Reviews_Chatbot.py:110-120 | there is one record per review not skipped, and at most that many scores |
| `Reviews.FeedbackFromInitial` | Restaurant_Reviews_Chatbot.py:47-127 | after `__init__` and the loop, the records are the labelled reviews, each count is the number of them with that label, and the total is the number of reviews not skipped |
| `Reviews.ThreeReviewsAndAGreeting` | Restaurant_Reviews_Chatbot.py:106-120 | three scored reviews (0.7, -0.8, 0.0) and a greeting give three records in order, one count per category, and three scores |
| `Reviews.ExampleGreetings` | Restaurant_Reviews_Chatbot.py:48 | "hello" is a greeting; "I loved the food", "terrible service" and "it was fine" are not |
| `Reviews.RunSnoc` | Restaurant_Reviews_Chatbot.py:106 | one more review at the end is one more iteration |
| `Summary.Percentage` | Restaurant_Reviews_Chatbot.py:169 | 0 when the total is 0; otherwise the percentage times the total is the count times 100, and a count within the total gives a value in [0, 100] |
| `Summary.PercentagesSum` | Restaurant_Reviews_Chatbot.py:165-170 | with a non-zero total the three percentages add up to 100 |
| `Reviews.Total` | Restaurant_Reviews_Chatbot.py:165 | the sum of the three counts |
| `Summary.Summarize` | Restaurant_Reviews_Chatbot.py:162-177 | the total is the sum of the counts; three lines in the order Positive, Neutral, Negative, each with its count and its `Percentage` of the total, in [0, 100]; all 0 for a zero total, summing to 100 otherwise; the statistics are those of `Statistics` on the scores, present exactly when there are scores |
| `Summary.Statistics` | Restaurant_Reviews_Chatbot.py:172-176 | statistics exist exactly when the score list is non-empty; min and max are scores bounding every score; the mean lies between them |
| `Summary.Min` | Restaurant_Reviews_Chatbot.py:175 | the minimum is one of the scores and no score is below it |
| `Summary.Max` | Restaurant_Reviews_Chatbot.py:176 | the maximum is one of the scores and no score is above it |
| `Summary.SumBounds` | Restaurant_Reviews_Chatbot.py:174 | the sum of values within [lo, hi] lies within [n * lo, n * hi] |
| `Summary.MeanBounds` | Restaurant_Reviews_Chatbot.py:174 | the mean of values within [lo, hi] lies within [lo, hi] |
| `Summary.SummaryTotalIsRecords` | Restaurant_Reviews_Chatbot.py:165-167 | after the loop the summary's total is the number of processed reviews |

## Left out

- Reading the TSV file and checking for the `Review` column (`load_data`, lines 85-97), and the `sys.exit` on failure: file I/O and process exit. `Feedback` takes the column as a sequence of cells.
- TextBlob's polarity computation (lines 69-70): an external lexicon library. It is the `scorer` parameter.
- Logging, console output, `log_and_print`, the Python version check, the `tqdm` progress bar and `argparse` (lines 19-44, 183-199): environment and output plumbing. The logging call at line 108 passes the review as the log level. That has no effect on the modelled state.
- `save_results` (lines 132-141) and `plot_sentiment_percentages` (lines 143-160): CSV export and chart rendering. The exported rows are exactly `processedReviews`.
- Summary.Statistics: the standard deviation (line 177) is left out, because it needs a square root. Mean, minimum and maximum are exact reals, while numpy computes the mean in floating point with rounding.
- Summary.PercentagesSum: the sum is exactly 100 over the reals. The source's double arithmetic may be off by a rounding error.
- The `try`/`except` around `print_summary` (lines 164, 180-181): nothing in the modelled arithmetic raises.
- Full Unicode semantics of `str.lower`, `\w` and `\s`: the model covers ASCII only. A non-ASCII letter, which Python's `\w` keeps, is deleted by the model's `Keep`.
- `self.name` and `self.input_iterator`: they only feed messages and the progress bar.
- The model covers `Restaurant_Reviews_Chatbot.py` only. The older two-category variant `Edunet Foundation - AI.py` is not part of this model.
