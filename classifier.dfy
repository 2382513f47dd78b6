/**
 * The three-way sentiment labelling of `Restaurant.get_sentiment`: the
 * polarity of the cleaned review is compared against two fixed thresholds.
 *
 * Polarities are doubles in the source and reals here. Only comparisons
 * against the two threshold constants are made, so the model reads the real
 * 0.1 as the double nearest to it; every comparison then agrees.
 */
module Classifier {
  import opened Wrappers
  import opened Text

  datatype Sentiment = Positive | Neutral | Negative

  /** The external polarity scorer, `TextBlob(text).sentiment.polarity`:
      `Some(p)` when it returns `p`, `None` when it raises. */
  type Scorer = string -> Option<real>

  /** The if/elif chain on the polarity: both boundaries are Neutral. */
  function Classify(polarity: real): (s: Sentiment)
    ensures s == Positive <==> polarity > 0.1
    ensures s == Negative <==> polarity < -0.1
    ensures s == Neutral <==> -0.1 <= polarity <= 0.1
  {
    if polarity > 0.1 then Positive
    else if polarity < -0.1 then Negative
    else Neutral
  }

  /** Orders the categories from negative to positive. */
  function Rank(s: Sentiment): nat
  {
    match s
    case Negative => 0
    case Neutral => 1
    case Positive => 2
  }

  /** A higher polarity never yields a lower category. */
  lemma ClassifyMonotone(p: real, q: real)
    requires p <= q
    ensures Rank(Classify(p)) <= Rank(Classify(q))
  {
  }

  /** The polarity `get_sentiment` obtains: the scorer applied to the cleaned
      text. A non-string comes back from `clean_text` unchanged and TextBlob
      refuses it, which raises. */
  function Polarity(text: Value, scorer: Scorer): (r: Option<real>)
    ensures text.NonStr? ==> r.None?
  {
    match CleanValue(text)
    case Str(cleaned) => scorer(cleaned)
    case NonStr => None
  }

  /** The pair `get_sentiment` returns: the category and the polarity when the
      scorer succeeds, `("Neutral", 0.0)` when it raises. */
  function Analyse(text: Value, scorer: Scorer): (r: (Sentiment, real))
    ensures r.0 == Classify(r.1)
    ensures Polarity(text, scorer).Some? ==> r.1 == Polarity(text, scorer).value
    ensures Polarity(text, scorer).None? ==> r == (Neutral, 0.0)
  {
    match Polarity(text, scorer)
    case Some(p) => (Classify(p), p)
    case None => (Neutral, 0.0)
  }
}
