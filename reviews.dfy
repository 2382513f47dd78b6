/**
 * The `Restaurant` class and its review loop `feedback`: every review of the
 * `Review` column is either skipped (a greeting, or a value that is not a
 * string) or labelled, counted in `sentiment_counts` and recorded in
 * `processed_reviews`; successful polarities also go to `sentiment_scores`.
 *
 * `Step` and `Run` state what one iteration and the whole loop do to that
 * state; `Labels` is an independent description of the records a run
 * produces, and the lemmas connect the two.
 */
module Reviews {
  import opened Wrappers
  import opened Text
  import opened Classifier

  /** `self.greetings`. */
  const Greetings: seq<string> := ["hello", "hi", "hey", "greetings", "sup", "what's up"]

  /** The greeting test of the loop: the whole raw review, lower-cased, must
      equal one of the phrases. */
  predicate IsGreeting(s: string) { LowerStr(s) in Greetings }

  /** A review the loop leaves without effect: a non-string raises at
      `review.lower()` and the handler moves on; a greeting is answered and
      skipped. */
  predicate Skipped(review: Value) { review.NonStr? || IsGreeting(review.text) }

  const AllSentiments: set<Sentiment> := {Positive, Neutral, Negative}

  /** One entry of `processed_reviews`. */
  datatype Record = Record(review: string, sentiment: Sentiment, polarity: real)

  /** The state `feedback` updates: `sentiment_counts`, `sentiment_scores`
      and `processed_reviews`. */
  datatype Tally = Tally(counts: map<Sentiment, nat>, scores: seq<real>, records: seq<Record>)

  /** The state `__init__` sets up. */
  const Initial: Tally := Tally(map[Positive := 0, Neutral := 0, Negative := 0], [], [])

  /** What `get_sentiment` appends to `sentiment_scores`. */
  function Appended(p: Option<real>): seq<real>
  {
    match p
    case Some(v) => [v]
    case None => []
  }

  /** The sum of the three counts, as `print_summary` computes it. */
  function Total(counts: map<Sentiment, nat>): nat
    requires counts.Keys == AllSentiments
  {
    counts[Positive] + counts[Neutral] + counts[Negative]
  }

  /** The number of records labelled `c`. */
  function CountOf(records: seq<Record>, c: Sentiment): (n: nat)
    ensures n <= |records|
  {
    if records == [] then 0
    else CountOf(records[..|records| - 1], c) + (if records[|records| - 1].sentiment == c then 1 else 0)
  }

  /** One iteration of the loop in `feedback`. */
  function Step(t: Tally, review: Value, scorer: Scorer): (r: Tally)
    requires t.counts.Keys == AllSentiments
    ensures r.counts.Keys == AllSentiments
    ensures Skipped(review) ==> r == t
  {
    if Skipped(review) then t
    else
      var (sentiment, polarity) := Analyse(review, scorer);
      Tally(t.counts[sentiment := t.counts[sentiment] + 1],
            t.scores + Appended(Polarity(review, scorer)),
            t.records + [Record(review.text, sentiment, polarity)])
  }

  /** An iteration that does not skip its review appends exactly one record,
      holding the raw review and a label that agrees with its polarity, and
      raises exactly the count of that label by one. When scoring succeeds the
      record carries the scorer's polarity and that polarity is appended to the
      scores; when it fails the record is the Neutral 0.0 fallback and the
      scores are left as they were. */
  lemma StepEffect(t: Tally, review: Value, scorer: Scorer)
    requires t.counts.Keys == AllSentiments && !Skipped(review)
    ensures var r := Step(t, review, scorer);
      && |r.records| == |t.records| + 1
      && r.records[..|t.records|] == t.records
      && var rec := r.records[|t.records|];
      && rec.review == review.text
      && rec.sentiment == Classify(rec.polarity)
      && r.counts == t.counts[rec.sentiment := t.counts[rec.sentiment] + 1]
      && (Polarity(review, scorer).Some? ==>
            rec.polarity == Polarity(review, scorer).value && r.scores == t.scores + [rec.polarity])
      && (Polarity(review, scorer).None? ==>
            rec == Record(review.text, Neutral, 0.0) && r.scores == t.scores)
  {
  }

  /** The loop in `feedback` over `reviews`, in order. */
  function Run(t: Tally, reviews: seq<Value>, scorer: Scorer): (r: Tally)
    requires t.counts.Keys == AllSentiments
    ensures r.counts.Keys == AllSentiments
    decreases |reviews|
  {
    if reviews == [] then t
    else Step(Run(t, reviews[..|reviews| - 1], scorer), reviews[|reviews| - 1], scorer)
  }

  /** The relations `feedback` keeps among its three pieces of state: each
      count is the number of records with that label, there is at most one
      score per record, and every label agrees with its polarity. */
  ghost predicate Consistent(t: Tally)
  {
    && t.counts.Keys == AllSentiments
    && (forall c :: c in t.counts ==> t.counts[c] == CountOf(t.records, c))
    && |t.scores| <= |t.records|
    && (forall i :: 0 <= i < |t.records| ==> t.records[i].sentiment == Classify(t.records[i].polarity))
  }

  lemma {:induction false} CountsSum(records: seq<Record>)
    ensures CountOf(records, Positive) + CountOf(records, Neutral) + CountOf(records, Negative) == |records|
  {
    if records != [] {
      CountsSum(records[..|records| - 1]);
    }
  }

  /** The three counts add up to the number of records. */
  lemma ConsistentTotal(t: Tally)
    requires Consistent(t)
    ensures Total(t.counts) == |t.records|
  {
    CountsSum(t.records);
  }

  lemma StepConsistent(t: Tally, review: Value, scorer: Scorer)
    requires Consistent(t)
    ensures Consistent(Step(t, review, scorer))
  {
  }

  lemma {:induction false} RunConsistent(t: Tally, reviews: seq<Value>, scorer: Scorer)
    requires Consistent(t)
    ensures Consistent(Run(t, reviews, scorer))
    decreases |reviews|
  {
    if reviews != [] {
      RunConsistent(t, reviews[..|reviews| - 1], scorer);
      StepConsistent(Run(t, reviews[..|reviews| - 1], scorer), reviews[|reviews| - 1], scorer);
    }
  }

  /** Counts never decrease, and no run ever removes a record or a score. */
  lemma {:induction false} RunGrows(t: Tally, reviews: seq<Value>, scorer: Scorer)
    requires t.counts.Keys == AllSentiments
    ensures forall c :: c in t.counts ==> t.counts[c] <= Run(t, reviews, scorer).counts[c]
    ensures t.records <= Run(t, reviews, scorer).records
    ensures t.scores <= Run(t, reviews, scorer).scores
    decreases |reviews|
  {
    if reviews != [] {
      var mid := Run(t, reviews[..|reviews| - 1], scorer);
      RunGrows(t, reviews[..|reviews| - 1], scorer);
      var r := Step(mid, reviews[|reviews| - 1], scorer);
      if !Skipped(reviews[|reviews| - 1]) {
        assert mid.records <= r.records;
      }
    }
  }

  /** The record a review yields, if any. */
  function Label(review: Value, scorer: Scorer): Option<Record>
  {
    if Skipped(review) then None
    else
      var (sentiment, polarity) := Analyse(review, scorer);
      Some(Record(review.text, sentiment, polarity))
  }

  /** The records one review contributes: its label, or nothing. */
  function LabelOf(review: Value, scorer: Scorer): seq<Record>
  {
    match Label(review, scorer) case Some(rec) => [rec] case None => []
  }

  /** The polarity one review contributes, if it is labelled and scored. */
  function ScoreOf(review: Value, scorer: Scorer): seq<real>
  {
    if Skipped(review) then [] else Appended(Polarity(review, scorer))
  }

  /** The records of the labelled reviews, in input order. */
  function Labels(reviews: seq<Value>, scorer: Scorer): seq<Record>
  {
    if reviews == [] then [] else LabelOf(reviews[0], scorer) + Labels(reviews[1..], scorer)
  }

  /** The polarities of the labelled reviews whose scoring succeeded, in input order. */
  function Scores(reviews: seq<Value>, scorer: Scorer): seq<real>
  {
    if reviews == [] then [] else ScoreOf(reviews[0], scorer) + Scores(reviews[1..], scorer)
  }

  /** The number of reviews the loop does not skip. */
  function Accepted(reviews: seq<Value>): nat
  {
    if reviews == [] then 0 else (if Skipped(reviews[0]) then 0 else 1) + Accepted(reviews[1..])
  }

  lemma LabelsAppend(a: seq<Value>, b: seq<Value>, scorer: Scorer)
    ensures Labels(a + b, scorer) == Labels(a, scorer) + Labels(b, scorer)
    ensures Scores(a + b, scorer) == Scores(a, scorer) + Scores(b, scorer)
  {
    RecordsAppend(a, b, scorer);
    ScoresAppend(a, b, scorer);
  }

  lemma {:induction false} RecordsAppend(a: seq<Value>, b: seq<Value>, scorer: Scorer)
    ensures Labels(a + b, scorer) == Labels(a, scorer) + Labels(b, scorer)
  {
    if a == [] {
      assert a + b == b;
    } else {
      var x, rest := a[0], a[1..];
      assert (a + b)[0] == x && (a + b)[1..] == rest + b;
      calc {
        Labels(a + b, scorer);
        LabelOf(x, scorer) + Labels(rest + b, scorer);
        { RecordsAppend(rest, b, scorer); }
        LabelOf(x, scorer) + (Labels(rest, scorer) + Labels(b, scorer));
        (LabelOf(x, scorer) + Labels(rest, scorer)) + Labels(b, scorer);
        Labels(a, scorer) + Labels(b, scorer);
      }
    }
  }

  lemma {:induction false} ScoresAppend(a: seq<Value>, b: seq<Value>, scorer: Scorer)
    ensures Scores(a + b, scorer) == Scores(a, scorer) + Scores(b, scorer)
  {
    if a == [] {
      assert a + b == b;
    } else {
      var x, rest := a[0], a[1..];
      assert (a + b)[0] == x && (a + b)[1..] == rest + b;
      calc {
        Scores(a + b, scorer);
        ScoreOf(x, scorer) + Scores(rest + b, scorer);
        { ScoresAppend(rest, b, scorer); }
        ScoreOf(x, scorer) + (Scores(rest, scorer) + Scores(b, scorer));
        (ScoreOf(x, scorer) + Scores(rest, scorer)) + Scores(b, scorer);
        Scores(a, scorer) + Scores(b, scorer);
      }
    }
  }

  /** A run appends exactly the records and the scores of the reviews it
      is given, in order. */
  lemma {:induction false} RunIsLabels(t: Tally, reviews: seq<Value>, scorer: Scorer)
    requires t.counts.Keys == AllSentiments
    ensures Run(t, reviews, scorer).records == t.records + Labels(reviews, scorer)
    ensures Run(t, reviews, scorer).scores == t.scores + Scores(reviews, scorer)
    decreases |reviews|
  {
    if reviews != [] {
      var init, last := reviews[..|reviews| - 1], reviews[|reviews| - 1];
      assert reviews == init + [last];
      var mid := Run(t, init, scorer);
      assert Run(t, reviews, scorer) == Step(mid, last, scorer);
      RunIsLabels(t, init, scorer);
      StepIsLabel(mid, last, scorer);
      LabelsAppend(init, [last], scorer);
    }
  }

  lemma StepIsLabel(t: Tally, review: Value, scorer: Scorer)
    requires t.counts.Keys == AllSentiments
    ensures Step(t, review, scorer).records == t.records + Labels([review], scorer)
    ensures Step(t, review, scorer).scores == t.scores + Scores([review], scorer)
  {
  }

  /** Every record holds the raw text of a review of the input that is a
      string and not a greeting. */
  lemma {:induction false} LabelsFromInput(reviews: seq<Value>, scorer: Scorer)
    ensures forall rec :: rec in Labels(reviews, scorer) ==>
      Str(rec.review) in reviews && !IsGreeting(rec.review)
  {
    if reviews != [] {
      LabelsFromInput(reviews[1..], scorer);
    }
  }

  /** There is one record per review that is not skipped. */
  lemma {:induction false} LabelsCount(reviews: seq<Value>, scorer: Scorer)
    ensures |Labels(reviews, scorer)| == Accepted(reviews)
    ensures |Scores(reviews, scorer)| <= Accepted(reviews)
  {
    if reviews != [] {
      LabelsCount(reviews[1..], scorer);
    }
  }

  /** After `__init__` and one `feedback` over `reviews`: the records are the
      labelled reviews, each count is the number of them with that label, and
      the counts add up to the number of reviews not skipped. */
  lemma FeedbackFromInitial(reviews: seq<Value>, scorer: Scorer)
    ensures Run(Initial, reviews, scorer).records == Labels(reviews, scorer)
    ensures forall c :: c in AllSentiments ==>
      Run(Initial, reviews, scorer).counts[c] == CountOf(Labels(reviews, scorer), c)
    ensures Total(Run(Initial, reviews, scorer).counts) == Accepted(reviews)
  {
    RunIsLabels(Initial, reviews, scorer);
    RunConsistent(Initial, reviews, scorer);
    ConsistentTotal(Run(Initial, reviews, scorer));
    LabelsCount(reviews, scorer);
  }

  /** The end-to-end scenario: three reviews that are not greetings, rated
      0.7, -0.8 and 0.0, followed by a greeting, yield one record per review,
      in order and holding the raw text, one count per category, and nothing
      for the greeting. `ExampleGreetings` shows that the reviews "I loved the
      food", "terrible service", "it was fine" and "hello" fit these
      requirements. */
  lemma ThreeReviewsAndAGreeting(pos: string, neg: string, neu: string, greeting: string, scorer: Scorer)
    requires !IsGreeting(pos) && !IsGreeting(neg) && !IsGreeting(neu) && IsGreeting(greeting)
    requires Polarity(Str(pos), scorer) == Some(0.7)
    requires Polarity(Str(neg), scorer) == Some(-0.8)
    requires Polarity(Str(neu), scorer) == Some(0.0)
    ensures var r := Run(Initial, [Str(pos), Str(neg), Str(neu), Str(greeting)], scorer);
      && r.records == [Record(pos, Positive, 0.7), Record(neg, Negative, -0.8), Record(neu, Neutral, 0.0)]
      && r.counts == map[Positive := 1, Neutral := 1, Negative := 1]
      && r.scores == [0.7, -0.8, 0.0]
  {
    var a, b, c, d := Str(pos), Str(neg), Str(neu), Str(greeting);
    var t1 := Step(Initial, a, scorer);
    StepScored(Initial, a, scorer, 0.7);
    var t2 := Step(t1, b, scorer);
    StepScored(t1, b, scorer, -0.8);
    var t3 := Step(t2, c, scorer);
    StepScored(t2, c, scorer, 0.0);
    assert t3.counts == map[Positive := 1, Neutral := 1, Negative := 1];
    RunOfFour(Initial, a, b, c, d, scorer);
  }

  /** A review that is not skipped and whose scoring succeeds adds one
      record with the raw text, one count and one score. */
  lemma StepScored(t: Tally, review: Value, scorer: Scorer, p: real)
    requires t.counts.Keys == AllSentiments
    requires !Skipped(review) && Polarity(review, scorer) == Some(p)
    ensures Step(t, review, scorer)
         == Tally(t.counts[Classify(p) := t.counts[Classify(p)] + 1], t.scores + [p],
                  t.records + [Record(review.text, Classify(p), p)])
  {
  }

  lemma RunOfFour(t: Tally, a: Value, b: Value, c: Value, d: Value, scorer: Scorer)
    requires t.counts.Keys == AllSentiments
    ensures Run(t, [a, b, c, d], scorer)
         == Step(Step(Step(Step(t, a, scorer), b, scorer), c, scorer), d, scorer)
  {
    assert [] + [a] == [a] && [a] + [b] == [a, b];
    assert [a, b] + [c] == [a, b, c] && [a, b, c] + [d] == [a, b, c, d];
    RunSnoc(t, [], a, scorer);
    RunSnoc(t, [a], b, scorer);
    RunSnoc(t, [a, b], c, scorer);
    RunSnoc(t, [a, b, c], d, scorer);
  }

  /** What an iteration does to a review it does not skip. */
  lemma StepAccepted(t: Tally, review: Value, scorer: Scorer)
    requires t.counts.Keys == AllSentiments && !Skipped(review)
    ensures var (sentiment, polarity) := Analyse(review, scorer);
      Step(t, review, scorer)
      == Tally(t.counts[sentiment := t.counts[sentiment] + 1],
               t.scores + Appended(Polarity(review, scorer)),
               t.records + [Record(review.text, sentiment, polarity)])
  {
  }

  /** One more review is one more iteration. */
  lemma RunSnoc(t: Tally, reviews: seq<Value>, review: Value, scorer: Scorer)
    requires t.counts.Keys == AllSentiments
    ensures Run(t, reviews + [review], scorer) == Step(Run(t, reviews, scorer), review, scorer)
  {
  }

  /** Only the last review of the scenario is a greeting. */
  lemma ExampleGreetings()
    ensures IsGreeting("hello")
    ensures !IsGreeting("I loved the food") && !IsGreeting("terrible service") && !IsGreeting("it was fine")
  {
    var h := "hello";
    assert forall i :: 0 <= i < |h| ==> !IsUpper(h[i]);
    assert LowerStr(h) == Greetings[0];
    assert |LowerStr("I loved the food")| == |LowerStr("terrible service")| == 16;
    assert |LowerStr("it was fine")| == 11;
  }

  class Restaurant {
    var dataFile: string
    var sentimentCounts: map<Sentiment, nat>
    var sentimentScores: seq<real>
    var processedReviews: seq<Record>

    /** `sentiment_counts` always has exactly the three category keys. */
    ghost predicate Valid()
      reads this
    {
      sentimentCounts.Keys == AllSentiments
    }

    ghost function State(): Tally
      reads this
    {
      Tally(sentimentCounts, sentimentScores, processedReviews)
    }

    constructor (dataFile: string)
      ensures Valid() && State() == Initial && Consistent(State())
      ensures this.dataFile == dataFile
    {
      this.dataFile := dataFile;
      sentimentCounts := map[Positive := 0, Neutral := 0, Negative := 0];
      sentimentScores := [];
      processedReviews := [];
    }

    /** `get_sentiment`: clean, score, append the polarity, classify; on a
        scorer failure answer `("Neutral", 0.0)` and append nothing. */
    method GetSentiment(text: Value, scorer: Scorer) returns (sentiment: Sentiment, polarity: real)
      modifies this`sentimentScores
      ensures (sentiment, polarity) == Analyse(text, scorer)
      ensures sentimentScores == old(sentimentScores) + Appended(Polarity(text, scorer))
    {
      var cleaned := CleanValue(text);
      var scored := match cleaned case Str(c) => scorer(c) case NonStr => None;
      match scored
      case None =>
        sentiment, polarity := Neutral, 0.0;
      case Some(p) =>
        polarity := p;
        sentimentScores := sentimentScores + [polarity];
        if polarity > 0.1 {
          sentiment := Positive;
        } else if polarity < -0.1 {
          sentiment := Negative;
        } else {
          sentiment := Neutral;
        }
    }

    /** `feedback` over the `Review` column, given as a sequence of cells. */
    method Feedback(reviews: seq<Value>, scorer: Scorer)
      requires Valid()
      modifies this
      ensures Valid() && dataFile == old(dataFile)
      ensures State() == Run(old(State()), reviews, scorer)
      ensures Consistent(old(State())) ==> Consistent(State())
    {
      for i := 0 to |reviews|
        invariant Valid() && dataFile == old(dataFile)
        invariant State() == Run(old(State()), reviews[..i], scorer)
      {
        var review := reviews[i];
        ghost var before := State();
        if review.Str? && !IsGreeting(review.text) {
          var sentiment, polarity := GetSentiment(review, scorer);
          sentimentCounts := sentimentCounts[sentiment := sentimentCounts[sentiment] + 1];
          processedReviews := processedReviews + [Record(review.text, sentiment, polarity)];
          StepAccepted(before, review, scorer);
        }
        RunSnoc(old(State()), reviews[..i], review, scorer);
        assert reviews[..i + 1] == reviews[..i] + [review];
      }
      assert reviews[..|reviews|] == reviews;
      if Consistent(old(State())) {
        RunConsistent(old(State()), reviews, scorer);
      }
    }
  }
}
