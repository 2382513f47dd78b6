/**
 * The arithmetic of `Restaurant.print_summary`: the total of the three
 * counts, one percentage per category (0 when nothing was counted), and
 * polarity statistics only when at least one polarity was recorded.
 */
module Summary {
  import opened Wrappers
  import opened Classifier
  import opened Reviews

  /** One line of the category block, in the dictionary's order. */
  datatype Line = Line(sentiment: Sentiment, count: nat, percentage: real)

  /** Mean, minimum and maximum of the recorded polarities. */
  datatype Stats = Stats(mean: real, min: real, max: real)

  datatype Report = Report(total: nat, lines: seq<Line>, stats: Option<Stats>)

  /** `(count / total * 100) if total > 0 else 0`. */
  function Percentage(count: nat, total: nat): (r: real)
    ensures total == 0 ==> r == 0.0
    ensures total > 0 ==> r * total as real == count as real * 100.0
    ensures count <= total ==> 0.0 <= r <= 100.0
  {
    if total > 0 then count as real / total as real * 100.0 else 0.0
  }

  function Sum(s: seq<real>): real
  {
    if s == [] then 0.0 else s[0] + Sum(s[1..])
  }

  function Min(s: seq<real>): (m: real)
    requires s != []
    ensures m in s
    ensures forall i :: 0 <= i < |s| ==> m <= s[i]
  {
    if |s| == 1 then s[0]
    else
      var rest := Min(s[1..]);
      if s[0] <= rest then s[0] else rest
  }

  function Max(s: seq<real>): (m: real)
    requires s != []
    ensures m in s
    ensures forall i :: 0 <= i < |s| ==> s[i] <= m
  {
    if |s| == 1 then s[0]
    else
      var rest := Max(s[1..]);
      if s[0] >= rest then s[0] else rest
  }

  /** The sum of values all at least `lo` and at most `hi` lies between
      `|s| * lo` and `|s| * hi`. */
  lemma {:induction false} SumBounds(s: seq<real>, lo: real, hi: real)
    requires forall i :: 0 <= i < |s| ==> lo <= s[i] <= hi
    ensures |s| as real * lo <= Sum(s) <= |s| as real * hi
  {
    if s != [] {
      SumBounds(s[1..], lo, hi);
      assert |s| as real * lo == lo + (|s| - 1) as real * lo;
      assert |s| as real * hi == hi + (|s| - 1) as real * hi;
    }
  }

  /** The statistics block: present exactly when the score list is non-empty. */
  function Statistics(scores: seq<real>): (r: Option<Stats>)
    ensures r.Some? <==> scores != []
    ensures r.Some? ==> r.value.min <= r.value.mean <= r.value.max
    ensures r.Some? ==> r.value.min in scores && r.value.max in scores
    ensures r.Some? ==> forall i :: 0 <= i < |scores| ==> r.value.min <= scores[i] <= r.value.max
  {
    if scores == [] then None
    else
      MeanBounds(scores, Min(scores), Max(scores));
      Some(Stats(Sum(scores) / |scores| as real, Min(scores), Max(scores)))
  }

  /** The mean of values that all lie between `lo` and `hi` lies between them. */
  lemma MeanBounds(s: seq<real>, lo: real, hi: real)
    requires s != []
    requires forall i :: 0 <= i < |s| ==> lo <= s[i] <= hi
    ensures lo <= Sum(s) / |s| as real <= hi
  {
    SumBounds(s, lo, hi);
    MeanBetween(Sum(s), |s| as real, lo, hi);
  }

  lemma MeanBetween(sum: real, n: real, lo: real, hi: real)
    requires n > 0.0 && n * lo <= sum <= n * hi
    ensures lo <= sum / n <= hi
  {
  }

  /** The summary `print_summary` reports for the given counts and scores. */
  function Summarize(counts: map<Sentiment, nat>, scores: seq<real>): (r: Report)
    requires counts.Keys == AllSentiments
    ensures r.total == counts[Positive] + counts[Neutral] + counts[Negative]
    ensures |r.lines| == 3
    ensures r.lines[0].sentiment == Positive && r.lines[1].sentiment == Neutral && r.lines[2].sentiment == Negative
    ensures forall i :: 0 <= i < 3 ==> r.lines[i].count == counts[r.lines[i].sentiment]
    ensures forall i :: 0 <= i < 3 ==> 0.0 <= r.lines[i].percentage <= 100.0
    ensures r.total == 0 ==> forall i :: 0 <= i < 3 ==> r.lines[i].percentage == 0.0
    ensures r.total > 0 ==> r.lines[0].percentage + r.lines[1].percentage + r.lines[2].percentage == 100.0
    ensures r.stats.Some? <==> scores != []
    ensures forall i :: 0 <= i < 3 ==> r.lines[i].percentage == Percentage(r.lines[i].count, r.total)
    ensures r.stats == Statistics(scores)
  {
    var total := Total(counts);
    var lines := [
      Line(Positive, counts[Positive], Percentage(counts[Positive], total)),
      Line(Neutral, counts[Neutral], Percentage(counts[Neutral], total)),
      Line(Negative, counts[Negative], Percentage(counts[Negative], total))
    ];
    if total > 0 then
      PercentagesSum(counts[Positive], counts[Neutral], counts[Negative]);
      Report(total, lines, Statistics(scores))
    else
      Report(total, lines, Statistics(scores))
  }

  /** With a non-zero total the three percentages add up to 100. */
  lemma PercentagesSum(a: nat, b: nat, c: nat)
    requires a + b + c > 0
    ensures Percentage(a, a + b + c) + Percentage(b, a + b + c) + Percentage(c, a + b + c) == 100.0
  {
    var t := (a + b + c) as real;
    assert a as real / t + b as real / t + c as real / t == (a as real + b as real + c as real) / t;
  }

  /** Read after `feedback`, the summary's total is the number of records. */
  lemma SummaryTotalIsRecords(t: Tally)
    requires Consistent(t)
    ensures Summarize(t.counts, t.scores).total == |t.records|
    ensures Summarize(t.counts, t.scores).stats.Some? ==> t.records != []
  {
    ConsistentTotal(t);
  }
}
