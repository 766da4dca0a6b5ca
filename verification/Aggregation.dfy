/** evaluator.py: aggregating repeated semantic samples before the one deterministic policy pass. */
module Aggregation {
  import opened Sequences
  import opened Policy

  datatype Method = Median | Mean | Maximum

  datatype Sample = Sample(probabilities: Signals, risk: Level, score: Option<real>, confidence: Option<real>,
      degraded: bool)

  // What the validators of models.py leave.
  predicate ValidSample(s: Sample) {
    && (forall name :: name in s.probabilities ==> 0.0 <= s.probabilities[name] <= 1.0)
    && (s.score.Some? ==> 0.0 <= s.score.value <= 2.0)
    && (s.confidence.Some? ==> 0.0 <= s.confidence.value <= 1.0)
  }

  function Insert(x: real, sorted: seq<real>): seq<real> {
    if sorted == [] || x <= sorted[0] then [x] + sorted else [sorted[0]] + Insert(x, sorted[1..])
  }

  function Sort(values: seq<real>): (sorted: seq<real>)
    ensures |sorted| == |values|
  {
    if values == [] then []
    else
      InsertPermutes(values[0], Sort(values[1..]));
      Insert(values[0], Sort(values[1..]))
  }

  lemma {:induction false} InsertPermutes(x: real, sorted: seq<real>)
    ensures multiset(Insert(x, sorted)) == multiset(sorted) + multiset{x}
    ensures |Insert(x, sorted)| == |sorted| + 1
  {
    if sorted != [] && x > sorted[0] {
      InsertPermutes(x, sorted[1..]);
      assert sorted == [sorted[0]] + sorted[1..];
    }
  }

  lemma {:induction false} SortPermutes(values: seq<real>)
    ensures multiset(Sort(values)) == multiset(values)
  {
    if values != [] {
      SortPermutes(values[1..]);
      InsertPermutes(values[0], Sort(values[1..]));
      assert values == [values[0]] + values[1..];
    }
  }

  ghost predicate Ascending(s: seq<real>) { forall i, j :: 0 <= i < j < |s| ==> s[i] <= s[j] }

  lemma {:induction false} InsertAscends(x: real, sorted: seq<real>)
    requires Ascending(sorted)
    ensures forall v :: v in Insert(x, sorted) ==> v == x || v in sorted
    ensures Ascending(Insert(x, sorted))
  {
    if sorted != [] && x > sorted[0] {
      InsertAscends(x, sorted[1..]);
      var rest := Insert(x, sorted[1..]);
      forall i | 0 <= i < |rest| ensures sorted[0] <= rest[i] {
        assert rest[i] in rest;
      }
    }
  }

  lemma {:induction false} SortAscends(values: seq<real>)
    ensures Ascending(Sort(values))
  {
    if values != [] {
      SortAscends(values[1..]);
      InsertAscends(values[0], Sort(values[1..]));
    }
  }

  function Sum(values: seq<real>): real { if values == [] then 0.0 else values[0] + Sum(values[1..]) }

  function MaxOf(values: seq<real>): real
    requires values != []
  {
    if |values| == 1 then values[0] else Max(values[0], MaxOf(values[1..]))
  }

  // statistics.median of values that are already in order.
  function MiddleOf(s: seq<real>): real
    requires s != []
  {
    var n := |s|;
    if n % 2 == 1 then s[n / 2] else (s[n / 2 - 1] + s[n / 2]) / 2.0
  }

  function MedianOf(values: seq<real>): real
    requires values != []
  {
    MiddleOf(Sort(values))
  }

  function Aggregate(values: seq<real>, how: Method): real
    requires values != []
  {
    match how
    case Mean => Sum(values) / |values| as real
    case Maximum => MaxOf(values)
    case Median => MedianOf(values)
  }

  function Choices(samples: seq<Sample>): (cs: seq<Level>)
    ensures |cs| == |samples| && forall i :: 0 <= i < |cs| ==> cs[i] == samples[i].risk
  {
    seq(|samples|, i requires 0 <= i < |samples| => samples[i].risk)
  }

  function Votes(choices: seq<Level>, l: Level): nat { multiset(choices)[l] }

  // The key (count, -rank) of b is greater than that of a.
  predicate Outvotes(choices: seq<Level>, b: Level, a: Level) {
    Votes(choices, b) > Votes(choices, a) || (Votes(choices, b) == Votes(choices, a) && LevelRank(b) < LevelRank(a))
  }

  // max(..., key=...): the first choice no later one outvotes.
  function Vote(choices: seq<Level>, best: Level, rest: seq<Level>): Level
    decreases |rest|
  {
    if rest == [] then best
    else Vote(choices, if Outvotes(choices, rest[0], best) then rest[0] else best, rest[1..])
  }

  function Present(values: seq<Option<real>>): seq<real> {
    if values == [] then []
    else (if values[0].Some? then [values[0].value] else []) + Present(values[1..])
  }

  function ScoreColumn(samples: seq<Sample>): (column: seq<Option<real>>)
    ensures |column| == |samples| && forall i :: 0 <= i < |samples| ==> column[i] == samples[i].score
  {
    seq(|samples|, i requires 0 <= i < |samples| => samples[i].score)
  }

  function ConfidenceColumn(samples: seq<Sample>): (column: seq<Option<real>>)
    ensures |column| == |samples| && forall i :: 0 <= i < |samples| ==> column[i] == samples[i].confidence
  {
    seq(|samples|, i requires 0 <= i < |samples| => samples[i].confidence)
  }

  function Scores(samples: seq<Sample>): seq<real> { Present(ScoreColumn(samples)) }

  function Confidences(samples: seq<Sample>): seq<real> { Present(ConfidenceColumn(samples)) }

  function Names(samples: seq<Sample>): set<string> {
    set i, name | 0 <= i < |samples| && name in samples[i].probabilities :: name
  }

  function Column(samples: seq<Sample>, name: string): (column: seq<real>)
    ensures |column| == |samples| && forall i :: 0 <= i < |samples| ==> column[i] == Get(samples[i].probabilities, name)
  {
    seq(|samples|, i requires 0 <= i < |samples| => Get(samples[i].probabilities, name))
  }

  function RiskOfScore(score: real): Level { if score < 0.67 then Low else if score < 1.34 then Medium else High }

  function MinOf(values: seq<real>): real
    requires values != []
  {
    if |values| == 1 then values[0] else if values[0] <= MinOf(values[1..]) then values[0] else MinOf(values[1..])
  }

  // `aggregate_semantic_samples`; None is the ValueError for no samples.
  function AggregateSamples(samples: seq<Sample>, how: Method): Option<Sample> {
    if samples == [] then None
    else
      var scores := Scores(samples);
      var choices := Choices(samples);
      var confidences := Confidences(samples);
      Some(Sample(
        map name | name in Names(samples) :: Aggregate(Column(samples, name), how),
        if scores != [] then RiskOfScore(Aggregate(scores, how)) else Vote(choices, choices[0], choices[1..]),
        if scores != [] then Some(Aggregate(scores, how)) else None,
        if confidences != [] then Some(MinOf(confidences)) else None,
        exists i :: 0 <= i < |samples| && samples[i].degraded))
  }

  // ----- Aggregates stay between the values they aggregate -----

  lemma {:induction false} SumBounds(values: seq<real>, low: real, high: real)
    requires forall v :: v in values ==> low <= v <= high
    ensures |values| as real * low <= Sum(values) <= |values| as real * high
  {
    if values != [] {
      forall v | v in values[1..] ensures low <= v <= high {
        assert v in values;
      }
      SumBounds(values[1..], low, high);
      assert values[0] in values;
      assert |values| as real * low == (|values| - 1) as real * low + low;
      assert |values| as real * high == (|values| - 1) as real * high + high;
    }
  }

  lemma {:induction false} MaxOfBounds(values: seq<real>)
    requires values != []
    ensures MaxOf(values) in values && forall v :: v in values ==> v <= MaxOf(values)
  {
    if |values| > 1 {
      MaxOfBounds(values[1..]);
      assert values == [values[0]] + values[1..];
    }
  }

  lemma {:induction false} MinOfBounds(values: seq<real>)
    requires values != []
    ensures MinOf(values) in values && forall v :: v in values ==> MinOf(values) <= v
  {
    if |values| > 1 {
      MinOfBounds(values[1..]);
      assert values == [values[0]] + values[1..];
    }
  }

  lemma DivideBounds(sum: real, n: real, low: real, high: real)
    requires n > 0.0 && n * low <= sum <= n * high
    ensures low <= sum / n <= high
  {
    var q := sum / n;
    assert q * n == sum;
    assert (q - low) * n >= 0.0 && (high - q) * n >= 0.0;
  }

  lemma MeanBounds(values: seq<real>, low: real, high: real)
    requires values != [] && forall v :: v in values ==> low <= v <= high
    ensures low <= Sum(values) / |values| as real <= high
  {
    SumBounds(values, low, high);
    DivideBounds(Sum(values), |values| as real, low, high);
  }

  lemma AggregateBounds(values: seq<real>, how: Method)
    requires values != []
    ensures MinOf(values) <= Aggregate(values, how) <= MaxOf(values)
  {
    MaxOfBounds(values);
    MinOfBounds(values);
    match how
    case Mean => MeanBounds(values, MinOf(values), MaxOf(values));
    case Maximum =>
    case Median => MedianBounds(values);
  }

  lemma MedianBounds(values: seq<real>)
    requires values != []
    ensures MinOf(values) <= MedianOf(values) <= MaxOf(values)
  {
    MaxOfBounds(values);
    MinOfBounds(values);
    SortPermutes(values);
    var s := Sort(values);
    forall i | 0 <= i < |s| ensures MinOf(values) <= s[i] <= MaxOf(values) {
      assert s[i] in multiset(s);
      assert s[i] in values;
    }
  }

  // As many values lie at or below the middle as at or above it.
  ghost predicate Halves(s: seq<real>, middle: real) {
    && (forall i :: 0 <= i < (|s| + 1) / 2 ==> s[i] <= middle)
    && (forall i :: |s| / 2 <= i < |s| ==> middle <= s[i])
  }

  lemma MiddleHalves(s: seq<real>)
    requires s != [] && Ascending(s)
    ensures Halves(s, MiddleOf(s))
  {
    var high := |s| / 2;
    var low := if |s| % 2 == 1 then high else high - 1;
    forall i | 0 <= i <= low ensures s[i] <= s[low] {
    }
    forall i | high <= i < |s| ensures s[high] <= s[i] {
    }
    assert s[low] <= MiddleOf(s) <= s[high];
  }

  lemma MiddleTwice(s: seq<real>)
    requires s != []
    ensures 2.0 * MiddleOf(s) == s[(|s| - 1) / 2] + s[|s| / 2]
  {
    if |s| % 2 == 1 {
      assert (|s| - 1) / 2 == |s| / 2;
    } else {
      assert (|s| - 1) / 2 == |s| / 2 - 1;
    }
  }

  // The median is the middle of the values in order, and of two in the middle their mean.
  lemma MedianIsMiddle(values: seq<real>)
    requires values != []
    ensures multiset(Sort(values)) == multiset(values) && Ascending(Sort(values))
    ensures Halves(Sort(values), MedianOf(values))
    ensures var s := Sort(values); 2.0 * MedianOf(values) == s[(|s| - 1) / 2] + s[|s| / 2]
  {
    SortPermutes(values);
    SortAscends(values);
    MiddleHalves(Sort(values));
    MiddleTwice(Sort(values));
  }

  lemma {:induction false} SumAppend(a: seq<real>, b: seq<real>)
    ensures Sum(a + b) == Sum(a) + Sum(b)
  {
    if a == [] {
      assert a + b == b;
    } else {
      SumAppend(a[1..], b);
      assert (a + b)[1..] == a[1..] + b;
    }
  }

  lemma MeanTimes(values: seq<real>)
    requires values != []
    ensures |values| as real * Aggregate(values, Mean) == Sum(values)
  {
    var n, q := |values| as real, Aggregate(values, Mean);
    assert n * q == q * n;
  }

  // The mean of one value is that value, and joining two groups weighs their means by their sizes.
  lemma MeanWeighs(x: real, a: seq<real>, b: seq<real>)
    requires a != [] && b != []
    ensures Aggregate([x], Mean) == x
    ensures |a + b| as real * Aggregate(a + b, Mean)
            == |a| as real * Aggregate(a, Mean) + |b| as real * Aggregate(b, Mean)
  {
    MeanTimes(a);
    MeanTimes(b);
    MeanTimes(a + b);
    SumAppend(a, b);
    assert [x][1..] == [];
    MeanTimes([x]);
  }

  lemma MaximumIsLargest(values: seq<real>)
    requires values != []
    ensures Aggregate(values, Maximum) in values && forall v :: v in values ==> v <= Aggregate(values, Maximum)
  {
    MaxOfBounds(values);
  }

  predicate IsGiven(x: Option<real>) { x.Some? }

  // The values given, in order and as often as they are.
  lemma {:induction false} PresentExact(values: seq<Option<real>>)
    ensures var given := Filter(values, IsGiven);
            && |given| == |Present(values)|
            && forall i :: 0 <= i < |given| ==> given[i] == Some(Present(values)[i])
  {
    if values != [] {
      PresentExact(values[1..]);
    }
  }

  lemma {:induction false} PresentMembers(values: seq<Option<real>>)
    ensures forall v :: v in Present(values) <==> Some(v) in values
  {
    if values != [] {
      PresentMembers(values[1..]);
      assert values == [values[0]] + values[1..];
    }
  }

  lemma {:induction false} PresentAt(values: seq<Option<real>>, i: nat)
    requires i < |values| && values[i].Some?
    ensures values[i].value in Present(values)
  {
    if i > 0 {
      PresentAt(values[1..], i - 1);
    }
  }

  lemma GivenScore(samples: seq<Sample>, i: nat)
    requires i < |samples| && samples[i].score.Some?
    ensures samples[i].score.value in Scores(samples)
  {
    PresentAt(ScoreColumn(samples), i);
  }

  lemma GivenConfidence(samples: seq<Sample>, i: nat)
    requires i < |samples| && samples[i].confidence.Some?
    ensures samples[i].confidence.value in Confidences(samples)
  {
    PresentAt(ConfidenceColumn(samples), i);
  }

  lemma ScoreMembers(samples: seq<Sample>)
    ensures forall v :: v in Scores(samples) <==> exists i :: 0 <= i < |samples| && samples[i].score == Some(v)
    ensures forall v :: v in Confidences(samples)
              <==> exists i :: 0 <= i < |samples| && samples[i].confidence == Some(v)
  {
    var scores, confidences := ScoreColumn(samples), ConfidenceColumn(samples);
    PresentMembers(scores);
    PresentMembers(confidences);
    assert Scores(samples) == Present(scores) && Confidences(samples) == Present(confidences);
    forall v | v in Scores(samples) ensures exists i :: 0 <= i < |samples| && samples[i].score == Some(v) {
      var i :| 0 <= i < |scores| && scores[i] == Some(v);
    }
    forall i | 0 <= i < |samples| && samples[i].score.Some? ensures samples[i].score.value in Scores(samples) {
      GivenScore(samples, i);
    }
    forall v | v in Confidences(samples) ensures exists i :: 0 <= i < |samples| && samples[i].confidence == Some(v) {
      var i :| 0 <= i < |confidences| && confidences[i] == Some(v);
    }
    forall i | 0 <= i < |samples| && samples[i].confidence.Some?
      ensures samples[i].confidence.value in Confidences(samples)
    {
      GivenConfidence(samples, i);
    }
  }

  // The vote without scores: the most frequent choice, and on a tie the least severe.
  lemma {:induction false} VoteWins(choices: seq<Level>, best: Level, rest: seq<Level>)
    ensures var v := Vote(choices, best, rest);
            && (v == best || v in rest) && !Outvotes(choices, best, v)
            && forall c :: c in rest ==> !Outvotes(choices, c, v)
    decreases |rest|
  {
    if rest != [] {
      var next := if Outvotes(choices, rest[0], best) then rest[0] else best;
      VoteWins(choices, next, rest[1..]);
      assert rest == [rest[0]] + rest[1..];
    }
  }

  // The level the score stands for; without scores, a sample's own choice that no other sample's outvotes.
  ghost predicate RiskAgrees(samples: seq<Sample>, risk: Level, score: Option<real>) {
    match score
    case Some(x) =>
      (risk == Low <==> x < 0.67) && (risk == High <==> x >= 1.34)
    case None =>
      && (exists i :: 0 <= i < |samples| && samples[i].risk == risk)
      && forall i :: 0 <= i < |samples| ==> !Outvotes(Choices(samples), samples[i].risk, risk)
  }

  ghost predicate LeastConfidence(samples: seq<Sample>, confidence: Option<real>) {
    && (confidence.Some? ==> exists i :: 0 <= i < |samples| && samples[i].confidence == confidence)
    && forall i :: 0 <= i < |samples| && samples[i].confidence.Some? ==>
         confidence.Some? && confidence.value <= samples[i].confidence.value
  }

  // The aggregate of no samples is refused. Otherwise every name of any sample has the aggregate of its
  // column, a sample without it counting as zero; the score is the aggregate of the given scores, the
  // confidence the least given, and one degraded sample degrades the whole.
  lemma AggregateExact(samples: seq<Sample>, how: Method)
    ensures AggregateSamples(samples, how).Some? <==> samples != []
    ensures samples != [] ==>
              var all := AggregateSamples(samples, how).value;
              && (forall name :: name in all.probabilities <==>
                    exists i :: 0 <= i < |samples| && name in samples[i].probabilities)
              && (forall name :: name in all.probabilities ==>
                    all.probabilities[name] == Aggregate(Column(samples, name), how))
              && (all.score.Some? <==> exists i :: 0 <= i < |samples| && samples[i].score.Some?)
              && (all.score.Some? ==>
                    Scores(samples) != [] && all.score.value == Aggregate(Scores(samples), how))
              && RiskAgrees(samples, all.risk, all.score)
              && LeastConfidence(samples, all.confidence)
              && (all.degraded <==> exists i :: 0 <= i < |samples| && samples[i].degraded)
  {
    if samples != [] {
      ScoreGiven(samples);
      RiskExact(samples, how);
      ConfidenceExact(samples);
    }
  }

  lemma ScoreGiven(samples: seq<Sample>)
    ensures Scores(samples) != [] <==> exists i :: 0 <= i < |samples| && samples[i].score.Some?
  {
    forall i | 0 <= i < |samples| && samples[i].score.Some? ensures Scores(samples) != [] {
      GivenScore(samples, i);
    }
    if Scores(samples) != [] {
      ScoreMembers(samples);
      var v := Scores(samples)[0];
      assert v in Scores(samples);
    }
  }

  lemma RiskExact(samples: seq<Sample>, how: Method)
    requires samples != []
    ensures var all := AggregateSamples(samples, how).value; RiskAgrees(samples, all.risk, all.score)
  {
    if Scores(samples) == [] {
      var choices := Choices(samples);
      var v := Vote(choices, choices[0], choices[1..]);
      VoteWins(choices, choices[0], choices[1..]);
      assert choices == [choices[0]] + choices[1..];
      assert v in choices;
      var i :| 0 <= i < |choices| && choices[i] == v;
      assert samples[i].risk == v;
      forall k | 0 <= k < |samples| ensures !Outvotes(choices, samples[k].risk, v) {
        assert choices[k] in choices;
      }
    }
  }

  lemma ConfidenceExact(samples: seq<Sample>)
    ensures LeastConfidence(samples, if Confidences(samples) == [] then None else Some(MinOf(Confidences(samples))))
  {
    ScoreMembers(samples);
    var given := Confidences(samples);
    forall i | 0 <= i < |samples| && samples[i].confidence.Some? ensures samples[i].confidence.value in given {
      GivenConfidence(samples, i);
    }
    if given != [] {
      MinOfBounds(given);
      assert MinOf(given) in given;
    }
  }

  function ToInputs(findings: seq<Finding>, s: Sample): Inputs {
    Inputs(findings, s.probabilities, s.risk, s.confidence, s.degraded)
  }

  lemma ColumnBelow(samples: seq<Sample>, name: string, how: Method, line: real)
    requires samples != [] && 0.0 < line
    requires forall i :: 0 <= i < |samples| && name in samples[i].probabilities ==>
               samples[i].probabilities[name] < line
    ensures Aggregate(Column(samples, name), how) < line
  {
    var column := Column(samples, name);
    AggregateBounds(column, how);
    MaxOfBounds(column);
    forall v | v in column ensures v < line {
      var i :| 0 <= i < |column| && column[i] == v;
    }
  }

  // When every sample alone is ALLOW, so is the aggregate, exactly when the aggregated risk score (if
  // any sample has one) is still low.
  lemma AllAllowExact(cfg: Config, findings: seq<Finding>, samples: seq<Sample>, how: Method)
    requires ValidConfig(cfg) && samples != []
    requires forall i :: 0 <= i < |samples| ==>
               ValidSample(samples[i]) && DecideOf(cfg, ToInputs(findings, samples[i])) == ALLOW
    ensures DecideOf(cfg, ToInputs(findings, AggregateSamples(samples, how).value)) == ALLOW
            <==> Scores(samples) == [] || Aggregate(Scores(samples), how) < 0.67
  {
    forall i | 0 <= i < |samples| ensures Quiet(cfg, ToInputs(findings, samples[i])) {
      AllowExact(cfg, ToInputs(findings, samples[i]));
    }
    AllowExact(cfg, ToInputs(findings, AggregateSamples(samples, how).value));
    QuietAggregate(cfg, findings, samples, how);
    LowRisk(cfg, findings, samples, how);
  }

  lemma QuietAggregate(cfg: Config, findings: seq<Finding>, samples: seq<Sample>, how: Method)
    requires ValidConfig(cfg) && samples != []
    requires forall i :: 0 <= i < |samples| ==> ValidSample(samples[i]) && Quiet(cfg, ToInputs(findings, samples[i]))
    ensures var all := AggregateSamples(samples, how).value;
            Quiet(cfg, ToInputs(findings, all)) <==> all.risk == Low
  {
    assert Quiet(cfg, ToInputs(findings, samples[0]));
    QuietColumns(cfg, findings, samples, how);
    AggregateConfidence(cfg, findings, samples);
    assert !AggregateSamples(samples, how).value.degraded;
  }

  lemma LowRisk(cfg: Config, findings: seq<Finding>, samples: seq<Sample>, how: Method)
    requires samples != []
    requires forall i :: 0 <= i < |samples| ==> Quiet(cfg, ToInputs(findings, samples[i]))
    ensures AggregateSamples(samples, how).value.risk == Low
            <==> Scores(samples) == [] || Aggregate(Scores(samples), how) < 0.67
  {
    forall i | 0 <= i < |samples| ensures samples[i].risk == Low {
      assert Quiet(cfg, ToInputs(findings, samples[i]));
    }
    LowVote(samples);
  }

  lemma QuietColumns(cfg: Config, findings: seq<Finding>, samples: seq<Sample>, how: Method)
    requires ValidConfig(cfg) && samples != []
    requires forall i :: 0 <= i < |samples| ==> ValidSample(samples[i]) && Quiet(cfg, ToInputs(findings, samples[i]))
    ensures var all := AggregateSamples(samples, how).value;
            forall name :: name in all.probabilities ==> all.probabilities[name] < ReviewLine(cfg)
  {
    var all := AggregateSamples(samples, how).value;
    forall name | name in all.probabilities ensures all.probabilities[name] < ReviewLine(cfg) {
      var i :| 0 <= i < |samples| && name in samples[i].probabilities;
      assert Quiet(cfg, ToInputs(findings, samples[i]));
      forall k | 0 <= k < |samples| && name in samples[k].probabilities
        ensures samples[k].probabilities[name] < ReviewLine(cfg)
      {
        assert Quiet(cfg, ToInputs(findings, samples[k]));
      }
      ColumnBelow(samples, name, how, ReviewLine(cfg));
    }
  }

  lemma AggregateConfidence(cfg: Config, findings: seq<Finding>, samples: seq<Sample>)
    requires forall i :: 0 <= i < |samples| ==> Quiet(cfg, ToInputs(findings, samples[i]))
    ensures Confidences(samples) != [] ==> MinOf(Confidences(samples)) >= cfg.thresholds.review
  {
    ScoreMembers(samples);
    if Confidences(samples) != [] {
      MinOfBounds(Confidences(samples));
      var i :| 0 <= i < |samples| && samples[i].confidence == Some(MinOf(Confidences(samples)));
      assert Quiet(cfg, ToInputs(findings, samples[i]));
    }
  }

  lemma LowVote(samples: seq<Sample>)
    requires samples != []
    ensures (forall i :: 0 <= i < |samples| ==> samples[i].risk == Low)
              ==> Vote(Choices(samples), Choices(samples)[0], Choices(samples)[1..]) == Low
  {
    var choices := Choices(samples);
    VoteWins(choices, choices[0], choices[1..]);
  }

  // The promise as stated for callers: all samples ALLOW, every score absent or below 0.67.
  lemma AllAllowWithLowScores(cfg: Config, findings: seq<Finding>, samples: seq<Sample>, how: Method)
    requires ValidConfig(cfg) && samples != []
    requires forall i :: 0 <= i < |samples| ==>
               ValidSample(samples[i]) && DecideOf(cfg, ToInputs(findings, samples[i])) == ALLOW
    requires forall i :: 0 <= i < |samples| && samples[i].score.Some? ==> samples[i].score.value < 0.67
    ensures DecideOf(cfg, ToInputs(findings, AggregateSamples(samples, how).value)) == ALLOW
  {
    AllAllowExact(cfg, findings, samples, how);
    var scores := Scores(samples);
    if scores != [] {
      ScoreMembers(samples);
      AggregateBounds(scores, how);
      MaxOfBounds(scores);
    }
  }

  // A hold_on signal past the hold line in every sample holds the aggregate.
  lemma SharedHoldHolds(cfg: Config, findings: seq<Finding>, samples: seq<Sample>, how: Method, name: string)
    requires ValidConfig(cfg) && samples != [] && name in cfg.holdOn
    requires forall i :: 0 <= i < |samples| ==>
               name in samples[i].probabilities && ClearsHoldLine(cfg, samples[i].probabilities[name])
    ensures DecideOf(cfg, ToInputs(findings, AggregateSamples(samples, how).value)) == HOLD
  {
    var all := AggregateSamples(samples, how).value;
    assert name in samples[0].probabilities;
    var column := Column(samples, name);
    AggregateBounds(column, how);
    MinOfBounds(column);
    forall v | v in column ensures ClearsHoldLine(cfg, v) {
      var i :| 0 <= i < |column| && column[i] == v;
    }
    assert all.probabilities[name] == Aggregate(column, how);
    assert MayHold(cfg, name, name) && ClearsHoldLine(cfg, all.probabilities[name]);
    assert HeldBy(cfg, ToInputs(findings, all), name);
    HoldExact(cfg, ToInputs(findings, all));
  }
}
