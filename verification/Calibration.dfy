/** The calibration, told from the history. */
module Calibration {
  import opened Options
  import opened Division
  import opened WalkForward

  // ------------------------------------------------------------------------------------------
  // Forecasts

  /** The chance of a gain: 95 or 5 per cent where the outer quantiles agree on the sign, else by the median. */
  predicate IsChance(q: Quantiles, p: real) {
    if q.p10 >= 0.0 then p == 0.95
    else if q.p90 <= 0.0 then p == 0.05
    else if q.p50 > 0.0 then
      0.5 < p < 0.9 && (p - 0.5) * (q.p50 - q.p10 + 0.000000001) == 0.4 * q.p50
    else
      0.1 < p < 0.5 && (p - 0.1) * (q.p90 - q.p50 + 0.000000001) == 0.4 * q.p90
  }

  /** A share of the whole, and nothing is clipped. */
  lemma ClipsNothing(base: real, part: real, whole: real)
    requires 0.0 < part < whole && 0.1 <= base <= 0.5
    ensures var p := Clip(base + 0.4 * (part / whole)); base < p < base + 0.4 && (p - base) * whole == 0.4 * part
  {
    var share := part / whole;
    assert share * whole == part;
    ShareWithin(share, part, whole);
    assert 0.4 * share * whole == 0.4 * part;
  }

  lemma ShareWithin(share: real, part: real, whole: real)
    requires 0.0 < part < whole && share * whole == part
    ensures 0.0 < share < 1.0
  {
    SignOfProduct(whole, share);
    SignOfProduct(whole, 1.0 - share);
    assert whole * (1.0 - share) == whole - share * whole && whole * share == share * whole;
  }

  lemma ChanceIs(q: Quantiles)
    ensures IsChance(q, ProbPos(q))
  {
    if q.p10 < 0.0 < q.p90 {
      if q.p50 > 0.0 {
        ClipsNothing(0.5, q.p50, q.p50 - q.p10 + 0.000000001);
      } else {
        ClipsNothing(0.1, q.p90, q.p90 - q.p50 + 0.000000001);
      }
    }
  }

  /** `score` per `unit` is `p` times `x`. */
  predicate PerUnit(score: real, unit: real, p: real, x: real) { score * unit == p * x }

  /** A score: the chance of a gain times the median, per unit of a volatility of at least 0.0001. */
  ghost predicate IsScore(q: Quantiles, vol: real, score: real) {
    exists p :: IsChance(q, p) && PerUnit(score, if vol > 0.0001 then vol else 0.0001, p, q.p50)
  }

  lemma PerUnitIs(p: real, x: real, unit: real)
    requires unit > 0.0
    ensures PerUnit(p * (x / unit), unit, p, x)
  {
    var r := x / unit;
    assert r * unit == x;
    assert p * r * unit == p * (r * unit);
  }

  lemma ScoringIs(fit: Fit, examples: seq<Example>, f: Features)
    requires f.vol.Some?
    ensures IsScore(fit(examples, f), f.vol.value, Scoring(fit)(examples, f))
  {
    var q, unit := fit(examples, f), Floor(VolOf(f));
    ChanceIs(q);
    PerUnitIs(ProbPos(q), q.p50, unit);
    assert PerUnit(Scoring(fit)(examples, f), unit, ProbPos(q), q.p50);
  }

  // ------------------------------------------------------------------------------------------
  // What is learnt from

  /** All features of the day are known, and so is a close `horizon` days on; both closes are positive. */
  predicate Teaches(raw: seq<Raw>, horizon: nat, i: nat)
    requires i < |raw|
  {
    && Known(raw[i].features) && raw[i].features.close.value > 0.0
    && i + horizon < |raw| && raw[i + horizon].features.close.Some? && raw[i + horizon].features.close.value > 0.0
  }

  predicate Known(f: Features) {
    f.close.Some? && f.vol.Some? && !exists k :: 0 <= k < |f.others| && f.others[k] == None
  }

  /** The examples of the days from `i` up to `end`. */
  function Lessons(raw: seq<Raw>, horizon: nat, log: Log, i: nat, end: nat): seq<Example>
    requires i <= end <= |raw|
    decreases end - i
  {
    if i == end then []
    else
      (if Teaches(raw, horizon, i)
       then [Example(raw[i].features, log(raw[i + horizon].features.close.value / raw[i].features.close.value))]
       else [])
      + Lessons(raw, horizon, log, i + 1, end)
  }

  lemma KnownIsComplete(f: Features)
    ensures Known(f) <==> Complete(f)
  {}

  lemma OneLesson(raw: seq<Raw>, horizon: nat, log: Log, i: nat)
    requires i < |raw|
    ensures ExampleOf(RowAt(raw, horizon, log, i)) == Lessons(raw, horizon, log, i, i + 1)
  {
    KnownIsComplete(raw[i].features);
    assert Lessons(raw, horizon, log, i + 1, i + 1) == [];
  }

  lemma {:induction false} LessonsJoin(raw: seq<Raw>, horizon: nat, log: Log, i: nat, m: nat, end: nat)
    requires i <= m <= end <= |raw|
    ensures Lessons(raw, horizon, log, i, end)
         == Lessons(raw, horizon, log, i, m) + Lessons(raw, horizon, log, m, end)
    decreases m - i
  {
    if i < m {
      LessonsJoin(raw, horizon, log, i + 1, m, end);
    }
  }

  lemma {:induction false} ExamplesAre(raw: seq<Raw>, horizon: nat, log: Log, end: nat)
    requires end <= |raw|
    ensures Examples(Rows(raw, horizon, log), end) == Lessons(raw, horizon, log, 0, end)
  {
    if end > 0 {
      ExamplesAre(raw, horizon, log, end - 1);
      OneLesson(raw, horizon, log, end - 1);
      LessonsJoin(raw, horizon, log, 0, end - 1, end);
    }
  }

  /** A model is trained once at the start and once for each full period after it. */
  lemma {:induction false} TrainingsAre(retrainDays: int, j: nat)
    requires retrainDays > 0
    ensures Trainings(Every(retrainDays), j) == 1 + j / retrainDays
  {
    if j > 0 {
      TrainingsAre(retrainDays, j - 1);
      if j % retrainDays != 0 { SameQuotient(j, retrainDays); } else { NextQuotient(j, retrainDays); }
    }
  }

  lemma NextQuotient(j: nat, n: nat)
    requires 0 < n && 0 < j && j % n == 0
    ensures (j - 1) / n == j / n - 1
  {
    DivUnique(j - 1, n, j / n - 1, n - 1);
  }

  /**
   * The score of day `i`: none where a feature is missing or fewer than 50 days teach before the last multiple of
   * the retraining period, counted from the start; else that of the forecast learnt from those days.
   */
  ghost predicate ScoresDay(raw: seq<Raw>, horizon: nat, log: Log, fit: Fit, retrainDays: int, start: nat, i: nat,
                            score: Option<real>)
    requires start <= i < |raw| && retrainDays != 0
  {
    var xs := Lessons(raw, horizon, log, 0, i - (i - start) % retrainDays);
    if Known(raw[i].features) && |xs| >= 50
    then score.Some? && IsScore(fit(xs, raw[i].features), raw[i].features.vol.value, score.value)
    else score == None
  }

  lemma LastMultiple(start: nat, retrainDays: int, j: nat)
    requires retrainDays != 0
    ensures TrainEnd(start, Every(retrainDays), j) == start + j - j % retrainDays
  {
    TrainEndIs(start, retrainDays, j);
  }

  lemma ScoreAtIs(raw: seq<Raw>, horizon: nat, log: Log, fit: Fit, retrainDays: int, start: nat, j: nat)
    requires start + j < |raw| && retrainDays != 0
    ensures ScoresDay(raw, horizon, log, fit, retrainDays, start, start + j,
                      ScoreAt(Rows(raw, horizon, log), Scoring(fit), start, Every(retrainDays), j))
  {
    var rows, i := Rows(raw, horizon, log), start + j;
    var end := TrainEnd(start, Every(retrainDays), j);
    LastMultiple(start, retrainDays, j);
    ModelIsTrainedTo(rows, start, Every(retrainDays), j);
    ExamplesAre(raw, horizon, log, end);
    KnownIsComplete(raw[i].features);
    assert rows[i].features == raw[i].features;
    if Known(raw[i].features) && |Lessons(raw, horizon, log, 0, end)| >= 50 {
      ScoringIs(fit, Lessons(raw, horizon, log, 0, end), raw[i].features);
    }
  }

  // ------------------------------------------------------------------------------------------
  // Thresholds

  /** Buy at or above the one threshold; sell at or below the other, unless bought; hold without a score. */
  predicate IsSignal(s: Signal, score: Option<real>, buy: real, sell: real) {
    match score
    case None => s == Hold
    case Some(x) => if x >= buy then s == Signal.Buy else if x <= sell then s == Signal.Sell else s == Hold
  }

  /** The backtest of the signals of these thresholds comes out so, with at least three trades. */
  ghost predicate ComesOut(scores: seq<Option<real>>, run: Backtest, buy: real, sell: real, o: Outcome) {
    && buy in {-0.5, -0.3, -0.1, 0.0, 0.1, 0.3} && sell in {-0.5, -0.3, -0.1, 0.0} && sell < buy && o.trades >= 3
    && exists signals: seq<Signal> ::
         && |signals| == |scores| && run(signals) == Some(o)
         && forall k :: 0 <= k < |scores| ==> IsSignal(signals[k], scores[k], buy, sell)
  }

  /** By the Sharpe ratio, then by the return. */
  predicate Beats(o: Outcome, p: Outcome) { o.sharpe > p.sharpe || (o.sharpe == p.sharpe && o.ret > p.ret) }

  /** No thresholds come out better; of those that come out as well, these are the lowest, the buy first. */
  ghost predicate IsBest(scores: seq<Option<real>>, run: Backtest, best: Option<Candidate>) {
    match best
    case None => forall buy, sell, o :: !ComesOut(scores, run, buy, sell, o)
    case Some(c) =>
      && ComesOut(scores, run, c.buy, c.sell, c.outcome)
      && forall buy, sell, o :: ComesOut(scores, run, buy, sell, o) ==>
           && !Beats(o, c.outcome)
           && (Beats(c.outcome, o) || c.buy < buy || (c.buy == buy && c.sell <= sell))
  }

  lemma SignalsAre(scores: seq<Option<real>>, buy: real, sell: real, signals: seq<Signal>)
    ensures signals == Signals(scores, buy, sell)
       <==> |signals| == |scores| && forall k :: 0 <= k < |scores| ==> IsSignal(signals[k], scores[k], buy, sell)
  {}

  lemma ComesOutIff(scores: seq<Option<real>>, run: Backtest, c: Candidate)
    ensures ComesOut(scores, run, c.buy, c.sell, c.outcome) <==> c in Candidates(scores, run, |GRID_BUY|)
  {
    CandidatesExact(scores, run, c);
    forall signals ensures signals == Signals(scores, c.buy, c.sell)
      <==> |signals| == |scores| && forall k :: 0 <= k < |scores| ==> IsSignal(signals[k], scores[k], c.buy, c.sell)
    {
      SignalsAre(scores, c.buy, c.sell, signals);
    }
    assert c.buy in GRID_BUY <==> c.buy in {-0.5, -0.3, -0.1, 0.0, 0.1, 0.3};
    assert c.sell in GRID_SELL <==> c.sell in {-0.5, -0.3, -0.1, 0.0};
  }

  /** The candidates are tried from the lowest thresholds up. */
  ghost predicate Lower(c: Candidate, d: Candidate) { c.buy < d.buy || (c.buy == d.buy && c.sell < d.sell) }

  ghost predicate Rising(cands: seq<Candidate>) {
    forall i, j :: 0 <= i < j < |cands| ==> Lower(cands[i], cands[j])
  }

  lemma RisingJoin(a: seq<Candidate>, b: seq<Candidate>)
    requires Rising(a) && Rising(b) && forall c, d :: c in a && d in b ==> Lower(c, d)
    ensures Rising(a + b)
  {
    forall i, j | 0 <= i < j < |a + b| ensures Lower((a + b)[i], (a + b)[j]) {
      if i < |a| <= j { assert a[i] in a && b[j - |a|] in b; }
    }
  }

  lemma {:induction false} TriedRise(scores: seq<Option<real>>, run: Backtest, buy: real, n: nat)
    requires n <= |GRID_SELL|
    ensures Rising(TriedWith(scores, run, buy, n))
    ensures forall c :: c in TriedWith(scores, run, buy, n) ==> c.buy == buy && c.sell in GRID_SELL[..n]
  {
    if n > 0 {
      TriedRise(scores, run, buy, n - 1);
      var a, b := TriedWith(scores, run, buy, n - 1), Tried(scores, run, buy, GRID_SELL[n - 1]);
      forall c, d | c in a && d in b ensures Lower(c, d) {
        var k :| 0 <= k < n - 1 && GRID_SELL[k] == c.sell;
      }
      RisingJoin(a, b);
    }
  }

  lemma {:induction false} CandidatesRise(scores: seq<Option<real>>, run: Backtest, m: nat)
    requires m <= |GRID_BUY|
    ensures Rising(Candidates(scores, run, m))
    ensures forall c :: c in Candidates(scores, run, m) ==> c.buy in GRID_BUY[..m]
  {
    if m > 0 {
      CandidatesRise(scores, run, m - 1);
      TriedRise(scores, run, GRID_BUY[m - 1], |GRID_SELL|);
      var a, b := Candidates(scores, run, m - 1), TriedWith(scores, run, GRID_BUY[m - 1], |GRID_SELL|);
      forall c, d | c in a && d in b ensures Lower(c, d) {
        var k :| 0 <= k < m - 1 && GRID_BUY[k] == c.buy;
      }
      RisingJoin(a, b);
    }
  }

  lemma FirstBestIsBest(scores: seq<Option<real>>, run: Backtest, best: Option<Candidate>)
    requires FirstBest(Candidates(scores, run, |GRID_BUY|), best)
    ensures IsBest(scores, run, best)
  {
    var cands := Candidates(scores, run, |GRID_BUY|);
    CandidatesRise(scores, run, |GRID_BUY|);
    forall buy, sell, o ensures ComesOut(scores, run, buy, sell, o) <==> Candidate(buy, sell, o) in cands {
      ComesOutIff(scores, run, Candidate(buy, sell, o));
    }
    if best.Some? {
      var k :| 0 <= k < |cands| && cands[k] == best.value && Leads(cands, k);
      assert best.value == Candidate(best.value.buy, best.value.sell, best.value.outcome);
      forall d | d in cands
        ensures !Better(d, cands[k]) && (Better(cands[k], d) || d == cands[k] || Lower(cands[k], d))
      {
        var i :| 0 <= i < |cands| && cands[i] == d;
      }
    }
  }

  // ------------------------------------------------------------------------------------------
  // The whole

  predicate Priced(raw: seq<Raw>, i: nat)
    requires i < |raw|
  {
    raw[i].features.close.Some? && raw[i].features.close.value > 0.0
  }

  /** The days from the start on that have a positive close, in order. */
  ghost predicate AreTested(raw: seq<Raw>, start: nat, days: seq<nat>) {
    && (forall i, j :: 0 <= i < j < |days| ==> days[i] < days[j])
    && (forall i: nat :: i in days <==> start <= i < |raw| && Priced(raw, i))
  }

  /** The bar and the score of a tested day. */
  ghost predicate IsTest(raw: seq<Raw>, horizon: nat, log: Log, fit: Fit, retrainDays: int, start: nat, i: nat,
                         bar: Bar, score: Option<real>)
    requires retrainDays != 0
  {
    && start <= i < |raw| && raw[i].features.close == Some(bar.close) && bar.day == raw[i].day
    && ScoresDay(raw, horizon, log, fit, retrainDays, start, i, score)
  }

  ghost predicate AreTests(raw: seq<Raw>, horizon: nat, log: Log, fit: Fit, retrainDays: int, start: nat,
                           days: seq<nat>, bars: seq<Bar>, scores: seq<Option<real>>)
    requires retrainDays != 0
  {
    && AreTested(raw, start, days) && |scores| == |bars| == |days|
    && forall k :: 0 <= k < |days| ==>
         IsTest(raw, horizon, log, fit, retrainDays, start, days[k], bars[k], scores[k])
  }

  /** The best thresholds for the tested days' scores, in a backtest over their closes. */
  ghost predicate IsCalibrated(raw: seq<Raw>, horizon: nat, log: Log, fit: Fit, retrainDays: int, start: nat,
                               run: seq<Bar> -> Backtest, best: Option<Candidate>)
    requires retrainDays != 0
  {
    exists days, bars, scores ::
      AreTests(raw, horizon, log, fit, retrainDays, start, days, bars, scores) && IsBest(scores, run(bars), best)
  }

  function From(start: nat, places: seq<nat>): seq<nat> {
    seq(|places|, k requires 0 <= k < |places| => start + places[k])
  }

  lemma KeptIffPriced(raw: seq<Raw>, horizon: nat, log: Log, start: nat, test: seq<Row>, kept: seq<nat>, j: nat)
    requires start <= |raw| && test == Rows(raw, horizon, log)[start..] && kept == Kept(test, |test|)
    ensures j in kept <==> start + j < |raw| && Priced(raw, start + j)
  {
    KeptExact(test, |test|);
    if j < |test| { assert test[j] == RowAt(raw, horizon, log, start + j); }
  }

  lemma TestedAre(raw: seq<Raw>, horizon: nat, log: Log, start: nat, test: seq<Row>, kept: seq<nat>)
    requires start <= |raw| && test == Rows(raw, horizon, log)[start..] && kept == Kept(test, |test|)
    ensures AreTested(raw, start, From(start, kept))
  {
    var days := From(start, kept);
    KeptExact(test, |test|);
    forall i: nat ensures i in days <==> start <= i < |raw| && Priced(raw, i) {
      if start <= i { KeptIffPriced(raw, horizon, log, start, test, kept, i - start); }
      InFrom(start, kept, i);
    }
  }

  lemma InFrom(start: nat, kept: seq<nat>, i: nat)
    ensures i in From(start, kept) <==> start <= i && i - start in kept
  {
    if start <= i && i - start in kept {
      var k :| 0 <= k < |kept| && kept[k] == i - start;
      assert From(start, kept)[k] == i;
    }
  }

  lemma OneTest(raw: seq<Raw>, horizon: nat, log: Log, fit: Fit, retrainDays: int, start: nat, j: nat,
                test: seq<Row>, all: seq<Option<real>>)
    requires retrainDays != 0 && start + j < |raw| && test == Rows(raw, horizon, log)[start..] && test[j].close > 0.0
    requires all == Scores(Rows(raw, horizon, log), Scoring(fit), start, Every(retrainDays), |test|)
    ensures j < |all|
    ensures IsTest(raw, horizon, log, fit, retrainDays, start, start + j, Bar(test[j].day, test[j].close), all[j])
  {
    ScoresExact(Rows(raw, horizon, log), Scoring(fit), start, Every(retrainDays), |test|);
    ScoreAtIs(raw, horizon, log, fit, retrainDays, start, j);
    assert test[j] == RowAt(raw, horizon, log, start + j);
  }

  /** What holds of each test row with a positive close, its bar and its score holds of the aligned ones. */
  lemma AlignedFit(test: seq<Row>, all: seq<Option<real>>, kept: seq<nat>, fits: (nat, Bar, Option<real>) -> bool)
    requires |all| == |test| && kept == Kept(test, |test|)
    requires forall j: nat :: j < |test| && test[j].close > 0.0 ==> fits(j, Bar(test[j].day, test[j].close), all[j])
    ensures |BarsOf(test, |test|)| == |ScoresOf(test, all, |test|)| == |kept|
    ensures forall k :: 0 <= k < |kept| ==> fits(kept[k], BarsOf(test, |test|)[k], ScoresOf(test, all, |test|)[k])
  {
    StayAligned(test, all, |test|);
    forall k | 0 <= k < |kept| ensures fits(kept[k], BarsOf(test, |test|)[k], ScoresOf(test, all, |test|)[k]) {
      assert kept[k] in kept && BarAndScoreOf(test, all, |test|, k, kept[k]);
    }
  }

  lemma TestsAre(raw: seq<Raw>, horizon: nat, log: Log, fit: Fit, retrainDays: int, start: nat, test: seq<Row>,
                 all: seq<Option<real>>, kept: seq<nat>)
    requires retrainDays != 0 && start <= |raw| && test == Rows(raw, horizon, log)[start..]
    requires all == Scores(Rows(raw, horizon, log), Scoring(fit), start, Every(retrainDays), |test|)
    requires kept == Kept(test, |test|)
    ensures AreTests(raw, horizon, log, fit, retrainDays, start, From(start, kept), BarsOf(test, |test|),
                     ScoresOf(test, all, |test|))
  {
    var fits := (j: nat, bar, score) => IsTest(raw, horizon, log, fit, retrainDays, start, start + j, bar, score);
    ScoresExact(Rows(raw, horizon, log), Scoring(fit), start, Every(retrainDays), |test|);
    forall j: nat | j < |test| && test[j].close > 0.0 ensures fits(j, Bar(test[j].day, test[j].close), all[j]) {
      OneTest(raw, horizon, log, fit, retrainDays, start, j, test, all);
    }
    AlignedFit(test, all, kept, fits);
    TestedAre(raw, horizon, log, start, test, kept);
  }

  lemma BestIs(raw: seq<Raw>, horizon: nat, log: Log, fit: Fit, retrainDays: int, start: nat,
               run: seq<Bar> -> Backtest, best: Option<Candidate>, test: seq<Row>, all: seq<Option<real>>)
    requires retrainDays != 0 && start <= |raw| && test == Rows(raw, horizon, log)[start..]
    requires all == Scores(Rows(raw, horizon, log), Scoring(fit), start, Every(retrainDays), |test|)
    requires BestOn(test, all, run, best)
    ensures IsCalibrated(raw, horizon, log, fit, retrainDays, start, run, best)
  {
    TestsAre(raw, horizon, log, fit, retrainDays, start, test, all, Kept(test, |test|));
    FirstBestIsBest(ScoresOf(test, all, |test|), run(BarsOf(test, |test|)), best);
  }

  /** The calibration is that. */
  lemma CalibratedIs(raw: seq<Raw>, horizon: nat, log: Log, fit: Fit, retrainDays: int, start: nat,
                     run: seq<Bar> -> Backtest, best: Option<Candidate>)
    requires retrainDays != 0
    requires Calibrated(Rows(raw, horizon, log), start, Scoring(fit), Every(retrainDays), run, best)
    ensures IsCalibrated(raw, horizon, log, fit, retrainDays, start, run, best)
  {
    var rows := Rows(raw, horizon, log);
    var n := |rows| - start;
    var all := Scores(rows, Scoring(fit), start, Every(retrainDays), n);
    assert n == |rows[start..]|;
    BestIs(raw, horizon, log, fit, retrainDays, start, run, best, rows[start..], all);
  }
}
