/** Targets, walk-forward scores, their alignment with the bars, and the search of a grid of thresholds. */
module WalkForward {
  import opened Options
  import opened Division

  // Training and the backtest are functions given from outside.

  /** The feature columns of a day: the close, the 21-day volatility, the others. */
  datatype Features = Features(close: Option<real>, vol: Option<real>, others: seq<Option<real>>)

  datatype Raw = Raw(day: int, features: Features)

  datatype Row = Row(day: int, close: real, features: Features, target: Option<real>)

  type Log = real -> real

  /** `log(y / x)`, where both closes are there and positive. */
  function TargetOf(log: Log, x: Option<real>, y: Option<real>): Option<real> {
    if x.Some? && y.Some? && x.value > 0.0 && y.value > 0.0 then Some(log(y.value / x.value)) else None
  }

  /** The row at `i`: its target looks `horizon` days ahead. */
  function RowAt(raw: seq<Raw>, horizon: nat, log: Log, i: nat): Row
    requires i < |raw|
  {
    var f := raw[i].features;
    var target := if i + horizon < |raw| then TargetOf(log, f.close, raw[i + horizon].features.close) else None;
    Row(raw[i].day, if f.close.Some? then f.close.value else 0.0, f, target)
  }

  function Rows(raw: seq<Raw>, horizon: nat, log: Log): (rows: seq<Row>)
    ensures |rows| == |raw| && forall i :: 0 <= i < |raw| ==> rows[i] == RowAt(raw, horizon, log, i)
  {
    seq(|raw|, i requires 0 <= i < |raw| => RowAt(raw, horizon, log, i))
  }

  method LoadRows(raw: seq<Raw>, horizon: nat, log: Log) returns (rows: seq<Row>)
    ensures rows == Rows(raw, horizon, log)
  {
    rows := [];
    for i := 0 to |raw|
      invariant |rows| == i && forall k :: 0 <= k < i ==> rows[k] == RowAt(raw, horizon, log, k)
    {
      rows := rows + [RowAt(raw, horizon, log, i)];
    }
  }

  // ------------------------------------------------------------------------------------------
  // Training and scoring

  predicate Complete(f: Features) {
    f.close.Some? && f.vol.Some? && forall k :: 0 <= k < |f.others| ==> f.others[k].Some?
  }

  datatype Example = Example(x: Features, y: real)

  function ExampleOf(r: Row): seq<Example> {
    if r.target.Some? && Complete(r.features) then [Example(r.features, r.target.value)] else []
  }

  /** The examples of the rows before `end`. */
  function Examples(rows: seq<Row>, end: nat): seq<Example>
    requires end <= |rows|
  {
    if end == 0 then [] else Examples(rows, end - 1) + ExampleOf(rows[end - 1])
  }

  const ENOUGH: nat := 50

  /** What is predicted: the 10, 50 and 90 per cent quantiles. */
  datatype Quantiles = Quantiles(p10: real, p50: real, p90: real)

  /** Training is a function of the examples; a model predicts from a day's features. */
  type Fit = (seq<Example>, Features) -> Quantiles

  /** A model is known by the examples it was trained on; too few give none. */
  type Model = Option<seq<Example>>

  function Train(rows: seq<Row>, end: nat): Model
    requires end <= |rows|
  {
    if |Examples(rows, end)| < ENOUGH then None else Some(Examples(rows, end))
  }

  method TrainQ(rows: seq<Row>, end: nat) returns (m: Model)
    requires end <= |rows|
    ensures m == Train(rows, end)
  {
    var examples := [];
    for i := 0 to end
      invariant examples == Examples(rows, i)
    {
      examples := examples + ExampleOf(rows[i]);
    }
    m := if |examples| < ENOUGH then None else Some(examples);
  }

  function Clip(x: real): (r: real)
    ensures 0.01 <= r <= 0.99
    ensures 0.01 <= x <= 0.99 ==> r == x
  {
    if x < 0.01 then 0.01 else if x > 0.99 then 0.99 else x
  }

  const EPSILON: real := 0.000000001

  function ProbPos(q: Quantiles): (p: real)
    ensures 0.01 <= p <= 0.99
  {
    if q.p10 >= 0.0 then 0.95
    else if q.p90 <= 0.0 then 0.05
    else if q.p50 > 0.0 then Clip(0.5 + 0.4 * (q.p50 / (q.p50 - q.p10 + EPSILON)))
    else Clip(0.1 + 0.4 * (q.p90 / (q.p90 - q.p50 + EPSILON)))
  }

  function Floor(vol: real): (v: real)
    ensures v >= 0.0001
  {
    if vol < 0.0001 then 0.0001 else vol
  }

  /** A score from a model's training examples and a day's features. */
  type Scorer = (seq<Example>, Features) -> real

  function VolOf(f: Features): real { if f.vol.Some? then f.vol.value else 0.0 }

  /** The script's score: the chance of a gain times the median forecast per unit of volatility. */
  function Scoring(fit: Fit): Scorer {
    (examples: seq<Example>, f: Features) =>
      var q := fit(examples, f);
      ProbPos(q) * (q.p50 / Floor(VolOf(f)))
  }

  /** A score has the sign of the median forecast. */
  lemma ScoreHasForecastSign(fit: Fit, examples: seq<Example>, f: Features)
    ensures Scoring(fit)(examples, f) > 0.0 <==> fit(examples, f).p50 > 0.0
    ensures Scoring(fit)(examples, f) < 0.0 <==> fit(examples, f).p50 < 0.0
  {
    var q, v := fit(examples, f), Floor(VolOf(f));
    var r := q.p50 / v;
    assert r * v == q.p50;
    SignOfProduct(v, r);
    SignOfProduct(ProbPos(q), r);
  }

  lemma SignOfProduct(x: real, y: real)
    requires x > 0.0
    ensures (x * y > 0.0 <==> y > 0.0) && (x * y < 0.0 <==> y < 0.0)
  {}

  function ScoreBy(m: Model, score: Scorer, f: Features): Option<real> {
    if m == None || !Complete(f) then None else Some(score(m.value, f))
  }

  /** At which positions a model is trained anew. */
  type Schedule = nat -> bool

  function Every(retrainDays: int): Schedule
    requires retrainDays != 0
  {
    (j: nat) => j % retrainDays == 0
  }

  /** The row up to which the model in force at position `j` was trained. */
  function TrainEnd(start: nat, due: Schedule, j: nat): (end: int)
    ensures start <= end <= start + j
  {
    if j == 0 || due(j) then start + j else TrainEnd(start, due, j - 1)
  }

  function ScoreAt(rows: seq<Row>, score: Scorer, start: nat, due: Schedule, j: nat): Option<real>
    requires start + j < |rows|
  {
    ScoreBy(ModelAt(rows, start, due, j), score, rows[start + j].features)
  }

  /** How often a model has been trained when position `j` is reached. */
  function Trainings(due: Schedule, j: nat): nat
  {
    if j == 0 then 1 else Trainings(due, j - 1) + if due(j) then 1 else 0
  }

  /** The model in force at position `j`. */
  function ModelAt(rows: seq<Row>, start: nat, due: Schedule, j: nat): Model
    requires start + j <= |rows|
  {
    if j == 0 || due(j) then Train(rows, start + j) else ModelAt(rows, start, due, j - 1)
  }

  /** The scores of the first `n` positions. */
  function Scores(rows: seq<Row>, score: Scorer, start: nat, due: Schedule, n: nat): seq<Option<real>>
    requires start + n <= |rows|
  {
    if n == 0 then []
    else Scores(rows, score, start, due, n - 1) + [ScoreAt(rows, score, start, due, n - 1)]
  }

  lemma {:induction false} ScoresExact(rows: seq<Row>, score: Scorer, start: nat, due: Schedule, n: nat)
    requires start + n <= |rows|
    ensures |Scores(rows, score, start, due, n)| == n
    ensures forall j :: 0 <= j < n
              ==> Scores(rows, score, start, due, n)[j] == ScoreAt(rows, score, start, due, j)
  {
    if n > 0 { ScoresExact(rows, score, start, due, n - 1); }
  }

  /** One position: retrains when it is due, and scores the row. */
  method NextScore(rows: seq<Row>, score: Scorer, start: nat, due: Schedule, j: nat, before: Model, count: nat)
    returns (scored: Option<real>, model: Model, retrains: nat)
    requires start + j < |rows|
    requires j == 0 ==> before == ModelAt(rows, start, due, 0) && count == 1
    requires j > 0 ==> before == ModelAt(rows, start, due, j - 1) && count == Trainings(due, j - 1)
    ensures model == ModelAt(rows, start, due, j) && retrains == Trainings(due, j)
    ensures scored == ScoreAt(rows, score, start, due, j)
  {
    model, retrains := before, count;
    if j > 0 && due(j) {
      model := TrainQ(rows, start + j);
      retrains := retrains + 1;
    }
    scored := ScoreBy(model, score, rows[start + j].features);
  }

  method ComputeScores(rows: seq<Row>, score: Scorer, start: nat, due: Schedule)
    returns (scores: seq<Option<real>>, retrains: nat)
    requires start < |rows|
    ensures scores == Scores(rows, score, start, due, |rows| - start)
    ensures retrains == Trainings(due, |rows| - start - 1)
  {
    scores := [];
    var model := TrainQ(rows, start);
    retrains := 1;
    var n := |rows| - start;
    for j := 0 to n
      invariant scores == Scores(rows, score, start, due, j)
      invariant j == 0 ==> model == ModelAt(rows, start, due, 0) && retrains == 1
      invariant j > 0 ==> model == ModelAt(rows, start, due, j - 1) && retrains == Trainings(due, j - 1)
    {
      var scored;
      scored, model, retrains := NextScore(rows, score, start, due, j, model, retrains);
      scores := scores + [scored];
    }
  }

  /** The model in force was trained up to the last retraining. */
  lemma {:induction false} ModelIsTrainedTo(rows: seq<Row>, start: nat, due: Schedule, j: nat)
    requires start + j <= |rows|
    ensures ModelAt(rows, start, due, j) == Train(rows, TrainEnd(start, due, j))
  {
    if j > 0 && !due(j) { ModelIsTrainedTo(rows, start, due, j - 1); }
  }

  /** Retraining at multiples of a period, that row is the start plus `(j div period) * period`. */
  lemma {:induction false} TrainEndIs(start: nat, retrainDays: int, j: nat)
    requires retrainDays != 0
    ensures TrainEnd(start, Every(retrainDays), j) == start + j / retrainDays * retrainDays
  {
    if j > 0 && j % retrainDays != 0 {
      TrainEndIs(start, retrainDays, j - 1);
      SameQuotient(j, retrainDays);
    }
  }

  lemma SameQuotient(j: nat, n: int)
    requires j > 0 && n != 0 && j % n != 0
    ensures (j - 1) / n == j / n
  {
    var m, q, r := if n > 0 then n else -n, j / n, j % n;
    var p := if n > 0 then q else -q;
    assert m * p == n * q && j - 1 == m * p + (r - 1);
    DivUnique(j - 1, m, p, r - 1);
    assert n < 0 ==> (j - 1) / n == -((j - 1) / m);
  }

  // ------------------------------------------------------------------------------------------
  // How far ahead a score looks

  /** The two histories are the same before `k`; if one ends before `k`, so does the other. */
  ghost predicate SameBefore(a: seq<Raw>, b: seq<Raw>, k: nat) {
    && (|a| == |b| || (|a| >= k && |b| >= k))
    && forall i :: 0 <= i < k && i < |a| && i < |b| ==> a[i] == b[i]
  }

  lemma {:induction false} SameExamples(a: seq<Raw>, b: seq<Raw>, horizon: nat, log: Log, end: nat)
    requires end <= |a| && end <= |b| && SameBefore(a, b, end + horizon)
    ensures Examples(Rows(a, horizon, log), end) == Examples(Rows(b, horizon, log), end)
  {
    if end > 0 {
      assert SameBefore(a, b, end - 1 + horizon);
      SameExamples(a, b, horizon, log, end - 1);
      assert RowAt(a, horizon, log, end - 1) == RowAt(b, horizon, log, end - 1);
    }
  }

  /** The first row a score cannot depend on. */
  function LooksTo(start: nat, due: Schedule, horizon: nat, j: nat): nat
  {
    var end := TrainEnd(start, due, j) + horizon;
    if end > start + j + 1 then end else start + j + 1
  }

  /**
   * The look-ahead bound: a score does not change whatever happens to the rows at or after the
   * later of the next day and `horizon` days after the last training's end.
   */
  lemma ScoreLooksNoFurther(a: seq<Raw>, b: seq<Raw>, horizon: nat, log: Log, score: Scorer, start: nat, due: Schedule,
                            j: nat)
    requires start + j < |a| && start + j < |b|
    requires SameBefore(a, b, LooksTo(start, due, horizon, j))
    ensures ScoreAt(Rows(a, horizon, log), score, start, due, j)
         == ScoreAt(Rows(b, horizon, log), score, start, due, j)
  {
    var end := TrainEnd(start, due, j);
    assert SameBefore(a, b, end + horizon);
    SameExamples(a, b, horizon, log, end);
    ModelIsTrainedTo(Rows(a, horizon, log), start, due, j);
    ModelIsTrainedTo(Rows(b, horizon, log), start, due, j);
    assert a[start + j] == b[start + j];
  }

  // ------------------------------------------------------------------------------------------
  // Scores and bars

  /** The positions of the test rows before `n` with a positive close. */
  function Kept(test: seq<Row>, n: nat): seq<nat>
    requires n <= |test|
  {
    if n == 0 then [] else if test[n - 1].close > 0.0 then Kept(test, n - 1) + [n - 1] else Kept(test, n - 1)
  }

  lemma {:induction false} KeptExact(test: seq<Row>, n: nat)
    requires n <= |test|
    ensures forall j :: j in Kept(test, n) <==> 0 <= j < n && test[j].close > 0.0
    ensures forall i, k :: 0 <= i < k < |Kept(test, n)| ==> Kept(test, n)[i] < Kept(test, n)[k]
  {
    if n > 0 {
      KeptExact(test, n - 1);
      var kept := Kept(test, n - 1);
      assert forall i :: 0 <= i < |kept| ==> kept[i] in kept;
    }
  }

  /** A bar of the backtest: only its day and close matter, the rest repeats the close. */
  datatype Bar = Bar(day: int, close: real)

  function BarsOf(test: seq<Row>, n: nat): seq<Bar>
    requires n <= |test|
  {
    if n == 0 then []
    else if test[n - 1].close > 0.0 then BarsOf(test, n - 1) + [Bar(test[n - 1].day, test[n - 1].close)]
    else BarsOf(test, n - 1)
  }

  function ScoresOf(test: seq<Row>, scores: seq<Option<real>>, n: nat): seq<Option<real>>
    requires n <= |test|
  {
    if n == 0 then []
    else if test[n - 1].close > 0.0
    then ScoresOf(test, scores, n - 1) + [if n - 1 < |scores| then scores[n - 1] else None]
    else ScoresOf(test, scores, n - 1)
  }

  method Align(test: seq<Row>, scores: seq<Option<real>>) returns (bars: seq<Bar>, aligned: seq<Option<real>>)
    ensures bars == BarsOf(test, |test|) && aligned == ScoresOf(test, scores, |test|)
  {
    bars, aligned := [], [];
    for j := 0 to |test|
      invariant bars == BarsOf(test, j) && aligned == ScoresOf(test, scores, j)
    {
      if test[j].close > 0.0 {
        bars := bars + [Bar(test[j].day, test[j].close)];
        aligned := aligned + [if j < |scores| then scores[j] else None];
      }
    }
  }

  /** Bars and scores come from the same test rows, one for one: those with a positive close. */
  lemma {:induction false} StayAligned(test: seq<Row>, scores: seq<Option<real>>, n: nat)
    requires n <= |test| == |scores|
    ensures |BarsOf(test, n)| == |ScoresOf(test, scores, n)| == |Kept(test, n)|
    ensures forall k :: 0 <= k < |Kept(test, n)| ==> BarAndScoreOf(test, scores, n, k, Kept(test, n)[k])
    ensures forall j :: j in Kept(test, n) <==> 0 <= j < n && test[j].close > 0.0
    ensures forall i, k :: 0 <= i < k < |Kept(test, n)| ==> Kept(test, n)[i] < Kept(test, n)[k]
  {
    KeptExact(test, n);
    if n > 0 {
      StayAligned(test, scores, n - 1);
      var kept := Kept(test, n - 1);
      forall k | 0 <= k < |kept| ensures BarAndScoreOf(test, scores, n, k, kept[k]) {
        assert BarAndScoreOf(test, scores, n - 1, k, kept[k]);
      }
    }
  }

  /** The bar and the score at `k` are those of the test row `j`. */
  ghost predicate BarAndScoreOf(test: seq<Row>, scores: seq<Option<real>>, n: nat, k: nat, j: nat) {
    && n <= |test| && j < |test| == |scores|
    && k < |BarsOf(test, n)| && BarsOf(test, n)[k] == Bar(test[j].day, test[j].close)
    && k < |ScoresOf(test, scores, n)| && ScoresOf(test, scores, n)[k] == scores[j]
  }

  // ------------------------------------------------------------------------------------------
  // The thresholds

  const GRID_BUY: seq<real> := [-0.5, -0.3, -0.1, 0.0, 0.1, 0.3]
  const GRID_SELL: seq<real> := [-0.5, -0.3, -0.1, 0.0]

  datatype Signal = Buy | Sell | Hold

  function SignalOf(score: Option<real>, buy: real, sell: real): Signal {
    if score.Some? && score.value >= buy then Buy
    else if score.Some? && score.value <= sell then Sell
    else Hold
  }

  function Signals(scores: seq<Option<real>>, buy: real, sell: real): seq<Signal> {
    seq(|scores|, i requires 0 <= i < |scores| => SignalOf(scores[i], buy, sell))
  }

  datatype Outcome = Outcome(sharpe: real, ret: real, trades: nat)

  datatype Candidate = Candidate(buy: real, sell: real, outcome: Outcome)

  /** The backtest of the bars at hand, which may raise. */
  type Backtest = seq<Signal> -> Option<Outcome>

  /** The candidate of a pair of thresholds, if it is one: a sell below the buy, at least 3 trades. */
  function Tried(scores: seq<Option<real>>, run: Backtest, buy: real, sell: real): (tried: seq<Candidate>)
    ensures |tried| <= 1
  {
    if sell >= buy then []
    else
      match run(Signals(scores, buy, sell))
      case None => []
      case Some(o) => if o.trades < 3 then [] else [Candidate(buy, sell, o)]
  }

  /** The candidates of one buy threshold with the first `n` sell thresholds. */
  function TriedWith(scores: seq<Option<real>>, run: Backtest, buy: real, n: nat): seq<Candidate>
    requires n <= |GRID_SELL|
  {
    if n == 0 then [] else TriedWith(scores, run, buy, n - 1) + Tried(scores, run, buy, GRID_SELL[n - 1])
  }

  /** The candidates of the first `m` buy thresholds, in the order they are tried. */
  function Candidates(scores: seq<Option<real>>, run: Backtest, m: nat): seq<Candidate>
    requires m <= |GRID_BUY|
  {
    if m == 0 then []
    else Candidates(scores, run, m - 1) + TriedWith(scores, run, GRID_BUY[m - 1], |GRID_SELL|)
  }

  /** Tuples compare by the Sharpe ratio, then by the return. */
  predicate Better(x: Candidate, y: Candidate) {
    x.outcome.sharpe > y.outcome.sharpe
    || (x.outcome.sharpe == y.outcome.sharpe && x.outcome.ret > y.outcome.ret)
  }

  /** `best` is the first of the candidates that none beats. */
  ghost predicate FirstBest(cands: seq<Candidate>, best: Option<Candidate>) {
    match best
    case None => cands == []
    case Some(b) =>
      exists k :: 0 <= k < |cands| && cands[k] == b && Leads(cands, k)
  }

  ghost predicate Leads(cands: seq<Candidate>, k: nat)
    requires k < |cands|
  {
    && (forall i :: 0 <= i < |cands| ==> !Better(cands[i], cands[k]))
    && (forall i :: 0 <= i < k ==> Better(cands[k], cands[i]))
  }

  /** The best so far and what was just tried. */
  function KeepBest(best: Option<Candidate>, tried: seq<Candidate>): Option<Candidate> {
    if tried != [] && (best == None || Better(tried[0], best.value)) then Some(tried[0]) else best
  }

  lemma FirstBestOnTried(cands: seq<Candidate>, best: Option<Candidate>, tried: seq<Candidate>)
    requires FirstBest(cands, best) && |tried| <= 1
    ensures FirstBest(cands + tried, KeepBest(best, tried))
  {
    if tried == [] {
      assert cands + tried == cands;
    } else {
      assert tried == [tried[0]];
      FirstBestOn(cands, best, tried[0]);
    }
  }

  lemma FirstBestOn(cands: seq<Candidate>, best: Option<Candidate>, c: Candidate)
    requires FirstBest(cands, best)
    ensures FirstBest(cands + [c], KeepBest(best, [c]))
  {
    var all := cands + [c];
    if best.Some? {
      var k :| 0 <= k < |cands| && cands[k] == best.value && Leads(cands, k);
      var lead := if Better(c, best.value) then |cands| else k;
      forall i | 0 <= i < |cands| ensures !Better(all[i], all[lead]) {}
      forall i | 0 <= i < lead ensures Better(all[lead], all[i]) {}
      assert Leads(all, lead);
    } else {
      assert Leads(all, 0);
    }
  }

  /** One buy threshold against every sell threshold. */
  method GridRow(scores: seq<Option<real>>, run: Backtest, buy: real, ghost before: seq<Candidate>,
                 start: Option<Candidate>)
    returns (best: Option<Candidate>)
    requires FirstBest(before, start)
    ensures FirstBest(before + TriedWith(scores, run, buy, |GRID_SELL|), best)
  {
    best := start;
    assert before + TriedWith(scores, run, buy, 0) == before;
    for n := 0 to |GRID_SELL|
      invariant FirstBest(before + TriedWith(scores, run, buy, n), best)
    {
      ghost var cands := before + TriedWith(scores, run, buy, n);
      var tried := Tried(scores, run, buy, GRID_SELL[n]);
      FirstBestOnTried(cands, best, tried);
      assert before + (TriedWith(scores, run, buy, n) + tried) == cands + tried;
      best := KeepBest(best, tried);
    }
  }

  method GridSearch(scores: seq<Option<real>>, run: Backtest) returns (best: Option<Candidate>)
    ensures FirstBest(Candidates(scores, run, |GRID_BUY|), best)
  {
    best := None;
    for m := 0 to |GRID_BUY|
      invariant FirstBest(Candidates(scores, run, m), best)
    {
      best := GridRow(scores, run, GRID_BUY[m], Candidates(scores, run, m), best);
    }
  }

  /** The first row after the day, or the end. */
  function TestStart(raw: seq<Raw>, trainEnd: int, i: nat): (start: nat)
    requires i <= |raw|
    ensures i <= start <= |raw|
    ensures (forall k :: i <= k < start ==> raw[k].day <= trainEnd) && (start < |raw| ==> raw[start].day > trainEnd)
    decreases |raw| - i
  {
    if i == |raw| || raw[i].day > trainEnd then i else TestStart(raw, trainEnd, i + 1)
  }

  /** `best` is the grid's first best on the scores and bars of the test rows with a positive close. */
  ghost predicate BestOn(test: seq<Row>, scores: seq<Option<real>>, run: seq<Bar> -> Backtest,
                         best: Option<Candidate>) {
    FirstBest(Candidates(ScoresOf(test, scores, |test|), run(BarsOf(test, |test|)), |GRID_BUY|), best)
  }

  method AlignAndSearch(test: seq<Row>, scores: seq<Option<real>>, run: seq<Bar> -> Backtest)
    returns (best: Option<Candidate>)
    ensures BestOn(test, scores, run, best)
  {
    var bars, aligned := Align(test, scores);
    best := GridSearch(aligned, run(bars));
  }

  /** The same with the walk-forward scores of the rows from `start` on. */
  ghost predicate Calibrated(rows: seq<Row>, start: nat, score: Scorer, due: Schedule, run: seq<Bar> -> Backtest,
                             best: Option<Candidate>)
  {
    start <= |rows| && BestOn(rows[start..], Scores(rows, score, start, due, |rows| - start), run, best)
  }

  method CalibrateFrom(rows: seq<Row>, start: nat, score: Scorer, due: Schedule, run: seq<Bar> -> Backtest)
    returns (best: Option<Candidate>)
    requires start < |rows|
    ensures Calibrated(rows, start, score, due, run, best)
  {
    var scores, retrains := ComputeScores(rows, score, start, due);
    best := AlignAndSearch(rows[start..], scores, run);
  }

  /** The calibration of one ticker: none with too little data, else the first best candidate of the grid. */
  method CalibrateOne(raw: seq<Raw>, horizon: nat, log: Log, fit: Fit, retrainDays: int, trainEnd: int,
                      run: seq<Bar> -> Backtest)
    returns (best: Option<Candidate>)
    requires retrainDays != 0
    ensures var start := TestStart(raw, trainEnd, 0);
            if |raw| < 100 || start + 20 >= |raw| then best == None
            else Calibrated(Rows(raw, horizon, log), start, Scoring(fit), Every(retrainDays), run, best)
  {
    var rows := LoadRows(raw, horizon, log);
    var start := TestStart(raw, trainEnd, 0);
    if |rows| < 100 || start + 20 >= |rows| { return None; }
    best := CalibrateFrom(rows, start, Scoring(fit), Every(retrainDays), run);
  }

  /** The candidates are the pairs of the grid with a sell below the buy that trade at least 3 times. */
  lemma CandidatesExact(scores: seq<Option<real>>, run: Backtest, c: Candidate)
    ensures c in Candidates(scores, run, |GRID_BUY|)
            <==> c.buy in GRID_BUY && c.sell in GRID_SELL && c.sell < c.buy && c.outcome.trades >= 3
                 && run(Signals(scores, c.buy, c.sell)) == Some(c.outcome)
  {
    CandidatesOf(scores, run, |GRID_BUY|, c);
    TriedOf(scores, run, c.buy, |GRID_SELL|, c);
  }

  lemma {:induction false} TriedOf(scores: seq<Option<real>>, run: Backtest, buy: real, n: nat, c: Candidate)
    requires n <= |GRID_SELL|
    ensures c in TriedWith(scores, run, buy, n) <==> c.sell in GRID_SELL[..n] && c in Tried(scores, run, buy, c.sell)
  {
    if n > 0 {
      TriedOf(scores, run, buy, n - 1, c);
      assert GRID_SELL[..n] == GRID_SELL[..n - 1] + [GRID_SELL[n - 1]];
    }
  }

  lemma {:induction false} CandidatesOf(scores: seq<Option<real>>, run: Backtest, m: nat, c: Candidate)
    requires m <= |GRID_BUY|
    ensures c in Candidates(scores, run, m)
            <==> c.buy in GRID_BUY[..m] && c in TriedWith(scores, run, c.buy, |GRID_SELL|)
  {
    if m > 0 {
      CandidatesOf(scores, run, m - 1, c);
      TriedOf(scores, run, GRID_BUY[m - 1], |GRID_SELL|, c);
      assert GRID_BUY[..m] == GRID_BUY[..m - 1] + [GRID_BUY[m - 1]];
    }
  }
}
