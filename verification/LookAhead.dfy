/** Exactly when a walk-forward score depends on rows after its own. */
module LookAhead {
  import opened Options
  import opened WalkForward

  ghost predicate SameScore(a: seq<Raw>, b: seq<Raw>, horizon: nat, log: Log, fit: Fit, start: nat, due: Schedule,
                            j: nat)
  {
    && start + j < |a| && start + j < |b|
    && ScoreAt(Rows(a, horizon, log), Scoring(fit), start, due, j)
       == ScoreAt(Rows(b, horizon, log), Scoring(fit), start, due, j)
  }

  /** Whatever the training: histories that agree up to the scored row, that row included, give the same score. */
  ghost predicate ReadsNoLaterRow(horizon: nat, log: Log, start: nat, due: Schedule, j: nat) {
    forall a, b, fit :: start + j < |a| && start + j < |b| && SameBefore(a, b, start + j + 1)
                        ==> SameScore(a, b, horizon, log, fit, start, due, j)
  }

  lemma {:induction false} ExamplesAreRows(rows: seq<Row>, end: nat)
    requires end <= |rows|
    ensures |Examples(rows, end)| <= end
  {
    if end > 0 { ExamplesAreRows(rows, end - 1); }
  }

  /** A day on which everything is known. */
  function Day(i: int, close: real): Raw { Raw(i, Features(Some(close), Some(1.0), [])) }

  /** `n` days at price 1, the last at `close`. */
  function Flat(n: nat, close: real): seq<Raw>
    requires n > 0
  {
    seq(n, i => Day(i, if i == n - 1 then close else 1.0))
  }

  /** Trained up to `horizon` days before the end, every day is an example, and the last reads the last close. */
  lemma {:induction false} FlatExamples(n: nat, close: real, horizon: nat, log: Log, end: nat)
    requires 0 < horizon && 0 < end && end + horizon <= n && close > 0.0
    ensures var xs := Examples(Rows(Flat(n, close), horizon, log), end);
            |xs| == end && xs[end - 1].y == log((if end + horizon == n then close else 1.0) / 1.0)
  {
    var rows := Rows(Flat(n, close), horizon, log);
    var raw, c := Flat(n, close), if end + horizon == n then close else 1.0;
    assert raw[end - 1] == Day(end - 1, 1.0) && raw[end - 1 + horizon] == Day(end - 1 + horizon, c);
    assert rows[end - 1] == RowAt(raw, horizon, log, end - 1);
    assert rows[end - 1].target == TargetOf(log, Some(1.0), Some(c)) == Some(log(c / 1.0));
    assert ExampleOf(rows[end - 1]) == [Example(rows[end - 1].features, log(c / 1.0))];
    assert Examples(rows, end) == Examples(rows, end - 1) + ExampleOf(rows[end - 1]);
    if end > 1 { FlatExamples(n, close, horizon, log, end - 1); }
  }

  /** Training that forecasts what the last example saw. */
  function LastSeen(): Fit {
    (xs: seq<Example>, f: Features) => Quantiles(0.0, if xs == [] then 0.0 else xs[|xs| - 1].y, 0.0)
  }

  lemma LastSeenScores(xs: seq<Example>, f: Features)
    requires xs != [] && VolOf(f) == 1.0
    ensures Scoring(LastSeen())(xs, f) == 0.95 * xs[|xs| - 1].y
  {
    var q, v := LastSeen()(xs, f), Floor(VolOf(f));
    assert q == Quantiles(0.0, xs[|xs| - 1].y, 0.0) && ProbPos(q) == 0.95 && v == 1.0;
    var r := q.p50 / v;
    assert r * v == q.p50 && r == q.p50;
    assert Scoring(LastSeen())(xs, f) == ProbPos(q) * r;
  }

  lemma FlatScore(n: nat, close: real, horizon: nat, log: Log, start: nat, due: Schedule, j: nat)
    requires 0 < horizon && close > 0.0 && start + j + 1 < n
    requires ENOUGH <= TrainEnd(start, due, j) && TrainEnd(start, due, j) + horizon == n
    ensures var r := ScoreAt(Rows(Flat(n, close), horizon, log), Scoring(LastSeen()), start, due, j);
            r.Some? && r.value == 0.95 * log(close / 1.0)
  {
    var a, end := Flat(n, close), TrainEnd(start, due, j);
    var rows := Rows(a, horizon, log);
    var xs, f := Examples(rows, end), Day(start + j, 1.0).features;
    FlatExamples(n, close, horizon, log, end);
    ModelIsTrainedTo(rows, start, due, j);
    assert rows[start + j] == RowAt(a, horizon, log, start + j);
    assert a[start + j] == Day(start + j, 1.0) && rows[start + j].features == f;
    LastSeenScores(xs, f);
  }

  /**
   * The look-ahead, exactly: a score depends on no row after its own, whatever the training, if and
   * only if there is no model yet or the labels of the last training end by the scored row.
   */
  lemma ReadsNoLaterRowIff(horizon: nat, log: Log, start: nat, due: Schedule, j: nat)
    requires forall x, y :: x > 0.0 && y > 0.0 && log(x) == log(y) ==> x == y
    ensures ReadsNoLaterRow(horizon, log, start, due, j)
            <==> TrainEnd(start, due, j) < ENOUGH || TrainEnd(start, due, j) + horizon <= start + j + 1
  {
    var end := TrainEnd(start, due, j);
    if end < ENOUGH || end + horizon <= start + j + 1 {
      forall a, b, fit | start + j < |a| && start + j < |b| && SameBefore(a, b, start + j + 1)
        ensures SameScore(a, b, horizon, log, fit, start, due, j)
      {
        if end < ENOUGH {
          NoModelYet(Rows(a, horizon, log), start, due, j);
          NoModelYet(Rows(b, horizon, log), start, due, j);
        } else {
          ScoreLooksNoFurther(a, b, horizon, log, Scoring(fit), start, due, j);
        }
      }
    } else {
      LaterRowRead(horizon, log, start, due, j);
    }
  }

  lemma NoModelYet(rows: seq<Row>, start: nat, due: Schedule, j: nat)
    requires start + j <= |rows| && TrainEnd(start, due, j) < ENOUGH
    ensures ModelAt(rows, start, due, j) == None
  {
    ModelIsTrainedTo(rows, start, due, j);
    ExamplesAreRows(rows, TrainEnd(start, due, j));
  }

  lemma LaterRowRead(horizon: nat, log: Log, start: nat, due: Schedule, j: nat)
    requires forall x, y :: x > 0.0 && y > 0.0 && log(x) == log(y) ==> x == y
    requires ENOUGH <= TrainEnd(start, due, j) && TrainEnd(start, due, j) + horizon > start + j + 1
    ensures !ReadsNoLaterRow(horizon, log, start, due, j)
  {
    var n := TrainEnd(start, due, j) + horizon;
    var a, b, fit := Flat(n, 1.0), Flat(n, 2.0), LastSeen();
    FlatScore(n, 1.0, horizon, log, start, due, j);
    FlatScore(n, 2.0, horizon, log, start, due, j);
    assert 1.0 / 1.0 == 1.0 && 2.0 / 1.0 == 2.0;
    var x, y := log(1.0), log(2.0);
    assert x != y;
    assert SameBefore(a, b, start + j + 1);
    assert !SameScore(a, b, horizon, log, fit, start, due, j);
  }
}
