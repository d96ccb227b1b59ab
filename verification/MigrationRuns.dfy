/** Many runs of the copy over one year. */
module MigrationRuns {
  import opened Migration
  import opened MigrationPaging

  // ------------------------------------------------------------------------------------------
  // Runs on places

  // Each run may crash between pages and pages through answers of its own. The year's source is listed
  // by day; the destination is known by the places it holds.

  /** The places held, in the order they were copied, and where the next run resumes in the source. */
  datatype State = State(picks: seq<nat>, resume: nat)

  datatype Shape = Shape(batch: nat, pages: nat)

  datatype Run = Run(shape: Shape, orders: Orders)

  function Shift(xs: seq<nat>, s: nat): seq<nat> { seq(|xs|, i requires 0 <= i < |xs| => xs[i] + s) }

  /** How many rows of the year fall on or before the day. */
  function UpTo(source: seq<Row>, day: int): (n: nat)
    ensures n <= |source|
  {
    if source == [] || source[0].day > day then 0 else 1 + UpTo(source[1..], day)
  }

  /** Behind the day of the last position a run that resumed at `s` came to. */
  function ResumeAfter(source: seq<Row>, s: nat, k: nat): nat {
    if k == 0 || s + k > |source| then s else UpTo(source, source[s + k - 1].day)
  }

  function CountAt(source: seq<Row>, s: nat, held: nat, shape: Shape): nat
    requires s <= |source|
  {
    CopiedOf(|source| - s, |source|, held, shape.batch, shape.pages)
  }

  function FetchedAt(source: seq<Row>, st: State, r: Run): seq<nat>
    requires st.resume <= |source|
  {
    FetchedOf(source[st.resume..], |source|, |st.picks|, r.orders, r.shape.batch, r.shape.pages)
  }

  function NextState(source: seq<Row>, st: State, r: Run): State
    requires st.resume <= |source|
  {
    var got := FetchedAt(source, st, r);
    State(st.picks + Shift(got, st.resume), ResumeAfter(source, st.resume, |got|))
  }

  ghost predicate StateSound(source: seq<Row>, st: State) {
    |st.picks| <= st.resume <= |source| && Within(st.picks, st.resume)
  }

  /** The states before, between and after the runs, from an empty destination. */
  ghost predicate IsHistory(source: seq<Row>, runs: seq<Run>, states: seq<State>) {
    && |states| == |runs| + 1 && states[0] == State([], 0)
    && forall j :: 0 <= j < |runs| ==> RunOk(source, runs, states, j)
  }

  ghost predicate RunOk(source: seq<Row>, runs: seq<Run>, states: seq<State>, j: nat)
    requires j < |runs| && |states| == |runs| + 1
  {
    && states[j].resume <= |source| && runs[j].shape.batch > 0
    && Answers(source[states[j].resume..], runs[j].orders)
    && states[j + 1] == NextState(source, states[j], runs[j])
  }

  lemma {:induction false} UpToExact(source: seq<Row>, day: int)
    requires ByDay(source)
    ensures forall i :: 0 <= i < |source| ==> (i < UpTo(source, day) <==> source[i].day <= day)
  {
    if source != [] {
      var rest := source[1..];
      UpToExact(rest, day);
      forall i | 0 < i < |source| ensures source[i] == rest[i - 1] && source[0].day <= source[i].day {}
    }
  }

  lemma ResumesBeyond(source: seq<Row>, s: nat, k: nat)
    requires ByDay(source) && s + k <= |source|
    ensures s + k <= ResumeAfter(source, s, k) <= |source|
  {
    if k > 0 { UpToExact(source, source[s + k - 1].day); }
  }

  lemma FetchedIs(source: seq<Row>, st: State, r: Run)
    requires st.resume <= |source| && Answers(source[st.resume..], r.orders)
    ensures var got := FetchedAt(source, st, r);
            |got| == CountAt(source, st.resume, |st.picks|, r.shape) <= |source| - st.resume
            && Within(got, |source| - st.resume)
  {
    FetchedBounds(source[st.resume..], |source|, |st.picks|, r.orders, r.shape.batch, r.shape.pages);
  }

  lemma NextSound(source: seq<Row>, st: State, r: Run)
    requires ByDay(source) && StateSound(source, st) && Answers(source[st.resume..], r.orders)
    ensures StateSound(source, NextState(source, st, r))
  {
    FetchedIs(source, st, r);
    ResumesBeyond(source, st.resume, |FetchedAt(source, st, r)|);
    if FetchedAt(source, st, r) != [] { FetchedWithin(source, st, r); }
  }

  /** The row fetched at a position is of the day that stands there in the list. */
  lemma {:induction false} GatherDays(rest: seq<Row>, orders: Orders, pending: nat, batch: nat, pages: nat, from: nat,
                                      p: nat)
    requires ByDay(rest) && Answers(rest, orders) && from <= |rest|
    requires p < |Gather(orders, |rest|, pending, batch, pages, from)|
    ensures var places := Gather(orders, |rest|, pending, batch, pages, from);
            places[p] < |rest| && from + p < |rest| && rest[places[p]].day == rest[from + p].day
    decreases pages
  {
    var end := PageEnd(|rest|, batch, from);
    assert DayOrder(rest, orders(from));
    GatherBounds(rest, orders, pending, batch, pages, from);
    if p < end - from {
      DayAt(rest, orders(from), from + p);
    } else {
      GatherDays(rest, orders, pending, batch, pages - 1, end, p - (end - from));
    }
  }

  lemma FetchedDays(source: seq<Row>, st: State, r: Run, p: nat)
    requires ByDay(source) && st.resume <= |source| && Answers(source[st.resume..], r.orders)
    requires p < |FetchedAt(source, st, r)|
    ensures var got := FetchedAt(source, st, r);
            && got[p] + st.resume < |source| && st.resume + p < |source|
            && source[got[p] + st.resume].day == source[st.resume + p].day
  {
    var rest := source[st.resume..];
    assert ByDay(rest);
    GatherDays(rest, r.orders, |source| - |st.picks|, r.shape.batch, r.shape.pages, 0, p);
  }

  /** What was fetched lies before the next resume. */
  lemma FetchedWithin(source: seq<Row>, st: State, r: Run)
    requires ByDay(source) && st.resume <= |source| && Answers(source[st.resume..], r.orders)
    requires FetchedAt(source, st, r) != []
    ensures Within(Shift(FetchedAt(source, st, r), st.resume), NextState(source, st, r).resume)
  {
    var got, s := FetchedAt(source, st, r), st.resume;
    FetchedIs(source, st, r);
    UpToExact(source, source[s + |got| - 1].day);
    forall p | 0 <= p < |got| ensures got[p] + s < UpTo(source, source[s + |got| - 1].day) {
      FetchedDays(source, st, r, p);
    }
  }

  lemma {:induction false} HistorySound(source: seq<Row>, runs: seq<Run>, states: seq<State>, n: nat)
    requires ByDay(source) && IsHistory(source, runs, states) && n <= |runs|
    ensures StateSound(source, states[n])
  {
    if n > 0 {
      HistorySound(source, runs, states, n - 1);
      assert RunOk(source, runs, states, n - 1);
      NextSound(source, states[n - 1], runs[n - 1]);
    }
  }

  // ------------------------------------------------------------------------------------------
  // The rows follow the places

  /** The state is that of a destination with the rows at its places. */
  ghost predicate IsState(source: seq<Row>, st: State) {
    StateSound(source, st) && Within(st.picks, |source|) &&
    var dest := Pick(source, st.picks);
    st.resume == if dest == [] then 0 else UpTo(source, LastDay(dest))
  }

  lemma {:induction false} LaterIsTheRest(source: seq<Row>, day: int)
    requires ByDay(source)
    ensures Later(source, day) == source[UpTo(source, day)..]
  {
    if source != [] {
      LaterIsTheRest(source[1..], day);
      if source[0].day > day { AllLater(source, day); }
    }
  }

  lemma {:induction false} AllLater(source: seq<Row>, day: int)
    requires forall i :: 0 <= i < |source| ==> source[i].day > day
    ensures Later(source, day) == source
  {
    if source != [] { AllLater(source[1..], day); }
  }

  /** What remains to a run is the source from where it resumes. */
  lemma ResumesPastTheCopied(source: seq<Row>, st: State)
    requires ByDay(source) && IsState(source, st)
    ensures Remaining(source, Pick(source, st.picks)) == source[st.resume..]
  {
    var dest := Pick(source, st.picks);
    if dest != [] { LaterIsTheRest(source, LastDay(dest)); }
  }

  lemma PickShifted(source: seq<Row>, s: nat, xs: seq<nat>)
    requires s <= |source| && Within(xs, |source| - s)
    ensures Within(Shift(xs, s), |source|) && Pick(source, Shift(xs, s)) == Pick(source[s..], xs)
  {}

  lemma PickJoin(source: seq<Row>, a: seq<nat>, b: seq<nat>)
    requires Within(a, |source|) && Within(b, |source|)
    ensures Within(a + b, |source|) && Pick(source, a + b) == Pick(source, a) + Pick(source, b)
  {}

  lemma LastOf(source: seq<Row>, picks: seq<nat>, more: seq<nat>, s: nat)
    requires ByDay(source) && Within(picks, s) && more != [] && s + |more| <= |source|
    requires forall p :: 0 <= p < |more| ==> more[p] < |source| && source[more[p]].day == source[s + p].day
    ensures Within(picks + more, |source|)
    ensures LastDay(Pick(source, picks + more)) == source[s + |more| - 1].day
  {
    PickJoin(source, picks, more);
    var a, b, d := Pick(source, picks), Pick(source, more), source[s + |more| - 1].day;
    forall i | 0 <= i < |a| ensures a[i].day <= d {}
    forall i | 0 <= i < |b| ensures b[i].day <= d {}
    LastDayIs(a, b, d);
  }

  lemma LastDayIs(a: seq<Row>, b: seq<Row>, d: int)
    requires b != [] && b[|b| - 1].day == d
    requires (forall i :: 0 <= i < |a| ==> a[i].day <= d) && forall i :: 0 <= i < |b| ==> b[i].day <= d
    ensures LastDay(a + b) == d
  {
    assert b[|b| - 1] in a + b;
    assert forall x :: x in a + b ==> x in a || x in b;
  }

  lemma StateOf(source: seq<Row>, st: State, d: int)
    requires StateSound(source, st) && st.picks != [] && Within(st.picks, |source|)
    requires LastDay(Pick(source, st.picks)) == d && st.resume == UpTo(source, d)
    ensures IsState(source, st)
  {}

  lemma FollowsOn(source: seq<Row>, picks: seq<nat>, more: seq<nat>, s: nat, resume: nat)
    requires ByDay(source) && Within(picks, s) && more != [] && s + |more| <= |source|
    requires forall p :: 0 <= p < |more| ==> more[p] < |source| && source[more[p]].day == source[s + p].day
    requires resume == UpTo(source, source[s + |more| - 1].day) && StateSound(source, State(picks + more, resume))
    ensures IsState(source, State(picks + more, resume))
  {
    LastOf(source, picks, more, s);
    StateOf(source, State(picks + more, resume), source[s + |more| - 1].day);
  }

  lemma FollowsResume(source: seq<Row>, st: State, r: Run)
    requires ByDay(source) && IsState(source, st) && Answers(source[st.resume..], r.orders)
    ensures IsState(source, NextState(source, st, r))
  {
    NextSound(source, st, r);
    FetchedIs(source, st, r);
    var now, more := NextState(source, st, r), Shift(FetchedAt(source, st, r), st.resume);
    forall p | 0 <= p < |more| ensures more[p] < |source| && source[more[p]].day == source[st.resume + p].day {
      FetchedDays(source, st, r, p);
    }
    if more == [] { assert now == st; } else { FollowsOn(source, st.picks, more, st.resume, now.resume); }
  }

  /** One run on places is the run on rows. */
  lemma RowsFollow(source: seq<Row>, st: State, r: Run)
    requires ByDay(source) && IsState(source, st) && Answers(source[st.resume..], r.orders)
    ensures Remaining(source, Pick(source, st.picks)) == source[st.resume..]
    ensures var now := NextState(source, st, r).picks;
            && Within(now, |source|)
            && Pick(source, now) == RunYear(source, Pick(source, st.picks), r.orders, r.shape.batch, r.shape.pages)
  {
    ResumesPastTheCopied(source, st);
    FetchedIs(source, st, r);
    PickShifted(source, st.resume, FetchedAt(source, st, r));
    PickJoin(source, st.picks, Shift(FetchedAt(source, st, r), st.resume));
  }

  /** A history tells what the runs do to the rows of the destination, from an empty one. */
  lemma {:induction false} HistoryIsReal(source: seq<Row>, runs: seq<Run>, states: seq<State>, n: nat)
    requires ByDay(source) && IsHistory(source, runs, states) && n < |runs|
    ensures IsState(source, states[n]) && IsState(source, states[n + 1])
    ensures var dest, r := Pick(source, states[n].picks), runs[n];
            && Answers(Remaining(source, dest), r.orders)
            && Pick(source, states[n + 1].picks) == RunYear(source, dest, r.orders, r.shape.batch, r.shape.pages)
  {
    if n > 0 { HistoryIsReal(source, runs, states, n - 1); }
    assert RunOk(source, runs, states, n);
    FollowsResume(source, states[n], runs[n]);
    RowsFollow(source, states[n], runs[n]);
  }

  // ------------------------------------------------------------------------------------------
  // Copied once

  /** The run pages into the middle of a day. */
  ghost predicate RunSplitsDay(source: seq<Row>, resume: nat, held: nat, shape: Shape)
    requires resume <= |source|
  {
    held < |source| && PageSplitsDay(source[resume..], |source| - held, shape.batch, shape.pages)
  }

  lemma ShiftedDistinct(picks: seq<nat>, xs: seq<nat>, s: nat)
    requires Distinct(picks) && Within(picks, s)
    ensures Distinct(picks + Shift(xs, s)) <==> Distinct(xs)
  {
    var all := picks + Shift(xs, s);
    if Distinct(all) {
      forall i, j | 0 <= i < j < |xs| ensures xs[i] != xs[j] {
        assert all[|picks| + i] == xs[i] + s && all[|picks| + j] == xs[j] + s;
      }
    }
    if Distinct(xs) {
      forall i, j | 0 <= i < j < |all| ensures all[i] != all[j] {
        if i >= |picks| { assert all[i] == xs[i - |picks|] + s && all[j] == xs[j - |picks|] + s; }
      }
    }
  }

  /**
   * A run copies no row a second time, whatever the answers to its queries, exactly if none of its
   * pages after the first begins inside a day.
   */
  lemma RunCopiesOnceIff(source: seq<Row>, st: State, shape: Shape)
    requires ByDay(source) && StateSound(source, st) && Distinct(st.picks) && shape.batch > 0
    ensures (forall orders :: Answers(source[st.resume..], orders)
                              ==> Distinct(NextState(source, st, Run(shape, orders)).picks))
            <==> !RunSplitsDay(source, st.resume, |st.picks|, shape)
  {
    var s, rest := st.resume, source[st.resume..];
    assert ByDay(rest);
    if |st.picks| < |source| {
      FetchedOnceIff(rest, |source| - |st.picks|, shape.batch, shape.pages);
      forall orders ensures Distinct(NextState(source, st, Run(shape, orders)).picks)
        <==> Distinct(Gather(orders, |rest|, |source| - |st.picks|, shape.batch, shape.pages, 0))
      {
        ShiftedDistinct(st.picks, FetchedAt(source, st, Run(shape, orders)), s);
      }
    } else {
      forall orders ensures NextState(source, st, Run(shape, orders)).picks == st.picks {}
    }
  }

  // ------------------------------------------------------------------------------------------
  // Over many runs

  function ShapesOf(runs: seq<Run>): seq<Shape> { seq(|runs|, i requires 0 <= i < |runs| => runs[i].shape) }

  /** Where the next run resumes, and how many rows are held: the same whatever the answers were. */
  datatype Point = Point(resume: nat, held: nat)

  function NextPoint(source: seq<Row>, p: Point, shape: Shape): (q: Point)
    requires p.resume <= |source|
    ensures q.resume <= |source|
  {
    var k := CountAt(source, p.resume, p.held, shape);
    Point(ResumeAfter(source, p.resume, k), p.held + k)
  }

  function PointAfter(source: seq<Row>, shapes: seq<Shape>, n: nat): (p: Point)
    requires n <= |shapes|
    ensures p.resume <= |source|
  {
    if n == 0 then Point(0, 0) else NextPoint(source, PointAfter(source, shapes, n - 1), shapes[n - 1])
  }

  function PointOf(st: State): Point { Point(st.resume, |st.picks|) }

  lemma NextPointIs(source: seq<Row>, st: State, r: Run)
    requires st.resume <= |source| && Answers(source[st.resume..], r.orders)
    ensures PointOf(NextState(source, st, r)) == NextPoint(source, PointOf(st), r.shape)
  {
    FetchedIs(source, st, r);
  }

  lemma {:induction false} HistoryAt(source: seq<Row>, runs: seq<Run>, states: seq<State>, n: nat)
    requires IsHistory(source, runs, states) && n <= |runs|
    ensures PointOf(states[n]) == PointAfter(source, ShapesOf(runs), n)
  {
    if n > 0 {
      HistoryAt(source, runs, states, n - 1);
      assert RunOk(source, runs, states, n - 1);
      NextPointIs(source, states[n - 1], runs[n - 1]);
    }
  }

  /** Run `j`, wherever its answers have led it, pages into the middle of a day. */
  ghost predicate SplitsAt(source: seq<Row>, shapes: seq<Shape>, j: nat)
    requires j < |shapes|
  {
    var p := PointAfter(source, shapes, j);
    RunSplitsDay(source, p.resume, p.held, shapes[j])
  }

  lemma SplitsIs(source: seq<Row>, runs: seq<Run>, states: seq<State>, n: nat)
    requires IsHistory(source, runs, states) && n < |runs|
    ensures states[n].resume <= |source|
    ensures SplitsAt(source, ShapesOf(runs), n)
            <==> RunSplitsDay(source, states[n].resume, |states[n].picks|, runs[n].shape)
  {
    HistoryAt(source, runs, states, n);
    assert RunOk(source, runs, states, n) && PointOf(states[n]).resume == states[n].resume;
  }

  lemma CleanRunCopiesOnce(source: seq<Row>, st: State, shape: Shape, orders: Orders)
    requires ByDay(source) && StateSound(source, st) && Distinct(st.picks) && shape.batch > 0
    requires Answers(source[st.resume..], orders) && !RunSplitsDay(source, st.resume, |st.picks|, shape)
    ensures Distinct(NextState(source, st, Run(shape, orders)).picks)
  {
    RunCopiesOnceIff(source, st, shape);
  }

  /** Where no run pages into a day, no row is copied twice. */
  lemma {:induction false} CleanRunsCopyOnce(source: seq<Row>, runs: seq<Run>, states: seq<State>, n: nat)
    requires ByDay(source) && IsHistory(source, runs, states) && n <= |runs|
    requires forall j :: 0 <= j < n ==> !SplitsAt(source, ShapesOf(runs), j)
    ensures Distinct(states[n].picks)
  {
    if n > 0 {
      CleanRunsCopyOnce(source, runs, states, n - 1);
      HistorySound(source, runs, states, n - 1);
      SplitsIs(source, runs, states, n - 1);
      assert RunOk(source, runs, states, n - 1);
      CleanRunCopiesOnce(source, states[n - 1], runs[n - 1].shape, runs[n - 1].orders);
    }
  }

  function InListOrderAlways(n: nat): Orders { (o: nat) => InListOrder(n) }

  lemma HistoryOn(source: seq<Row>, runs: seq<Run>, states: seq<State>, r: Run)
    requires IsHistory(source, runs, states) && r.shape.batch > 0
    requires states[|runs|].resume <= |source| && Answers(source[states[|runs|].resume..], r.orders)
    ensures IsHistory(source, runs + [r], states + [NextState(source, states[|runs|], r)])
    ensures ShapesOf(runs + [r]) == ShapesOf(runs) + [r.shape]
  {
    var runs', states' := runs + [r], states + [NextState(source, states[|runs|], r)];
    forall j | 0 <= j < |runs'| ensures RunOk(source, runs', states', j) {
      if j < |runs| { assert RunOk(source, runs, states, j); }
    }
  }

  lemma LongerRepeats(a: seq<nat>, b: seq<nat>)
    requires a <= b
    ensures !Distinct(a) ==> !Distinct(b)
  {}

  /** The history goes on with a run whose answers are in the list's order. */
  lemma PlainRun(source: seq<Row>, runs: seq<Run>, states: seq<State>, shape: Shape)
    returns (runs': seq<Run>, states': seq<State>)
    requires ByDay(source) && IsHistory(source, runs, states) && shape.batch > 0
    ensures IsHistory(source, runs', states') && ShapesOf(runs') == ShapesOf(runs) + [shape]
    ensures !Distinct(states[|runs|].picks) ==> !Distinct(states'[|runs'|].picks)
  {
    var st := states[|runs|];
    HistorySound(source, runs, states, |runs|);
    var rest := source[st.resume..];
    var r := Run(shape, InListOrderAlways(|rest|));
    ListOrderAnswers(rest);
    HistoryOn(source, runs, states, r);
    runs', states' := runs + [r], states + [NextState(source, st, r)];
    LongerRepeats(st.picks, states'[|runs'|].picks);
  }

  /** ... or with one that copies a row twice, where it can. */
  lemma RepeatingRun(source: seq<Row>, runs: seq<Run>, states: seq<State>, shape: Shape)
    returns (runs': seq<Run>, states': seq<State>)
    requires ByDay(source) && IsHistory(source, runs, states) && shape.batch > 0
    requires StateSound(source, states[|runs|]) && Distinct(states[|runs|].picks)
    requires RunSplitsDay(source, states[|runs|].resume, |states[|runs|].picks|, shape)
    ensures IsHistory(source, runs', states') && ShapesOf(runs') == ShapesOf(runs) + [shape]
    ensures !Distinct(states'[|runs'|].picks)
  {
    var st := states[|runs|];
    RunCopiesOnceIff(source, st, shape);
    var orders :| Answers(source[st.resume..], orders) && !Distinct(NextState(source, st, Run(shape, orders)).picks);
    var r := Run(shape, orders);
    HistoryOn(source, runs, states, r);
    runs', states' := runs + [r], states + [NextState(source, st, r)];
  }

  lemma {:induction false} PlainHistory(source: seq<Row>, shapes: seq<Shape>, n: nat)
    returns (runs: seq<Run>, states: seq<State>)
    requires ByDay(source) && n <= |shapes| && forall i :: 0 <= i < |shapes| ==> shapes[i].batch > 0
    ensures IsHistory(source, runs, states) && ShapesOf(runs) == shapes[..n]
  {
    runs, states := [], [State([], 0)];
    if n > 0 {
      runs, states := PlainHistory(source, shapes, n - 1);
      runs, states := PlainRun(source, runs, states, shapes[n - 1]);
    }
  }

  /** The point before a run depends on the earlier runs only. */
  lemma {:induction false} PointOfPrefix(source: seq<Row>, shapes: seq<Shape>, m: nat, j: nat)
    requires j <= m <= |shapes|
    ensures PointAfter(source, shapes[..m], j) == PointAfter(source, shapes, j)
  {
    if j > 0 { PointOfPrefix(source, shapes, m, j - 1); }
  }

  /** Where a run can page into a day, some answers make it copy a row twice. */
  lemma {:induction false} RepeatingHistory(source: seq<Row>, shapes: seq<Shape>, j: nat, n: nat)
    returns (runs: seq<Run>, states: seq<State>)
    requires ByDay(source) && j < n <= |shapes| && forall i :: 0 <= i < |shapes| ==> shapes[i].batch > 0
    requires SplitsAt(source, shapes, j)
    ensures IsHistory(source, runs, states) && ShapesOf(runs) == shapes[..n] && !Distinct(states[|runs|].picks)
  {
    assert shapes[..n] == shapes[..n - 1] + [shapes[n - 1]];
    if j < n - 1 {
      runs, states := RepeatingHistory(source, shapes, j, n - 1);
      runs, states := PlainRun(source, runs, states, shapes[n - 1]);
    } else {
      runs, states := PlainHistory(source, shapes, j);
      HistoryAt(source, runs, states, j);
      PointOfPrefix(source, shapes, j, j);
      HistorySound(source, runs, states, j);
      if Distinct(states[j].picks) {
        runs, states := RepeatingRun(source, runs, states, shapes[j]);
      } else {
        runs, states := PlainRun(source, runs, states, shapes[j]);
      }
    }
  }

  /**
   * Over any runs of given batch sizes and crash points: each row is copied at most once, whatever
   * order each query lists the rows of a day in, exactly if no page of any run but its first begins
   * inside a day.
   */
  lemma RowsAreCopiedOnceIff(source: seq<Row>, shapes: seq<Shape>)
    requires ByDay(source) && forall i :: 0 <= i < |shapes| ==> shapes[i].batch > 0
    ensures (forall runs: seq<Run>, states: seq<State> :: IsHistory(source, runs, states) && ShapesOf(runs) == shapes
              ==> Distinct(states[|runs|].picks))
            <==> forall j :: 0 <= j < |shapes| ==> !SplitsAt(source, shapes, j)
  {
    assert shapes[..|shapes|] == shapes;
    if j :| 0 <= j < |shapes| && SplitsAt(source, shapes, j) {
      var runs, states := RepeatingHistory(source, shapes, j, |shapes|);
    } else {
      forall runs: seq<Run>, states: seq<State> | IsHistory(source, runs, states) && ShapesOf(runs) == shapes
        ensures Distinct(states[|runs|].picks)
      {
        assert |runs| == |ShapesOf(runs)|;
        CleanRunsCopyOnce(source, runs, states, |runs|);
      }
    }
  }

  // ------------------------------------------------------------------------------------------
  // Exactly when a finished run completes the year

  /** Every place of the source, once. */
  ghost predicate AllOnce(picks: seq<nat>, n: nat) { |picks| == n && Distinct(picks) && Within(picks, n) }

  /** The run gets to the end of the year's loop. */
  predicate FinishesAt(source: seq<Row>, st: State, shape: Shape)
    requires st.resume <= |source|
  {
    var k := CountAt(source, st.resume, |st.picks|, shape);
    |st.picks| >= |source| || st.resume + k == |source| || |st.picks| + k >= |source|
  }

  lemma FinishesIs(source: seq<Row>, st: State, shape: Shape)
    requires ByDay(source) && IsState(source, st)
    ensures FinishesAt(source, st, shape) <==> Finishes(source, Pick(source, st.picks), shape.batch, shape.pages)
  {
    ResumesPastTheCopied(source, st);
  }

  /**
   * A run that finishes leaves every row of the source in the destination once, whatever the
   * answers, exactly if the destination held every row up to its last day once, which two counts
   * and the absence of repeats decide, and no page of the run but its first begins inside a day.
   */
  lemma FinishedRunIsExactIff(source: seq<Row>, st: State, shape: Shape)
    requires ByDay(source) && StateSound(source, st) && shape.batch > 0 && FinishesAt(source, st, shape)
    ensures (forall orders :: Answers(source[st.resume..], orders)
                              ==> AllOnce(NextState(source, st, Run(shape, orders)).picks, |source|))
            <==> Distinct(st.picks) && |st.picks| == st.resume
                 && !RunSplitsDay(source, st.resume, |st.picks|, shape)
  {
    if Distinct(st.picks) && |st.picks| == st.resume && !RunSplitsDay(source, st.resume, |st.picks|, shape) {
      forall orders | Answers(source[st.resume..], orders)
        ensures AllOnce(NextState(source, st, Run(shape, orders)).picks, |source|)
      {
        FinishedCounts(source, st, shape, orders);
        CleanRunCopiesOnce(source, st, shape, orders);
      }
    } else {
      var orders := FinishedInexactly(source, st, shape);
    }
  }

  lemma FinishedInexactly(source: seq<Row>, st: State, shape: Shape) returns (orders: Orders)
    requires ByDay(source) && StateSound(source, st) && shape.batch > 0 && FinishesAt(source, st, shape)
    requires !Distinct(st.picks) || |st.picks| != st.resume || RunSplitsDay(source, st.resume, |st.picks|, shape)
    ensures Answers(source[st.resume..], orders)
    ensures !AllOnce(NextState(source, st, Run(shape, orders)).picks, |source|)
  {
    orders := InListOrderAlways(|source| - st.resume);
    ListOrderAnswers(source[st.resume..]);
    if !Distinct(st.picks) {
      LongerRepeats(st.picks, NextState(source, st, Run(shape, orders)).picks);
    } else if |st.picks| != st.resume {
      FinishedCounts(source, st, shape, orders);
    } else {
      RunCopiesOnceIff(source, st, shape);
      orders :| Answers(source[st.resume..], orders) && !Distinct(NextState(source, st, Run(shape, orders)).picks);
    }
  }

  /** A finished run brings the count to that of the source less what the destination was short of its last day. */
  lemma FinishedCounts(source: seq<Row>, st: State, shape: Shape, orders: Orders)
    requires ByDay(source) && StateSound(source, st) && shape.batch > 0 && FinishesAt(source, st, shape)
    requires Answers(source[st.resume..], orders)
    ensures var now := NextState(source, st, Run(shape, orders)).picks;
            Within(now, |source|) && |now| == |source| - (st.resume - |st.picks|)
  {
    NextSound(source, st, Run(shape, orders));
    FetchedIs(source, st, Run(shape, orders));
  }

  // ------------------------------------------------------------------------------------------
  // The same on rows

  /** Every row of the source is there, and as many as the source has. */
  ghost predicate Complete(source: seq<Row>, dest: seq<Row>) {
    |dest| == |source| && forall i :: 0 <= i < |source| ==> source[i] in dest
  }

  ghost predicate DistinctRows(source: seq<Row>) {
    forall i, j :: 0 <= i < j < |source| ==> source[i] != source[j]
  }

  lemma {:induction false} FewerInSet(xs: seq<nat>)
    ensures |SetOf(xs)| <= |xs|
  {
    if xs != [] {
      FewerInSet(xs[..|xs| - 1]);
      assert SetOf(xs) == SetOf(xs[..|xs| - 1]) + {xs[|xs| - 1]};
    }
  }

  lemma {:induction false} AllInSet(s: set<nat>, n: nat)
    requires forall x: nat :: x < n ==> x in s
    ensures n <= |s|
  {
    if n > 0 {
      AllInSet(s - {n - 1}, n - 1);
    }
  }

  /** As many places as the list has, and all of them: each once. */
  lemma AllPlacesOnce(picks: seq<nat>, n: nat)
    requires |picks| == n && forall x: nat :: x < n ==> x in picks
    ensures Distinct(picks)
  {
    if i, j :| 0 <= i < j < n && picks[i] == picks[j] {
      var rest := picks[..j] + picks[j + 1..];
      forall x: nat | x < n ensures x in SetOf(rest) {
        assert x in picks;
        var k :| 0 <= k < n && picks[k] == x;
        assert rest[if k < j then k else if k == j then i else k - 1] == x;
      }
      AllInSet(SetOf(rest), n);
      FewerInSet(rest);
    }
  }

  lemma CompleteIsAllOnce(source: seq<Row>, picks: seq<nat>)
    requires DistinctRows(source) && Within(picks, |source|)
    ensures Complete(source, Pick(source, picks)) <==> AllOnce(picks, |source|)
  {
    var dest, n := Pick(source, picks), |source|;
    if AllOnce(picks, n) {
      forall i | 0 <= i < n ensures source[i] in dest {
        var k := FindPlace(n, picks, i);
        assert dest[k] == source[i];
      }
    }
    if Complete(source, dest) {
      forall x: nat | x < n ensures x in picks {
        var k :| 0 <= k < n && dest[k] == source[x];
        assert picks[k] == x;
      }
      AllPlacesOnce(picks, n);
    }
  }

  /**
   * A run over a destination that earlier runs left, one that gets to the end of the year: it leaves
   * every row of the source, no row twice, whatever the answers, under exactly that condition.
   */
  lemma FinishedYearIsCompleteIff(source: seq<Row>, st: State, shape: Shape)
    requires ByDay(source) && DistinctRows(source) && IsState(source, st) && shape.batch > 0
    requires Finishes(source, Pick(source, st.picks), shape.batch, shape.pages)
    ensures var dest := Pick(source, st.picks);
            (forall orders :: Answers(Remaining(source, dest), orders)
              ==> Complete(source, RunYear(source, dest, orders, shape.batch, shape.pages)))
            <==> Distinct(st.picks) && |dest| == st.resume && !RunSplitsDay(source, st.resume, |dest|, shape)
  {
    var dest := Pick(source, st.picks);
    ResumesPastTheCopied(source, st);
    FinishesIs(source, st, shape);
    FinishedRunIsExactIff(source, st, shape);
    forall orders | Answers(source[st.resume..], orders)
      ensures Complete(source, RunYear(source, dest, orders, shape.batch, shape.pages))
        <==> AllOnce(NextState(source, st, Run(shape, orders)).picks, |source|)
    {
      RowsFollow(source, st, Run(shape, orders));
      CompleteIsAllOnce(source, NextState(source, st, Run(shape, orders)).picks);
    }
  }

  // ------------------------------------------------------------------------------------------
  // What finished runs leave out

  /** A page of the run begins, or the run stops, inside this day. */
  ghost predicate SplitDay(source: seq<Row>, st: State, shape: Shape, day: int) {
    && |st.picks| < |source| && st.resume <= |source|
    && DayIsSplit(source[st.resume..], |source| - |st.picks|, shape.batch, shape.pages, 0, day)
  }

  lemma ShiftedOut(picks: seq<nat>, xs: seq<nat>, s: nat, i: nat)
    requires s <= i && i !in picks + Shift(xs, s)
    ensures i - s !in xs
  {
    forall k | 0 <= k < |xs| ensures xs[k] != i - s {
      assert (picks + Shift(xs, s))[|picks| + k] == xs[k] + s;
    }
  }

  /** Among the positions a run came to, a row it did not copy is of a day it splits. */
  lemma PassedInPages(source: seq<Row>, st: State, r: Run, rest: seq<Row>, pending: nat, p: nat)
    requires StateSound(source, st) && rest == source[st.resume..] && pending == |source| - |st.picks| > 0
    requires ByDay(rest) && r.shape.batch > 0 && Answers(rest, r.orders) && p < |rest|
    requires p < StopAt(|rest|, pending, r.shape.batch, r.shape.pages, 0)
    requires p !in Gather(r.orders, |rest|, pending, r.shape.batch, r.shape.pages, 0)
    ensures SplitDay(source, st, r.shape, source[st.resume + p].day)
  {
    PageSplits(rest, pending, r, p);
    assert rest[p] == source[st.resume + p];
  }

  lemma SuffixByDay(source: seq<Row>, s: nat)
    requires ByDay(source) && s <= |source|
    ensures ByDay(source[s..])
  {}

  lemma PageSplits(rest: seq<Row>, pending: nat, r: Run, p: nat)
    requires ByDay(rest) && Answers(rest, r.orders) && r.shape.batch > 0 && p < |rest|
    requires p < StopAt(|rest|, pending, r.shape.batch, r.shape.pages, 0)
    requires p !in Gather(r.orders, |rest|, pending, r.shape.batch, r.shape.pages, 0)
    ensures DayIsSplit(rest, pending, r.shape.batch, r.shape.pages, 0, rest[p].day)
  {
    GatherBounds(rest, r.orders, pending, r.shape.batch, r.shape.pages, 0);
    FetchedUnlessSplit(rest, r.orders, pending, r.shape.batch, r.shape.pages, 0, p);
  }

  /** So is a row behind them that the next run will pass over. */
  lemma PassedAfterPages(source: seq<Row>, st: State, shape: Shape, i: nat)
    requires ByDay(source) && StateSound(source, st) && i < |source|
    requires var k := CountAt(source, st.resume, |st.picks|, shape);
             st.resume + k <= i < ResumeAfter(source, st.resume, k)
    ensures SplitDay(source, st, shape, source[i].day)
  {
    var s, k := st.resume, CountAt(source, st.resume, |st.picks|, shape);
    assert k > 0 && s + k <= |source| && |st.picks| < |source|;
    UpToExact(source, source[s + k - 1].day);
    SuffixByDay(source, s);
    StopSplits(source[s..], |source| - |st.picks|, shape, i - s);
  }

  /** A row at or after the stop, of the day before it. */
  lemma StopSplits(rest: seq<Row>, pending: nat, shape: Shape, p: nat)
    requires ByDay(rest) && 0 < StopAt(|rest|, pending, shape.batch, shape.pages, 0) <= p < |rest|
    requires rest[p].day <= rest[StopAt(|rest|, pending, shape.batch, shape.pages, 0) - 1].day
    ensures DayIsSplit(rest, pending, shape.batch, shape.pages, 0, rest[p].day)
  {
    var k := StopAt(|rest|, pending, shape.batch, shape.pages, 0);
    assert rest[k - 1].day <= rest[p].day;
    SameDayBetween(rest, k - 1, k, p);
  }

  /** What one run passes over, of what remained, is of a day it splits. */
  lemma PassedByRun(source: seq<Row>, st: State, r: Run, i: nat)
    requires ByDay(source) && StateSound(source, st) && r.shape.batch > 0 && Answers(source[st.resume..], r.orders)
    requires st.resume <= i < |source| && i !in NextState(source, st, r).picks
    requires i < NextState(source, st, r).resume || i < st.resume + CountAt(source, st.resume, |st.picks|, r.shape)
    ensures SplitDay(source, st, r.shape, source[i].day)
  {
    FetchedIs(source, st, r);
    if i < st.resume + CountAt(source, st.resume, |st.picks|, r.shape) {
      ShiftedOut(st.picks, FetchedAt(source, st, r), st.resume, i);
      SuffixByDay(source, st.resume);
      PassedInPages(source, st, r, source[st.resume..], |source| - |st.picks|, i - st.resume);
    } else {
      PassedAfterPages(source, st, r.shape, i);
    }
  }

  /** A row that later runs will pass over for good is of a day that an earlier run split. */
  lemma {:induction false} PassedRowIsOfASplitDay(source: seq<Row>, runs: seq<Run>, states: seq<State>, n: nat, i: nat)
    requires ByDay(source) && IsHistory(source, runs, states) && n <= |runs| && i < |source|
    requires i !in states[n].picks && i < states[n].resume
    ensures exists j :: 0 <= j < n && SplitDay(source, states[j], runs[j].shape, source[i].day)
  {
    assert n > 0;
    HistorySound(source, runs, states, n - 1);
    assert RunOk(source, runs, states, n - 1);
    if i < states[n - 1].resume {
      PassedRowIsOfASplitDay(source, runs, states, n - 1, i);
    } else {
      PassedByRun(source, states[n - 1], runs[n - 1], i);
    }
  }

  /** After a run that finishes, whatever is missing is of a day that this run or an earlier one split. */
  lemma FinishedRunMissesOnlySplitDays(source: seq<Row>, runs: seq<Run>, states: seq<State>, n: nat, i: nat)
    requires ByDay(source) && IsHistory(source, runs, states) && n < |runs| && i < |source|
    requires states[n].resume <= |source| && FinishesAt(source, states[n], runs[n].shape)
    requires i !in states[n + 1].picks
    ensures exists j :: 0 <= j <= n && SplitDay(source, states[j], runs[j].shape, source[i].day)
  {
    HistorySound(source, runs, states, n);
    assert RunOk(source, runs, states, n);
    if i < states[n].resume {
      PassedRowIsOfASplitDay(source, runs, states, n, i);
    } else {
      PassedByRun(source, states[n], runs[n], i);
    }
  }

  const PAGES_OF_ONE := Shape(1, 2)

  /** Two rows of one day in pages of one: the run finishes with the right count, one row twice and one missing. */
  lemma TwoRowsOfOneDay(a: Row, b: Row)
    requires a.day == b.day
    ensures var r := Run(PAGES_OF_ONE, ExchangedAt(2, 1));
            && IsHistory([a, b], [r], [State([], 0), State([0, 0], 2)])
            && FinishesAt([a, b], State([], 0), r.shape)
    ensures SplitDay([a, b], State([], 0), PAGES_OF_ONE, b.day)
  {
    TwoRowsCopied(a, b);
    TwoRowsSplit([a, b]);
  }

  lemma TwoRowsCopied(a: Row, b: Row)
    requires a.day == b.day
    ensures var source, r := [a, b], Run(PAGES_OF_ONE, ExchangedAt(2, 1));
            && Answers(source[0..], r.orders)
            && NextState(source, State([], 0), r) == State([0, 0], 2)
            && |FetchedAt(source, State([], 0), r)| == 2
  {
    var source := [a, b];
    assert source[0..] == source;
    ExchangedAnswers(source, 1);
    TwoPages();
    UpToExact(source, b.day);
  }

  lemma TwoRowsSplit(source: seq<Row>)
    requires |source| == 2 && source[0].day == source[1].day
    ensures SplitDay(source, State([], 0), PAGES_OF_ONE, source[1].day)
  {
    assert source[0..] == source && SplitsDay(source, 1);
    assert PageEnd(2, 1, 0) == 1;
    assert FetchesAt(2, 2, 1, 1, 1, 1) && FetchesAt(2, 2, 1, 2, 0, 1);
  }

  lemma TwoPages()
    ensures Gather(ExchangedAt(2, 1), 2, 2, 1, 2, 0) == [0, 0] && [] + Shift([0, 0], 0) == [0, 0]
  {
    var orders, x, y := ExchangedAt(2, 1), InListOrder(2), Exchanged(2, 1);
    assert x == [x[0], x[1]] && y == [y[0], y[1]];
    assert orders(0) == [0, 1] && orders(1) == [1, 0];
    assert PageEnd(2, 1, 0) == 1 && PageEnd(2, 1, 1) == 2;
    assert Gather(orders, 2, 2, 1, 0, 2) == [];
    assert Gather(orders, 2, 2, 1, 1, 1) == [0];
  }
}
