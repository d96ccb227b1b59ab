/** Which rows a contract's cursor passes and never publishes. */
module Di1Losses {
  import opened Di1Worker

  // ------------------------------------------------------------------------------------------
  // What is passed stays unpublished

  lemma TurnPasses(f: Feed, turn: Turn, t: Tick)
    requires Kept(f) && t !in f.log && t.time <= f.cursor
    ensures t !in Poll(f, turn).log && t.time <= Poll(f, turn).cursor
  {
    PollKept(f, turn);
    PollPublishesPending(f, turn);
  }

  lemma KeptNext(f: Feed, e: Event)
    requires Kept(f)
    ensures Kept(Next(f, e)) && Next(f, e).start == f.start && f.cursor <= Next(f, e).cursor
  {
    if e.Turn? { PollKept(f, e.turn); }
  }

  /** A row that is not published when the cursor comes to its time is not published whatever happens then. */
  lemma {:induction false} PassedForGood(f: Feed, events: seq<Event>, t: Tick)
    requires Kept(f) && t !in f.log && t.time <= f.cursor
    ensures Kept(Exec(f, events)) && t !in Exec(f, events).log && t.time <= Exec(f, events).cursor
  {
    if events != [] {
      var init, e := events[..|events| - 1], events[|events| - 1];
      PassedForGood(f, init, t);
      KeptNext(Exec(f, init), e);
      if e.Turn? { TurnPasses(Exec(f, init), e.turn, t); }
    }
  }

  // ------------------------------------------------------------------------------------------
  // Exactly when nothing is lost

  /** The turn stops, at the page limit, a failed send or a bad row, between two rows of one timestamp. */
  predicate CutsATie(f: Feed, turn: Turn) {
    var pending, k := Pending(f.source, f.cursor), |Published(f.source, f.cursor, turn)|;
    0 < k < |pending| && pending[k].time == pending[k - 1].time
  }

  /** A row arrives at a time the cursor has already come to. */
  ghost predicate ArrivesPassed(f: Feed, source: seq<Tick>) {
    exists t :: t in source && t !in f.source && f.start < t.time <= f.cursor
  }

  ghost predicate Loses(f: Feed, e: Event) {
    match e
    case Arrive(source) => Grows(f, source) && ArrivesPassed(f, source)
    case Turn(turn) => CutsATie(f, turn)
  }

  ghost predicate AllPublished(f: Feed) {
    forall t :: t in f.source && f.start < t.time <= f.cursor ==> t in f.log
  }

  /** One event leaves every row that has been passed published exactly if it loses none and none was lost. */
  lemma LosesIff(f: Feed, e: Event)
    requires Kept(f)
    ensures AllPublished(Next(f, e)) <==> AllPublished(f) && !Loses(f, e)
  {
    match e
    case Arrive(source) =>
    case Turn(turn) => TurnLosesIff(f, turn);
  }

  lemma TurnLosesIff(f: Feed, turn: Turn)
    requires Kept(f)
    ensures AllPublished(Poll(f, turn)) <==> AllPublished(f) && !CutsATie(f, turn)
  {
    var g := Poll(f, turn);
    PollKept(f, turn);
    PollSkipsIffTieIsCut(f, turn);
    if CutsATie(f, turn) {
      var t :| t in f.source && f.cursor < t.time <= g.cursor && t !in g.log;
      assert f.log != [] ==> f.log[|f.log| - 1] in f.log;
    } else if t :| t in f.source && f.start < t.time <= f.cursor && t !in f.log {
      TurnPasses(f, turn, t);
    }
  }

  /** No event of the run loses a row. */
  ghost predicate NoneLost(f: Feed, events: seq<Event>) {
    events == [] ||
    (var init, e := events[..|events| - 1], events[|events| - 1];
     NoneLost(f, init) && !Loses(Exec(f, init), e))
  }

  /**
   * Over any arrivals and polls: every row of the table between the start and the cursor is published
   * exactly if no turn stopped inside a timestamp and no row arrived at a time the cursor had come to.
   */
  lemma {:induction false} NothingIsLostIff(source: seq<Tick>, start: int, events: seq<Event>)
    requires Ordered(source)
    ensures var f := Feed(source, start, start, []); AllPublished(Exec(f, events)) <==> NoneLost(f, events)
  {
    if events != [] {
      var f, init, e := Feed(source, start, start, []), events[..|events| - 1], events[|events| - 1];
      NothingIsLostIff(source, start, init);
      RunsAreKept(source, start, init);
      LosesIff(Exec(f, init), e);
    }
  }

  // ------------------------------------------------------------------------------------------
  // Each way to lose a row

  const CLEAN := Event.Turn(Sends([]))
  const FIRST := Tick(5, 1, 0, true)
  const SECOND := Tick(5, 2, 1, true)
  const EARLY := Tick(3, 1, 1, true)

  /** The first turn publishes the one row there is. */
  lemma OneRow()
    ensures Poll(Feed([FIRST], 0, 0, []), Sends([])) == Feed([FIRST], 0, 5, [FIRST])
  {
    assert Pending([FIRST], 0) == [FIRST] + Pending([FIRST][1..], 0);
    assert PublishedCount([FIRST], [], 0) == 1;
  }

  /** A send fails between two rows of one timestamp. */
  lemma FailedSendLosesARow()
    ensures Exec(Feed([FIRST, SECOND], 0, 0, []), [Event.Turn(Sends([true, false]))])
         == Feed([FIRST, SECOND], 0, 5, [FIRST])
  {
    var f, e := Feed([FIRST, SECOND], 0, 0, []), Event.Turn(Sends([true, false]));
    assert [FIRST, SECOND][1..] == [SECOND] && [SECOND][1..] == [];
    assert Pending([SECOND], 0) == [SECOND] + Pending([], 0);
    assert Pending([FIRST, SECOND], 0) == [FIRST] + Pending([SECOND], 0) == [FIRST, SECOND];
    assert PublishedCount([FIRST, SECOND], [true, false], 1) == 1;
    assert PublishedCount([FIRST, SECOND], [true, false], 0) == 1;
    assert [FIRST, SECOND][..1] == [FIRST];
    assert [e][..0] == [];
    assert Exec(f, []) == f;
  }

  /** A page of rows of one timestamp, and one row more: no failure, and the last is lost. */
  lemma PageLimitLosesARow(rows: seq<Tick>)
    requires Ordered(rows) && |rows| == LIMIT + 1 && forall t :: t in rows ==> t.time == 5 && t.convertible
    ensures Exec(Feed(rows, 0, 0, []), [CLEAN]) == Feed(rows, 0, 5, rows[..LIMIT]) && rows[LIMIT] !in rows[..LIMIT]
  {
    AllPending(rows, 0);
    AllSent(rows[..LIMIT], 0);
    NotInPrefix(rows, LIMIT);
    assert rows[..LIMIT][..LIMIT] == rows[..LIMIT] && rows[LIMIT - 1] in rows;
    assert [CLEAN][..0] == [] && Exec(Feed(rows, 0, 0, []), []) == Feed(rows, 0, 0, []);
  }

  lemma {:induction false} AllPending(rows: seq<Tick>, cursor: int)
    requires forall t :: t in rows ==> t.time > cursor
    ensures Pending(rows, cursor) == rows
  {
    if rows != [] {
      assert rows[0] in rows && rows == [rows[0]] + rows[1..];
      AllPending(rows[1..], cursor);
    }
  }

  lemma {:induction false} AllSent(rows: seq<Tick>, i: nat)
    requires i <= |rows| && forall t :: t in rows ==> t.convertible
    ensures PublishedCount(rows, [], i) == |rows|
    decreases |rows| - i
  {
    if i < |rows| {
      assert rows[i] in rows;
      AllSent(rows, i + 1);
    }
  }

  /** No failure and no page limit: a row of the timestamp the cursor has come to arrives after it. */
  lemma LateTieIsLost()
    ensures Exec(Feed([FIRST], 0, 0, []), [CLEAN, Arrive([FIRST, SECOND]), CLEAN])
         == Feed([FIRST, SECOND], 0, 5, [FIRST])
  {
    LateRow([FIRST, SECOND]);
  }

  /** The same of a row that arrives behind the cursor. */
  lemma LateRowIsLost()
    ensures Exec(Feed([FIRST], 0, 0, []), [CLEAN, Arrive([EARLY, FIRST]), CLEAN]) == Feed([EARLY, FIRST], 0, 5, [FIRST])
  {
    LateRow([EARLY, FIRST]);
  }

  lemma LateRow(rows: seq<Tick>)
    requires Ordered(rows) && FIRST in rows && forall t :: t in rows ==> t.time <= 5
    ensures Exec(Feed([FIRST], 0, 0, []), [CLEAN, Arrive(rows), CLEAN]) == Feed(rows, 0, 5, [FIRST])
  {
    var f0, f1, f2 := Feed([FIRST], 0, 0, []), Feed([FIRST], 0, 5, [FIRST]), Feed(rows, 0, 5, [FIRST]);
    var es := [CLEAN, Arrive(rows), CLEAN];
    OneRow();
    NonePending(rows, 5);
    assert Poll(f2, Sends([])) == f2;
    assert es[..2] == [CLEAN, Arrive(rows)] && es[..2][..1] == [CLEAN] && [CLEAN][..0] == [];
    assert Exec(f0, []) == f0;
    assert Exec(f0, [CLEAN]) == f1;
    assert Exec(f0, es[..2]) == f2;
  }

  lemma {:induction false} NonePending(rows: seq<Tick>, cursor: int)
    requires forall t :: t in rows ==> t.time <= cursor
    ensures Pending(rows, cursor) == []
  {
    if rows != [] {
      assert rows[0] in rows && rows == [rows[0]] + rows[1..];
      NonePending(rows[1..], cursor);
    }
  }
}
