/** The near-realtime publisher: a time cursor per contract over a table that keeps growing. */
module Di1Worker {

  /**
   * A row of `profit_ticks`. The table has no key: rows of one time and trade number are told apart by
   * `id` only. Publishing a row raises if its numbers cannot be converted.
   */
  datatype Tick = Tick(time: int, number: int, id: int, convertible: bool)

  const LIMIT: nat := 500

  /** Another row, which the query may list after `a`. */
  predicate Before(a: Tick, b: Tick) {
    a != b && (a.time < b.time || (a.time == b.time && a.number <= b.number))
  }

  ghost predicate Ordered(ticks: seq<Tick>) {
    forall i, j :: 0 <= i < j < |ticks| ==> Before(ticks[i], ticks[j])
  }

  /** The rows of the query, before its LIMIT: later than the cursor, in order. */
  function Pending(source: seq<Tick>, cursor: int): seq<Tick> {
    if source == [] then []
    else if source[0].time > cursor then [source[0]] + Pending(source[1..], cursor)
    else Pending(source[1..], cursor)
  }

  function Page(source: seq<Tick>, cursor: int): seq<Tick> {
    var pending := Pending(source, cursor);
    if |pending| <= LIMIT then pending else pending[..LIMIT]
  }

  /** What the environment makes of one contract's turn: which sends are acknowledged. */
  datatype Turn = FetchFails | Sends(acks: seq<bool>)

  predicate Acked(acks: seq<bool>, i: nat) { i >= |acks| || acks[i] }

  /** How many rows are published before the first that fails or cannot be converted. */
  function PublishedCount(rows: seq<Tick>, acks: seq<bool>, i: nat): (k: nat)
    requires i <= |rows|
    ensures i <= k <= |rows|
    ensures forall j :: i <= j < k ==> rows[j].convertible && Acked(acks, j)
    ensures k < |rows| ==> !(rows[k].convertible && Acked(acks, k))
    decreases |rows| - i
  {
    if i < |rows| && rows[i].convertible && Acked(acks, i) then PublishedCount(rows, acks, i + 1) else i
  }

  function Published(source: seq<Tick>, cursor: int, turn: Turn): seq<Tick> {
    match turn
    case FetchFails => []
    case Sends(acks) => var rows := Page(source, cursor); rows[..PublishedCount(rows, acks, 0)]
  }

  /** The turn ends with an exception that ends the whole poll. */
  predicate Raises(source: seq<Tick>, cursor: int, turn: Turn) {
    turn.Sends? &&
    var rows := Page(source, cursor);
    var k := PublishedCount(rows, turn.acks, 0);
    k < |rows| && !rows[k].convertible
  }

  // ------------------------------------------------------------------------------------------
  // One contract over time

  /** One contract: its table, where the worker started, its cursor and what it has published. */
  datatype Feed = Feed(source: seq<Tick>, start: int, cursor: int, log: seq<Tick>)

  function CursorAfter(cursor: int, published: seq<Tick>): int {
    if published == [] then cursor else published[|published| - 1].time
  }

  function Poll(f: Feed, turn: Turn): Feed {
    var published := Published(f.source, f.cursor, turn);
    f.(cursor := CursorAfter(f.cursor, published), log := f.log + published)
  }

  /** Rows arrive; those of one time and number may be listed in another order from now on. */
  ghost predicate Grows(f: Feed, source: seq<Tick>) {
    Ordered(source) && forall t :: t in f.source ==> t in source
  }

  /** Rows arrive, none of them between the start and the cursor. */
  ghost predicate Arrives(f: Feed, source: seq<Tick>) {
    Grows(f, source) && forall t :: t in source && t !in f.source ==> !(f.start < t.time < f.cursor)
  }

  datatype Event = Arrive(source: seq<Tick>) | Turn(turn: Turn)

  ghost function Next(f: Feed, e: Event): Feed {
    match e
    case Arrive(source) => if Grows(f, source) then f.(source := source) else f
    case Turn(turn) => Poll(f, turn)
  }

  ghost function Exec(f: Feed, events: seq<Event>): Feed {
    if events == [] then f else Next(Exec(f, events[..|events| - 1]), events[|events| - 1])
  }

  /** No row arrives behind the cursor. */
  ghost predicate NoneBehind(f: Feed, events: seq<Event>) {
    events == [] ||
    (var init, e := events[..|events| - 1], events[|events| - 1];
     && NoneBehind(f, init)
     && (e.Arrive? && Grows(Exec(f, init), e.source) ==> Arrives(Exec(f, init), e.source)))
  }

  ghost predicate SharesTime(log: seq<Tick>, t: Tick) { exists u :: u in log && u.time == t.time }

  /** The published rows are rows of the table, in order, without repeats; the cursor is the last one's time. */
  ghost predicate Kept(f: Feed) {
    && Ordered(f.source) && Ordered(f.log)
    && (forall t :: t in f.log ==> t in f.source && f.start < t.time <= f.cursor)
    && f.cursor == CursorAfter(f.start, f.log)
  }

  ghost predicate Sound(f: Feed) {
    Kept(f) && forall t :: t in f.source && f.start < t.time <= f.cursor && t !in f.log ==> SharesTime(f.log, t)
  }

  lemma {:induction false} PendingExact(source: seq<Tick>, cursor: int)
    requires Ordered(source)
    ensures Ordered(Pending(source, cursor))
    ensures forall t :: t in Pending(source, cursor) <==> t in source && t.time > cursor
  {
    if source != [] {
      var rest := source[1..];
      PendingExact(rest, cursor);
      forall t ensures t in source <==> t == source[0] || t in rest { assert source == [source[0]] + rest; }
      forall t | t in rest ensures Before(source[0], t) {
        var j :| 0 <= j < |rest| && rest[j] == t;
        assert t == source[j + 1];
      }
      var p := Pending(rest, cursor);
      if source[0].time > cursor {
        OrderedCons(source[0], p);
      }
    }
  }

  lemma OrderedCons(x: Tick, ticks: seq<Tick>)
    requires Ordered(ticks) && forall t :: t in ticks ==> Before(x, t)
    ensures Ordered([x] + ticks)
  {
    var r := [x] + ticks;
    forall i, j | 0 <= i < j < |r| ensures Before(r[i], r[j]) {
      assert r[j] == ticks[j - 1] && ticks[j - 1] in ticks;
      assert i > 0 ==> r[i] == ticks[i - 1];
    }
  }

  lemma OrderedJoin(a: seq<Tick>, b: seq<Tick>)
    requires Ordered(a) && Ordered(b) && forall s, t :: s in a && t in b ==> Before(s, t)
    ensures Ordered(a + b)
  {
    var r := a + b;
    forall i, j | 0 <= i < j < |r| ensures Before(r[i], r[j]) {
      if i < |a| <= j { assert a[i] in a && b[j - |a|] in b; }
    }
  }

  /** What one turn publishes is the start of what is pending. */
  lemma PublishedIsPrefix(source: seq<Tick>, cursor: int, turn: Turn)
    ensures var published, pending := Published(source, cursor, turn), Pending(source, cursor);
            |published| <= |pending| && published == pending[..|published|]
  {}

  /** A row still pending after `k` were published is later than them, or shares the last one's time. */
  lemma Beyond(pending: seq<Tick>, k: nat, t: Tick)
    requires Ordered(pending) && 0 < k <= |pending| && t in pending && t !in pending[..k]
    ensures pending[k - 1].time <= t.time
  {
    InPrefix(pending, k);
    var j :| 0 <= j < |pending| && pending[j] == t;
  }

  lemma InPrefix(pending: seq<Tick>, k: nat)
    requires k <= |pending|
    ensures forall j :: 0 <= j < k ==> pending[j] in pending[..k]
  {
    forall j | 0 <= j < k ensures pending[j] in pending[..k] { assert pending[j] == pending[..k][j]; }
  }

  /** The log grows by rows that are pending, later than all of it and no later than the new cursor. */
  lemma PollPublishesPending(f: Feed, turn: Turn)
    requires Kept(f)
    ensures var published := Published(f.source, f.cursor, turn);
            && Ordered(published)
            && forall t :: t in published ==> t in f.source && f.cursor < t.time <= Poll(f, turn).cursor
  {
    var pending, published := Pending(f.source, f.cursor), Published(f.source, f.cursor, turn);
    PendingExact(f.source, f.cursor);
    PublishedIsPrefix(f.source, f.cursor, turn);
    InPrefix(pending, |published|);
  }

  lemma PollKeepsTies(f: Feed, turn: Turn, t: Tick)
    requires Sound(f) && t in f.source && f.start < t.time <= Poll(f, turn).cursor && t !in Poll(f, turn).log
    ensures SharesTime(Poll(f, turn).log, t)
  {
    var pending, published, g := Pending(f.source, f.cursor), Published(f.source, f.cursor, turn), Poll(f, turn);
    if t.time <= f.cursor {
      var u :| u in f.log && u.time == t.time;
      assert u in g.log;
    } else {
      PendingExact(f.source, f.cursor);
      PublishedIsPrefix(f.source, f.cursor, turn);
      Beyond(pending, |published|, t);
      assert published[|published| - 1] in g.log;
    }
  }

  lemma PollKept(f: Feed, turn: Turn)
    requires Kept(f)
    ensures Kept(Poll(f, turn)) && f.cursor <= Poll(f, turn).cursor
  {
    PollPublishesPending(f, turn);
    OrderedJoin(f.log, Published(f.source, f.cursor, turn));
  }

  lemma PollSound(f: Feed, turn: Turn)
    requires Sound(f)
    ensures Sound(Poll(f, turn))
  {
    var g := Poll(f, turn);
    PollKept(f, turn);
    forall t | t in g.source && g.start < t.time <= g.cursor && t !in g.log ensures SharesTime(g.log, t) {
      PollKeepsTies(f, turn, t);
    }
  }

  lemma ArriveSound(f: Feed, source: seq<Tick>)
    requires Sound(f) && Arrives(f, source)
    ensures Sound(f.(source := source))
  {
    forall t | t in source && f.start < t.time <= f.cursor && t !in f.log ensures SharesTime(f.log, t) {
      if t !in f.source {
        assert t.time == f.cursor && f.log != [];
        assert f.log[|f.log| - 1] in f.log;
      }
    }
  }

  lemma {:induction false} RunsAreKept(source: seq<Tick>, start: int, events: seq<Event>)
    requires Ordered(source)
    ensures Kept(Exec(Feed(source, start, start, []), events))
    ensures Exec(Feed(source, start, start, []), events).start == start
  {
    if events != [] {
      var init, e := events[..|events| - 1], events[|events| - 1];
      RunsAreKept(source, start, init);
      if e.Turn? { PollKept(Exec(Feed(source, start, start, []), init), e.turn); }
    }
  }

  /**
   * Cursor safety, after any arrivals and polls: what was published is in order and without
   * repeats, and the cursor is the time of the last of it; if no row arrived behind the cursor, a row
   * the cursor has passed is published or shares its timestamp with one that is.
   */
  lemma {:induction false} RunsAreSound(source: seq<Tick>, start: int, events: seq<Event>)
    requires Ordered(source)
    ensures var f := Exec(Feed(source, start, start, []), events);
            Kept(f) && f.start == start && (NoneBehind(Feed(source, start, start, []), events) ==> Sound(f))
  {
    RunsAreKept(source, start, events);
    if events != [] && NoneBehind(Feed(source, start, start, []), events) {
      var init, e := events[..|events| - 1], events[|events| - 1];
      RunsAreSound(source, start, init);
      var f := Exec(Feed(source, start, start, []), init);
      match e
      case Arrive(s) => if Grows(f, s) { ArriveSound(f, s); }
      case Turn(turn) => PollSound(f, turn);
    }
  }

  /** The rows after the start, up to the cursor. */
  function Between(source: seq<Tick>, start: int, cursor: int): seq<Tick> {
    if source == [] then []
    else if start < source[0].time <= cursor then [source[0]] + Between(source[1..], start, cursor)
    else Between(source[1..], start, cursor)
  }

  lemma {:induction false} BetweenExact(source: seq<Tick>, start: int, cursor: int)
    requires Ordered(source)
    ensures Ordered(Between(source, start, cursor))
    ensures forall t :: t in Between(source, start, cursor) <==> t in source && start < t.time <= cursor
  {
    if source != [] {
      var rest := source[1..];
      BetweenExact(rest, start, cursor);
      forall t ensures t in source <==> t == source[0] || t in rest { assert source == [source[0]] + rest; }
      forall t | t in rest ensures Before(source[0], t) {
        var j :| 0 <= j < |rest| && rest[j] == t;
        assert t == source[j + 1];
      }
      if start < source[0].time <= cursor {
        OrderedCons(source[0], Between(rest, start, cursor));
      }
    }
  }

  lemma {:induction false} OrderedUnique(a: seq<Tick>, b: seq<Tick>)
    requires Ordered(a) && Ordered(b) && DistinctTimes(a) && forall t :: t in a <==> t in b
    ensures a == b
  {
    assert (a != [] ==> a[0] in a) && (b != [] ==> b[0] in b);
    if a != [] && b != [] {
      FirstIsEarliest(a);
      FirstIsEarliest(b);
      assert a[0] == b[0];
      var c, d := a[1..], b[1..];
      assert a == [a[0]] + c && b == [b[0]] + d;
      forall t ensures t in c <==> t in d {
        assert (t in a <==> t == a[0] || t in c) && (t in b <==> t == b[0] || t in d);
      }
      OrderedUnique(c, d);
    }
  }

  lemma FirstIsEarliest(a: seq<Tick>)
    requires Ordered(a) && a != []
    ensures (forall t :: t in a ==> t == a[0] || Before(a[0], t)) && a[0] !in a[1..]
  {}

  ghost predicate DistinctTimes(ticks: seq<Tick>) {
    forall s, t :: s in ticks && t in ticks && s.time == t.time ==> s == t
  }

  /** Where no two rows share a timestamp, the published rows are exactly those the cursor has passed. */
  lemma DistinctTimesLoseNothing(f: Feed)
    requires Sound(f) && DistinctTimes(f.source)
    ensures f.log == Between(f.source, f.start, f.cursor)
  {
    BetweenExact(f.source, f.start, f.cursor);
    forall t | SharesTime(f.log, t) && t in f.source ensures t in f.log {
      var u :| u in f.log && u.time == t.time;
      assert u == t;
    }
    OrderedUnique(f.log, Between(f.source, f.start, f.cursor));
  }

  /**
   * A turn passes a pending row without publishing it exactly if it stops, at the page limit or a
   * failed send, between two rows of one timestamp.
   */
  lemma PollSkipsIffTieIsCut(f: Feed, turn: Turn)
    requires Kept(f)
    ensures var pending, k := Pending(f.source, f.cursor), |Published(f.source, f.cursor, turn)|;
            (exists t :: t in f.source && f.cursor < t.time <= Poll(f, turn).cursor && t !in Poll(f, turn).log)
            <==> 0 < k < |pending| && pending[k].time == pending[k - 1].time
  {
    var pending, g := Pending(f.source, f.cursor), Poll(f, turn);
    var published := Published(f.source, f.cursor, turn);
    var k := |published|;
    PendingExact(f.source, f.cursor);
    PublishedIsPrefix(f.source, f.cursor, turn);
    if t :| t in f.source && f.cursor < t.time <= g.cursor && t !in g.log {
      InPrefix(pending, k);
      var j :| 0 <= j < |pending| && pending[j] == t;
      assert Before(pending[k - 1], pending[k]);
      assert k < j ==> Before(pending[k], pending[j]);
    }
    if 0 < k < |pending| && pending[k].time == pending[k - 1].time {
      var t := pending[k];
      assert t in pending;
      NotInPrefix(pending, k);
      assert forall u :: u in f.log ==> u.time <= f.cursor;
    }
  }

  lemma NotInPrefix(pending: seq<Tick>, k: nat)
    requires Ordered(pending) && k < |pending|
    ensures pending[k] !in pending[..k]
  {
    forall j | 0 <= j < k ensures pending[..k][j] != pending[k] {
      assert Before(pending[j], pending[k]);
    }
  }
}
