/** Rebuilding the one-minute bars from the trade history, day by day. */
module OhlcRebuild {
  import opened Division
  import opened Options
  import opened OhlcBars
  import opened OhlcPrices

  const MINUTE: int := 60_000_000
  const HOUR: int := 60 * MINUTE
  const DAY: int := 24 * HOUR

  /** A row of `market_history_trades`. */
  datatype Trade = Trade(time: int, number: int, ticker: string, price: real, quantity: int)

  datatype Key = Key(time: int, ticker: string)

  /** Who wrote a bar: the rebuild, or anything else. */
  datatype Source = TickAgg | Other(name: string)

  datatype Row = Row(bar: Bar, source: Source)

  /** `ohlc_1m`, keyed by (time, ticker). */
  type Table = map<Key, Row>

  function HourOf(t: int): int { t % DAY / HOUR }

  /** Day of the week, Sunday being 0; day 0 is a Monday. */
  function DayOfWeek(t: int): int { (t / DAY + 1) % 7 }

  predicate InSession(t: int) { 13 <= HourOf(t) <= 20 && 1 <= DayOfWeek(t) <= 5 }

  function Unit(x: Trade): Bar { Bar(x.time, x.price, x.price, x.price, x.price, x.quantity, 1) }

  /** The WHERE clause of the rebuild query for one ticker. */
  predicate Chosen(x: Trade, ticker: string, lo: int, hi: int) {
    x.ticker == ticker && lo <= x.time < hi && InSession(x.time)
  }

  function Ticks(history: seq<Trade>, ticker: string, lo: int, hi: int): seq<Bar> {
    if history == [] then []
    else
      var x := history[|history| - 1];
      Ticks(history[..|history| - 1], ticker, lo, hi) + if Chosen(x, ticker, lo, hi) then [Unit(x)] else []
  }

  /** Whether a run restricted to `ticker` touches the rows of `t`; an empty name restricts nothing. */
  predicate Matches(ticker: Option<string>, t: string) {
    ticker.None? || ticker.value == "" || ticker.value == t
  }

  /** One call of the rebuild: a day, and possibly a ticker. */
  datatype Run = Run(day: int, ticker: Option<string>)

  predicate Selected(r: Run, k: Key) {
    r.day * DAY <= k.time < (r.day + 1) * DAY && Matches(r.ticker, k.ticker)
  }

  // ------------------------------------------------------------------------------------------
  // The two statements

  function Delete(t: Table, r: Run): Table {
    map k | k in t && !(t[k].source == TickAgg && Selected(r, k)) :: t[k]
  }

  predicate Produces(history: seq<Trade>, r: Run, k: Key) {
    Matches(r.ticker, k.ticker) && k.time in Buckets(MINUTE, Ticks(history, k.ticker, r.day * DAY, (r.day + 1) * DAY))
  }

  function QueryKeys(history: seq<Trade>, r: Run): set<Key> {
    set x | x in history && Produces(history, r, Key(Bucket(MINUTE, x.time), x.ticker)) ::
      Key(Bucket(MINUTE, x.time), x.ticker)
  }

  /** The SELECT of the rebuild: one rounded bar for each minute and ticker that traded. */
  function Query(history: seq<Trade>, r: Run): Table {
    map k | k in QueryKeys(history, r) ::
      Row(RoundBar(GroupRow(MINUTE, k.time, Ticks(history, k.ticker, r.day * DAY, (r.day + 1) * DAY))), TickAgg)
  }

  /** INSERT ... ON CONFLICT (time, ticker) DO NOTHING: rows already there win. */
  function InsertMissing(t: Table, rows: Table): Table { rows + t }

  function Rebuild(t: Table, history: seq<Trade>, r: Run): Table {
    InsertMissing(Delete(t, r), Query(history, r))
  }

  // ------------------------------------------------------------------------------------------
  // What a rebuild does to one key

  function Get(t: Table, k: Key): Option<Row> { if k in t then Some(t[k]) else None }

  /** The bar the whole history gives for one minute of one ticker. */
  ghost function MinuteBar(history: seq<Trade>, k: Key): Option<Bar> {
    var xs := AllTicks(history, k.ticker);
    if k.time in Buckets(MINUTE, xs) then Some(RoundBar(GroupRow(MINUTE, k.time, xs))) else None
  }

  /** The ticks of a ticker in trading hours, whatever the day. */
  function AllTicks(history: seq<Trade>, ticker: string): seq<Bar> {
    if history == [] then []
    else
      var x := history[|history| - 1];
      AllTicks(history[..|history| - 1], ticker) + if x.ticker == ticker && InSession(x.time) then [Unit(x)] else []
  }

  /** The row that belongs at `k`: a foreign row stays, anything else is what the history gives. */
  ghost function Proper(held: Option<Row>, history: seq<Trade>, k: Key): Option<Row> {
    if held.Some? && held.value.source != TickAgg then held
    else match MinuteBar(history, k)
      case Some(bar) => Some(Row(bar, TickAgg))
      case None => None
  }

  lemma DayBounds(day: int)
    ensures (day * DAY) % MINUTE == 0 && ((day + 1) * DAY) % MINUTE == 0
  {
    DivUnique(day * DAY, MINUTE, day * 1440, 0);
    DivUnique((day + 1) * DAY, MINUTE, (day + 1) * 1440, 0);
  }

  /** A time range made of whole minutes holds all of a minute's ticks or none. */
  lemma MinuteInRange(lo: int, hi: int, t: int, b: int)
    requires lo % MINUTE == 0 && hi % MINUTE == 0 && Bucket(MINUTE, t) == b
    ensures lo <= b < hi <==> lo <= t < hi
  {
    BucketAfterBoundary(MINUTE, lo, t);
    BucketAfterBoundary(MINUTE, hi, t);
  }

  lemma GroupMaybe(b: int, xs: seq<Bar>, chosen: bool, u: Bar)
    ensures Group(MINUTE, b, xs + if chosen then [u] else [])
         == if chosen && Bucket(MINUTE, u.time) == b then Group(MINUTE, b, xs) + [u] else Group(MINUTE, b, xs)
  {
    GroupSnoc(MINUTE, b, xs, u);
    assert xs + [] == xs;
  }

  lemma {:induction false} RangeKeepsGroup(history: seq<Trade>, ticker: string, lo: int, hi: int, b: int)
    requires lo % MINUTE == 0 && hi % MINUTE == 0
    ensures Group(MINUTE, b, Ticks(history, ticker, lo, hi))
         == if lo <= b < hi then Group(MINUTE, b, AllTicks(history, ticker)) else []
  {
    if history != [] {
      var h, x := history[..|history| - 1], history[|history| - 1];
      RangeKeepsGroup(h, ticker, lo, hi, b);
      MinuteInRange(lo, hi, x.time, Bucket(MINUTE, x.time));
      GroupMaybe(b, Ticks(h, ticker, lo, hi), Chosen(x, ticker, lo, hi), Unit(x));
      GroupMaybe(b, AllTicks(h, ticker), x.ticker == ticker && InSession(x.time), Unit(x));
    }
  }

  lemma SameGroupSameRow(b: int, xs: seq<Bar>, ys: seq<Bar>)
    requires Group(MINUTE, b, xs) == Group(MINUTE, b, ys)
    ensures b in Buckets(MINUTE, xs) <==> b in Buckets(MINUTE, ys)
    ensures b in Buckets(MINUTE, xs) ==> GroupRow(MINUTE, b, xs) == GroupRow(MINUTE, b, ys)
  {
    GroupNonEmpty(MINUTE, b, xs);
    GroupNonEmpty(MINUTE, b, ys);
  }

  lemma {:induction false} TickHasTrade(history: seq<Trade>, ticker: string, lo: int, hi: int, y: Bar)
    requires y in Ticks(history, ticker, lo, hi)
    ensures exists x :: x in history && x.ticker == ticker && x.time == y.time
  {
    var h, x := history[..|history| - 1], history[|history| - 1];
    assert x in history;
    if y in Ticks(h, ticker, lo, hi) {
      TickHasTrade(h, ticker, lo, hi, y);
      var z :| z in h && z.ticker == ticker && z.time == y.time;
      assert z in history;
    }
  }

  lemma QueryKeysExact(history: seq<Trade>, r: Run, k: Key)
    ensures k in QueryKeys(history, r) <==> Produces(history, r, k)
  {
    if Produces(history, r, k) {
      var xs := Ticks(history, k.ticker, r.day * DAY, (r.day + 1) * DAY);
      var y :| y in xs && Bucket(MINUTE, y.time) == k.time;
      TickHasTrade(history, k.ticker, r.day * DAY, (r.day + 1) * DAY, y);
      var x :| x in history && x.ticker == k.ticker && x.time == y.time;
      assert Key(Bucket(MINUTE, x.time), x.ticker) == k;
    }
  }

  /** The query yields, for the keys the run selects, exactly the bars of the whole history. */
  lemma QueryAt(history: seq<Trade>, r: Run, k: Key)
    ensures Get(Query(history, r), k) ==
            if Selected(r, k) && MinuteBar(history, k).Some? then Some(Row(MinuteBar(history, k).value, TickAgg))
            else None
  {
    QueryKeysExact(history, r, k);
    DayBounds(r.day);
    RangeKeepsRow(history, k.ticker, r.day * DAY, (r.day + 1) * DAY, k.time);
  }

  /** The row of a minute, computed from a range of whole minutes, is that of the whole history. */
  lemma RangeKeepsRow(history: seq<Trade>, ticker: string, lo: int, hi: int, b: int)
    requires lo % MINUTE == 0 && hi % MINUTE == 0
    ensures var xs, ys := Ticks(history, ticker, lo, hi), AllTicks(history, ticker);
            && (b in Buckets(MINUTE, xs) <==> lo <= b < hi && b in Buckets(MINUTE, ys))
            && (b in Buckets(MINUTE, xs) ==> GroupRow(MINUTE, b, xs) == GroupRow(MINUTE, b, ys))
  {
    var xs, ys := Ticks(history, ticker, lo, hi), AllTicks(history, ticker);
    RangeKeepsGroup(history, ticker, lo, hi, b);
    if lo <= b < hi {
      SameGroupSameRow(b, xs, ys);
    } else {
      GroupNonEmpty(MINUTE, b, xs);
    }
  }

  /**
   * One rebuild, key by key: the selected keys get their proper row, no other key changes.
   */
  lemma RebuildAt(t: Table, history: seq<Trade>, r: Run, k: Key)
    ensures Get(Rebuild(t, history, r), k) == if Selected(r, k) then Proper(Get(t, k), history, k) else Get(t, k)
  {
    QueryAt(history, r, k);
    assert k in Query(history, r) <==> Get(Query(history, r), k).Some?;
  }

  /** No rebuild changes or removes a row some other source wrote, and none creates one. */
  lemma ForeignRowsUntouched(t: Table, history: seq<Trade>, r: Run, k: Key)
    ensures (k in t && t[k].source != TickAgg) <==>
            (k in Rebuild(t, history, r) && Rebuild(t, history, r)[k].source != TickAgg)
    ensures k in t && t[k].source != TickAgg ==> Rebuild(t, history, r)[k] == t[k]
  {
    RebuildAt(t, history, r, k);
  }

  // ------------------------------------------------------------------------------------------
  // Many rebuilds

  type Step = (Table, Run) -> Table

  function Rebuilding(history: seq<Trade>): Step {
    (t: Table, r: Run) => Rebuild(t, history, r)
  }

  ghost function Steps(step: Step, t: Table, runs: seq<Run>): Table {
    if runs == [] then t else step(Steps(step, t, runs[..|runs| - 1]), runs[|runs| - 1])
  }

  ghost function RunAll(t: Table, history: seq<Trade>, runs: seq<Run>): Table {
    Steps(Rebuilding(history), t, runs)
  }

  ghost predicate SelectedBySome(runs: seq<Run>, k: Key) {
    exists r :: r in runs && Selected(r, k)
  }

  lemma SelectedSnoc(runs: seq<Run>, r: Run, k: Key)
    ensures SelectedBySome(runs + [r], k) <==> SelectedBySome(runs, k) || Selected(r, k)
  {
    assert r in runs + [r] && forall q :: q in runs ==> q in runs + [r];
  }

  lemma ProperTwice(held: Option<Row>, mid: Option<Row>, history: seq<Trade>, runs: seq<Run>, r: Run, k: Key)
    requires mid == if SelectedBySome(runs, k) then Proper(held, history, k) else held
    ensures (if Selected(r, k) then Proper(mid, history, k) else mid)
         == if SelectedBySome(runs + [r], k) then Proper(held, history, k) else held
  {
    SelectedSnoc(runs, r, k);
  }

  lemma RunAllSnoc(t: Table, history: seq<Trade>, runs: seq<Run>, r: Run)
    ensures RunAll(t, history, runs + [r]) == Rebuild(RunAll(t, history, runs), history, r)
  {
    assert (runs + [r])[..|runs|] == runs;
  }

  /** What the rebuilds leave at a key: its proper row if some run selects it, else what it held. */
  ghost function RowAfter(held: Option<Row>, history: seq<Trade>, runs: seq<Run>, k: Key): Option<Row> {
    if SelectedBySome(runs, k) then Proper(held, history, k) else held
  }

  /** The step gives a selected key its proper row and leaves any other key. */
  ghost predicate Rebuilds(step: Step, history: seq<Trade>, k: Key) {
    forall t: Table, r: Run :: Get(step(t, r), k) == if Selected(r, k) then Proper(Get(t, k), history, k) else Get(t, k)
  }

  lemma {:induction false} StepsAt(step: Step, t: Table, history: seq<Trade>, runs: seq<Run>, k: Key)
    requires Rebuilds(step, history, k)
    ensures Get(Steps(step, t, runs), k) == RowAfter(Get(t, k), history, runs, k)
  {
    if runs != [] {
      var init, last := runs[..|runs| - 1], runs[|runs| - 1];
      StepsAt(step, t, history, init, k);
      assert runs == init + [last];
      ProperTwice(Get(t, k), Get(Steps(step, t, init), k), history, init, last, k);
    }
  }

  /**
   * Any number of rebuilds, in any order and with any repetition: the keys some run selects get
   * their proper row, no other key changes.
   */
  lemma RunAllAt(t: Table, history: seq<Trade>, runs: seq<Run>, k: Key)
    ensures Get(RunAll(t, history, runs), k) == RowAfter(Get(t, k), history, runs, k)
  {
    forall u: Table, r: Run { RebuildAt(u, history, r, k); }
    StepsAt(Rebuilding(history), t, history, runs, k);
  }

  lemma TableByKeys(t: Table, u: Table)
    requires forall k :: Get(t, k) == Get(u, k)
    ensures t == u
  {
    forall k | k in t ensures k in u && u[k] == t[k] { assert Get(t, k) == Get(u, k); }
    forall k | k in u ensures k in t { assert Get(t, k) == Get(u, k); }
  }

  /** Runs that select the same keys leave the same table: order, retries and grouping do not matter. */
  lemma SameSelectionSameTable(t: Table, history: seq<Trade>, runs: seq<Run>, runs': seq<Run>)
    requires forall k :: SelectedBySome(runs, k) <==> SelectedBySome(runs', k)
    ensures RunAll(t, history, runs) == RunAll(t, history, runs')
  {
    forall k ensures Get(RunAll(t, history, runs), k) == Get(RunAll(t, history, runs'), k) {
      RunAllAt(t, history, runs, k);
      RunAllAt(t, history, runs', k);
    }
    TableByKeys(RunAll(t, history, runs), RunAll(t, history, runs'));
  }

  /** Rebuilding twice is rebuilding once. */
  lemma RebuildIdempotent(t: Table, history: seq<Trade>, r: Run)
    ensures Rebuild(Rebuild(t, history, r), history, r) == Rebuild(t, history, r)
  {
    var u := Rebuild(t, history, r);
    forall k ensures Get(Rebuild(u, history, r), k) == Get(u, k) {
      RebuildAt(t, history, r, k);
      RebuildAt(u, history, r, k);
    }
    TableByKeys(Rebuild(u, history, r), u);
  }

  /**
   * Rebuilding each ticker of a list leaves the table of the rebuild of all tickers exactly if no
   * key outside the list would have changed: the list covers the traded and the stale tickers.
   */
  lemma PerTickerEqualsAll(t: Table, history: seq<Trade>, day: int, tickers: seq<string>)
    requires "" !in tickers
    ensures (RunAll(t, history, PerTicker(day, tickers)) == Rebuild(t, history, Run(day, None)))
       <==> forall k: Key ::
              Selected(Run(day, None), k) && k.ticker !in tickers ==> Proper(Get(t, k), history, k) == Get(t, k)
  {
    var runs := PerTicker(day, tickers);
    var a, b := RunAll(t, history, runs), Rebuild(t, history, Run(day, None));
    forall k
      ensures Get(a, k) == if Selected(Run(day, None), k) && k.ticker in tickers then Proper(Get(t, k), history, k)
                           else Get(t, k)
    {
      RunAllAt(t, history, runs, k);
      PerTickerSelects(day, tickers, k);
    }
    forall k ensures Get(b, k) == if Selected(Run(day, None), k) then Proper(Get(t, k), history, k) else Get(t, k) {
      RebuildAt(t, history, Run(day, None), k);
    }
    if forall k: Key ::
      Selected(Run(day, None), k) && k.ticker !in tickers ==> Proper(Get(t, k), history, k) == Get(t, k)
    {
      TableByKeys(a, b);
    }
  }

  function PerTicker(day: int, tickers: seq<string>): seq<Run> {
    seq(|tickers|, i requires 0 <= i < |tickers| => Run(day, Some(tickers[i])))
  }

  lemma PerTickerSelects(day: int, tickers: seq<string>, k: Key)
    requires "" !in tickers
    ensures SelectedBySome(PerTicker(day, tickers), k) <==> Selected(Run(day, None), k) && k.ticker in tickers
  {
    var runs := PerTicker(day, tickers);
    if k.ticker in tickers {
      var i :| 0 <= i < |tickers| && tickers[i] == k.ticker;
      assert runs[i] in runs;
    }
  }

  // ------------------------------------------------------------------------------------------
  // The script

  lemma DeleteCount(t: Table, r: Run)
    ensures |t| == |Delete(t, r)| + |t.Keys - Delete(t, r).Keys|
  {
    assert t.Keys == Delete(t, r).Keys + (t.Keys - Delete(t, r).Keys);
  }

  lemma InsertCount(t: Table, rows: Table)
    ensures |InsertMissing(t, rows)| == |t| + |rows.Keys - t.Keys|
  {
    assert InsertMissing(t, rows).Keys == t.Keys + (rows.Keys - t.Keys);
  }

  /** The connection the script works through: the table, and what a failed day rolls back to. */
  class Database {
    var ohlc1m: Table

    /** The DELETE, with its row count. */
    method DeleteRows(r: Run) returns (deleted: nat)
      modifies this
      ensures ohlc1m == Delete(old(ohlc1m), r) && deleted == |old(ohlc1m)| - |ohlc1m|
    {
      var remaining := Delete(ohlc1m, r);
      deleted := |ohlc1m.Keys - remaining.Keys|;
      DeleteCount(ohlc1m, r);
      ohlc1m := remaining;
    }

    /** The INSERT, which skips taken keys, with its row count. */
    method InsertRows(rows: Table) returns (inserted: nat)
      modifies this
      ensures ohlc1m == InsertMissing(old(ohlc1m), rows) && inserted == |ohlc1m| - |old(ohlc1m)|
    {
      inserted := |rows.Keys - ohlc1m.Keys|;
      InsertCount(ohlc1m, rows);
      ohlc1m := InsertMissing(ohlc1m, rows);
    }

    /** One day: the DELETE, then the INSERT. */
    method RebuildDay(history: seq<Trade>, day: int, ticker: Option<string>) returns (deleted: nat, inserted: nat)
      modifies this
      ensures ohlc1m == Rebuild(old(ohlc1m), history, Run(day, ticker))
      ensures inserted - deleted == |ohlc1m| - |old(ohlc1m)|
    {
      deleted := DeleteRows(Run(day, ticker));
      inserted := InsertRows(Query(history, Run(day, ticker)));
    }

    /** One day as a transaction: if it raises, whatever it changed is rolled back. */
    method TryDay(history: seq<Trade>, day: int, ticker: Option<string>, raises: bool)
      returns (deleted: nat, inserted: nat)
      modifies this
      ensures ohlc1m == if raises then old(ohlc1m) else Rebuild(old(ohlc1m), history, Run(day, ticker))
      ensures inserted - deleted == |ohlc1m| - |old(ohlc1m)|
    {
      var committed := ohlc1m;
      deleted, inserted := RebuildDay(history, day, ticker);
      if raises {
        ohlc1m := committed;
        deleted, inserted := 0, 0;
      }
    }

    /**
     * The loop over days, where the days in `failing` raise. The table ends as the rebuild of the
     * other days, and the totals account for its size.
     */
    method RebuildDays(history: seq<Trade>, start: int, end: int, ticker: Option<string>, failing: set<int>)
      returns (totalDeleted: nat, totalInserted: nat)
      requires start <= end
      modifies this
      ensures ohlc1m == RunAll(old(ohlc1m), history, Done(start, end + 1, ticker, failing))
      ensures totalInserted - totalDeleted == |ohlc1m| - |old(ohlc1m)|
    {
      totalDeleted, totalInserted := 0, 0;
      ghost var runs := [];
      var day := start;
      while day <= end
        invariant start <= day <= end + 1
        invariant runs == Done(start, day, ticker, failing)
        invariant ohlc1m == RunAll(old(ohlc1m), history, runs)
        invariant totalInserted - totalDeleted == |ohlc1m| - |old(ohlc1m)|
      {
        var deleted, inserted := TryDay(history, day, ticker, day in failing);
        totalDeleted := totalDeleted + deleted;
        totalInserted := totalInserted + inserted;
        RunAllSnoc(old(ohlc1m), history, runs, Run(day, ticker));
        DoneStep(start, day, ticker, failing);
        runs := if day in failing then runs else runs + [Run(day, ticker)];
        day := day + 1;
      }
      assert day == end + 1;
    }
  }

  /** The runs of the days from `start` up to `end` that did not fail. */
  ghost function Done(start: int, end: int, ticker: Option<string>, failing: set<int>): seq<Run>
    decreases end - start
  {
    if end <= start then []
    else Done(start, end - 1, ticker, failing) + if end - 1 in failing then [] else [Run(end - 1, ticker)]
  }

  lemma DoneStep(start: int, day: int, ticker: Option<string>, failing: set<int>)
    requires start <= day
    ensures Done(start, day + 1, ticker, failing)
         == if day in failing then Done(start, day, ticker, failing)
           else Done(start, day, ticker, failing) + [Run(day, ticker)]
  {
    assert Done(start, day, ticker, failing) + [] == Done(start, day, ticker, failing);
  }

  lemma {:induction false} DoneRuns(start: int, end: int, ticker: Option<string>, failing: set<int>, r: Run)
    ensures r in Done(start, end, ticker, failing) <==> start <= r.day < end && r.day !in failing && r.ticker == ticker
    decreases end - start
  {
    if start < end {
      DoneRuns(start, end - 1, ticker, failing, r);
    }
  }

  /**
   * A run over the range with failures, then another that repeats the failed days, leaves the table
   * of one run without failures.
   */
  lemma RetryCompletes(t: Table, history: seq<Trade>, start: int, end: int, ticker: Option<string>, failing: set<int>,
                       again: set<int>)
    requires failing * again == {}
    ensures RunAll(t, history, Done(start, end, ticker, failing) + Done(start, end, ticker, again))
         == RunAll(t, history, Done(start, end, ticker, {}))
  {
    var first, second, all := Done(start, end, ticker, failing), Done(start, end, ticker, again),
        Done(start, end, ticker, {});
    forall k ensures SelectedBySome(first + second, k) <==> SelectedBySome(all, k) {
      forall r ensures r in first + second <==> r in all {
        DoneRuns(start, end, ticker, failing, r);
        DoneRuns(start, end, ticker, again, r);
        DoneRuns(start, end, ticker, {}, r);
        assert r.day in failing && r.day in again ==> r.day in failing * again;
      }
    }
    SameSelectionSameTable(t, history, first + second, all);
  }
}
