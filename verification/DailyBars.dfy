/** Daily bars from the trade history, or from the one-minute bars built from it. */
module DailyBars {
  import opened Division
  import opened Options
  import opened OhlcBars
  import opened OhlcPrices
  import opened OhlcRebuild

  predicate Weekday(t: int) { 1 <= DayOfWeek(t) <= 5 }

  /** The history is read in (trade_date, trade_number) order. */
  ghost predicate InOrder(history: seq<Trade>) {
    forall i, j :: 0 <= i < j < |history| ==>
      history[i].time < history[j].time
        || (history[i].time == history[j].time && history[i].number <= history[j].number)
  }

  // ------------------------------------------------------------------------------------------
  // The two queries

  /** The rows the tick query reads for one ticker. */
  function WeekdayTicks(history: seq<Trade>, ticker: string): seq<Bar> {
    if history == [] then []
    else
      var x := history[|history| - 1];
      WeekdayTicks(history[..|history| - 1], ticker) + if x.ticker == ticker && Weekday(x.time) then [Unit(x)] else []
  }

  /** The rows the minute query reads. */
  function WeekdayRows(rows: seq<Bar>): seq<Bar> {
    if rows == [] then []
    else
      var x := rows[|rows| - 1];
      WeekdayRows(rows[..|rows| - 1]) + if Weekday(x.time) then [x] else []
  }

  /**
   * What the tick query may return for one day: it orders by timestamp alone, so among the ticks
   * of the day's first (last) timestamp any price may come out as open (close).
   */
  ghost predicate TickDay(g: seq<Bar>, row: Bar)
    requires g != []
  {
    && row.high == MaxHigh(g) && row.low == MinLow(g)
    && row.volume == SumVolume(g) && row.trades == |g|
    && (exists x :: Earliest(g, x) && row.open == x.open)
    && (exists x :: Latest(g, x) && row.close == x.close)
  }

  ghost predicate Earliest(g: seq<Bar>, x: Bar) { x in g && forall y :: y in g ==> x.time <= y.time }

  ghost predicate Latest(g: seq<Bar>, x: Bar) { x in g && forall y :: y in g ==> y.time <= x.time }

  /** The one-minute table of a ticker, in time order, as the rebuild leaves it. */
  function MinuteRows(history: seq<Trade>, ticker: string): seq<Bar> {
    RoundAll(Bars(MINUTE, AllTicks(history, ticker)))
  }

  // ------------------------------------------------------------------------------------------
  // Order and filters

  lemma {:induction false} TicksSorted(history: seq<Trade>, ticker: string)
    requires InOrder(history)
    ensures Sorted(AllTicks(history, ticker))
    ensures forall y :: y in AllTicks(history, ticker) ==> history != [] && y.time <= history[|history| - 1].time
  {
    if history != [] {
      var h, x := history[..|history| - 1], history[|history| - 1];
      TicksSorted(h, ticker);
      assert h != [] ==> h[|h| - 1] == history[|h| - 1];
    }
  }

  lemma {:induction false} SessionDay(history: seq<Trade>, ticker: string, d: int)
    requires forall x ::
               x in history && x.ticker == ticker && Bucket(DAY, x.time) == d && Weekday(x.time) ==> InSession(x.time)
    ensures Group(DAY, d, WeekdayTicks(history, ticker)) == Group(DAY, d, AllTicks(history, ticker))
  {
    if history != [] {
      var h, x := history[..|history| - 1], history[|history| - 1];
      assert x in history && forall y :: y in h ==> y in history;
      SessionDay(h, ticker, d);
      GroupMaybeDay(d, WeekdayTicks(h, ticker), x.ticker == ticker && Weekday(x.time), Unit(x));
      GroupMaybeDay(d, AllTicks(h, ticker), x.ticker == ticker && InSession(x.time), Unit(x));
    }
  }

  lemma GroupMaybeDay(d: int, xs: seq<Bar>, chosen: bool, u: Bar)
    ensures Group(DAY, d, xs + if chosen then [u] else [])
         == if chosen && Bucket(DAY, u.time) == d then Group(DAY, d, xs) + [u] else Group(DAY, d, xs)
  {
    GroupSnoc(DAY, d, xs, u);
    assert xs + [] == xs;
  }

  lemma SameDaySameWeekday(d: int, t: int)
    requires Bucket(DAY, t) == d
    ensures Weekday(t) <==> Weekday(d)
  {
    DivUnique(d, DAY, t / DAY, 0);
  }

  lemma {:induction false} WeekdayGroup(rows: seq<Bar>, d: int)
    requires Weekday(d)
    ensures Group(DAY, d, WeekdayRows(rows)) == Group(DAY, d, rows)
  {
    if rows != [] {
      var ys, x := rows[..|rows| - 1], rows[|rows| - 1];
      WeekdayGroup(ys, d);
      if Bucket(DAY, x.time) == d { SameDaySameWeekday(d, x.time); }
      GroupMaybeDay(d, WeekdayRows(ys), Weekday(x.time), x);
      GroupMaybeDay(d, ys, true, x);
      assert rows == ys + [x];
    }
  }

  // ------------------------------------------------------------------------------------------
  // The minute path is the tick path, rounded

  /** The rows of the one-minute table are the minute bars of the history, each once, in order. */
  lemma MinuteRowsAreTheTable(history: seq<Trade>, ticker: string)
    requires InOrder(history)
    ensures StrictlySorted(MinuteRows(history, ticker))
    ensures forall r :: r in MinuteRows(history, ticker) ==> MinuteBar(history, Key(r.time, ticker)) == Some(r)
    ensures forall t ::
              MinuteBar(history, Key(t, ticker)).Some?
              ==> MinuteBar(history, Key(t, ticker)).value in MinuteRows(history, ticker)
  {
    var xs := AllTicks(history, ticker);
    TicksSorted(history, ticker);
    BarsListGroups(MINUTE, xs);
    var bars, rows := Bars(MINUTE, xs), MinuteRows(history, ticker);
    forall r | r in rows ensures MinuteBar(history, Key(r.time, ticker)) == Some(r) {
      var i :| 0 <= i < |rows| && rows[i] == r;
      assert IsRow(MINUTE, bars[i], xs);
    }
    forall t | MinuteBar(history, Key(t, ticker)).Some? ensures MinuteBar(history, Key(t, ticker)).value in rows {
      var b :| b in bars && b.time == t;
      assert IsRow(MINUTE, b, xs);
      var i :| 0 <= i < |bars| && bars[i] == b;
      assert rows[i] == RoundBar(b);
    }
  }

  lemma RoundedRow(w: int, xs: seq<Bar>, rows: seq<Bar>, d: int)
    requires w > 0 && Sorted(xs) && Sorted(rows) && Bars(w, rows) == RoundAll(Bars(w, xs)) && d in Buckets(w, xs)
    ensures d in Buckets(w, rows) && GroupRow(w, d, rows) == RoundBar(GroupRow(w, d, xs))
  {
    BarsListGroups(w, xs);
    BarsListGroups(w, rows);
    var r :| r in Bars(w, xs) && r.time == d;
    var i :| 0 <= i < |Bars(w, xs)| && Bars(w, xs)[i] == r;
    assert IsRow(w, r, xs);
    assert Bars(w, rows)[i] == RoundBar(r);
    assert IsRow(w, Bars(w, rows)[i], rows);
  }

  /** Aggregating the rounded minute bars by day gives the rounded day of the ticks themselves. */
  lemma DayThroughMinutes(history: seq<Trade>, ticker: string, d: int)
    requires InOrder(history) && d in Buckets(DAY, AllTicks(history, ticker))
    ensures d in Buckets(DAY, MinuteRows(history, ticker))
    ensures GroupRow(DAY, d, MinuteRows(history, ticker)) == RoundBar(GroupRow(DAY, d, AllTicks(history, ticker)))
  {
    var xs, rows := AllTicks(history, ticker), MinuteRows(history, ticker);
    TicksSorted(history, ticker);
    MinuteRowsAreTheTable(history, ticker);
    RoundingCommutes(DAY, Bars(MINUTE, xs));
    assert DAY == MINUTE * 1440;
    Tower(MINUTE, 1440, xs);
    RoundedRow(DAY, xs, rows, d);
  }

  // ------------------------------------------------------------------------------------------
  // Comparing the two paths

  lemma {:induction false} GroupMembers(w: int, b: int, xs: seq<Bar>)
    requires w > 0
    ensures forall x :: x in Group(w, b, xs) ==> x in xs && Bucket(w, x.time) == b
    ensures Sorted(xs) ==> Sorted(Group(w, b, xs))
  {
    if xs != [] {
      var ys, x := xs[..|xs| - 1], xs[|xs| - 1];
      GroupMembers(w, b, ys);
      assert forall y :: y in ys ==> y in xs;
      assert Sorted(xs) ==> forall y :: y in ys ==> y.time <= x.time;
    }
  }

  lemma {:induction false} TicksAreUnits(history: seq<Trade>, ticker: string)
    ensures forall y :: y in AllTicks(history, ticker) ==> y.trades == 1
  {
    if history != [] {
      TicksAreUnits(history[..|history| - 1], ticker);
    }
  }

  lemma {:induction false} UnitTrades(g: seq<Bar>)
    requires forall y :: y in g ==> y.trades == 1
    ensures SumTrades(g) == |g|
  {
    if g != [] {
      UnitTrades(g[..|g| - 1]);
      assert g[|g| - 1] in g;
    }
  }

  /** All ticks that share the day's first timestamp have the same rounded price. */
  ghost predicate FirstPriceUnambiguous(g: seq<Bar>)
    requires g != []
  {
    forall x :: x in g && x.time == g[0].time ==> Round4(x.open) == Round4(g[0].open)
  }

  ghost predicate LastPriceUnambiguous(g: seq<Bar>)
    requires g != []
  {
    forall x :: x in g && x.time == g[|g| - 1].time ==> Round4(x.close) == Round4(g[|g| - 1].close)
  }

  lemma EndsOfSorted(g: seq<Bar>)
    requires g != [] && Sorted(g)
    ensures forall x :: Earliest(g, x) <==> x in g && x.time == g[0].time
    ensures forall x :: Latest(g, x) <==> x in g && x.time == g[|g| - 1].time
  {
    assert g[0] in g && g[|g| - 1] in g;
    assert forall y :: y in g ==> g[0].time <= y.time <= g[|g| - 1].time;
  }

  lemma PossibleDay(g: seq<Bar>, d: int, x: Bar, y: Bar)
    requires Earliest(g, x) && Latest(g, y) && SumTrades(g) == |g|
    ensures TickDay(g, Aggregate(d, g).(open := x.open, close := y.close))
  {}

  lemma CompareOpens(g: seq<Bar>, d: int)
    requires g != [] && Sorted(g) && SumTrades(g) == |g|
    ensures (forall row :: TickDay(g, row) ==> Round4(g[0].open) == Round4(row.open)) <==> FirstPriceUnambiguous(g)
  {
    EndsOfSorted(g);
    var last := g[|g| - 1];
    if forall row :: TickDay(g, row) ==> Round4(g[0].open) == Round4(row.open) {
      forall x | x in g && x.time == g[0].time ensures Round4(x.open) == Round4(g[0].open) {
        PossibleDay(g, d, x, last);
      }
    }
  }

  lemma CompareCloses(g: seq<Bar>, d: int)
    requires g != [] && Sorted(g) && SumTrades(g) == |g|
    ensures (forall row :: TickDay(g, row) ==> Round4(g[|g| - 1].close) == Round4(row.close))
         <==> LastPriceUnambiguous(g)
  {
    EndsOfSorted(g);
    var first := g[0];
    if forall row :: TickDay(g, row) ==> Round4(g[|g| - 1].close) == Round4(row.close) {
      forall x | x in g && x.time == g[|g| - 1].time ensures Round4(x.close) == Round4(g[|g| - 1].close) {
        PossibleDay(g, d, first, x);
      }
    }
  }

  /**
   * Ticks of one day, and the row the minute path makes of them: the extremes, quantity and count
   * of every row the tick query may return agree; opens (closes) agree, whichever row it returns,
   * exactly if the first (last) price is unambiguous.
   */
  ghost predicate Agree(g: seq<Bar>, day: Bar)
    requires g != []
  {
    && (forall row :: TickDay(g, row) ==>
          day.high == Round4(row.high) && day.low == Round4(row.low) && day.volume == row.volume
            && day.trades == row.trades)
    && ((forall row :: TickDay(g, row) ==> day.open == Round4(row.open)) <==> FirstPriceUnambiguous(g))
    && ((forall row :: TickDay(g, row) ==> day.close == Round4(row.close)) <==> LastPriceUnambiguous(g))
  }

  lemma CompareDay(g: seq<Bar>, day: Bar, d: int)
    requires g != [] && Sorted(g) && (forall y :: y in g ==> y.trades == 1) && day == RoundBar(Aggregate(d, g))
    ensures Agree(g, day)
  {
    UnitTrades(g);
    CompareOpens(g, d);
    CompareCloses(g, d);
  }

  /** The day `d` of a ticker, whose trades all fall in trading hours, as the two queries see it. */
  lemma DailyPathsAgree(history: seq<Trade>, ticker: string, d: int)
    requires InOrder(history) && Weekday(d)
    requires forall x ::
               x in history && x.ticker == ticker && Bucket(DAY, x.time) == d && Weekday(x.time) ==> InSession(x.time)
    requires Group(DAY, d, WeekdayTicks(history, ticker)) != []
    ensures d in Buckets(DAY, WeekdayRows(MinuteRows(history, ticker)))
    ensures var g := Group(DAY, d, WeekdayTicks(history, ticker));
            var day := GroupRow(DAY, d, WeekdayRows(MinuteRows(history, ticker)));
            Agree(g, day)
  {
    var xs, rows := AllTicks(history, ticker), MinuteRows(history, ticker);
    SessionDay(history, ticker, d);
    GroupNonEmpty(DAY, d, xs);
    DayThroughMinutes(history, ticker, d);
    WeekdayGroup(rows, d);
    GroupNonEmpty(DAY, d, rows);
    GroupNonEmpty(DAY, d, WeekdayRows(rows));
    TicksSorted(history, ticker);
    GroupMembers(DAY, d, xs);
    TicksAreUnits(history, ticker);
    CompareDay(Group(DAY, d, xs), GroupRow(DAY, d, rows), d);
  }

  // ------------------------------------------------------------------------------------------
  // Filling the table

  datatype SourcePref = Auto | TicksOnly | MinutesOnly

  datatype DayKey = DayKey(time: int, ticker: string, exchange: string)

  /** The rows the script takes: minute rows where wanted and present, else tick rows. */
  function ChooseRows(minuteRows: seq<Bar>, tickRows: seq<Bar>, pref: SourcePref): seq<Bar> {
    var rows := if pref != TicksOnly then minuteRows else [];
    if rows == [] && pref != MinutesOnly then tickRows else rows
  }

  /** With a minimum price, days whose low is below it are dropped. */
  function DropCheap(rows: seq<Bar>, minPrice: real): seq<Bar> {
    if rows == [] then []
    else
      var x := rows[|rows| - 1];
      DropCheap(rows[..|rows| - 1], minPrice) + if minPrice <= 0.0 || x.low >= minPrice then [x] else []
  }

  /** The daily table after upserting rows in order: each day holds its last row. */
  ghost function Upserted(t: map<DayKey, Bar>, rows: seq<Bar>, ticker: string, exchange: string): map<DayKey, Bar> {
    if rows == [] then t
    else
      var x := rows[|rows| - 1];
      Upserted(t, rows[..|rows| - 1], ticker, exchange)[DayKey(x.time, ticker, exchange) := x]
  }

  class DailyTable {
    var rows: map<DayKey, Bar>

    method PopulateTicker(minuteRows: seq<Bar>, tickRows: seq<Bar>, ticker: string, exchange: string,
                          dryRun: bool, pref: SourcePref, minPrice: real) returns (count: nat)
      modifies this
      ensures count == |DropCheap(ChooseRows(minuteRows, tickRows, pref), minPrice)|
      ensures rows == if dryRun then old(rows)
                      else Upserted(old(rows), DropCheap(ChooseRows(minuteRows, tickRows, pref), minPrice), ticker,
                                    exchange)
    {
      var chosen := [];
      if pref == Auto || pref == MinutesOnly {
        chosen := minuteRows;
      }
      if chosen == [] && (pref == Auto || pref == TicksOnly) {
        chosen := tickRows;
      }
      if chosen == [] {
        return 0;
      }
      chosen := DropCheap(chosen, minPrice);
      if dryRun || chosen == [] {
        return |chosen|;
      }
      var i := 0;
      while i < |chosen|
        invariant 0 <= i <= |chosen|
        invariant rows == Upserted(old(rows), chosen[..i], ticker, exchange)
      {
        rows := rows[DayKey(chosen[i].time, ticker, exchange) := chosen[i]];
        assert chosen[..i + 1][..i] == chosen[..i];
        i := i + 1;
      }
      assert chosen[..i] == chosen;
      return |chosen|;
    }
  }

  /** Only the days of this ticker and exchange change, each to a row that was taken. */
  lemma {:induction false} UpsertedAt(t: map<DayKey, Bar>, rows: seq<Bar>, ticker: string, exchange: string, k: DayKey)
    ensures var u := Upserted(t, rows, ticker, exchange);
            if exists x :: x in rows && DayKey(x.time, ticker, exchange) == k
            then k in u && u[k] in rows && u[k].time == k.time
            else (k in u <==> k in t) && (k in t ==> u[k] == t[k])
  {
    if rows != [] {
      var ys, x := rows[..|rows| - 1], rows[|rows| - 1];
      assert rows == ys + [x];
      UpsertedAt(t, ys, ticker, exchange, k);
    }
  }
}
