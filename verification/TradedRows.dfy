/** What the rows of the OHLC tables say of the trades. */
module TradedRows {
  import opened Division
  import opened Options
  import opened OhlcBars
  import opened OhlcPrices
  import opened BarMeanings
  import opened OhlcRebuild
  import opened OhlcResample
  import opened DailyBars

  // ------------------------------------------------------------------------------------------
  // Rounding

  /** `x` times ten thousand is a whole number. */
  predicate FourDecimals(x: real) { (x * 10000.0).Floor as real == x * 10000.0 }

  /** `y` has four decimals and is as near to `x` as any; of two as near, it is the one away from zero. */
  predicate Rounds(x: real, y: real) {
    && FourDecimals(y) && -0.00005 <= y - x <= 0.00005
    && (y - x == 0.00005 ==> x > 0.0) && (y - x == -0.00005 ==> x < 0.0)
  }

  lemma UnitsIs(x: real, n: int)
    ensures n == Units(x) <==> -0.5 <= n as real - x * 10000.0 <= 0.5
                               && (n as real - x * 10000.0 == 0.5 ==> x > 0.0)
                               && (n as real - x * 10000.0 == -0.5 ==> x < 0.0)
  {}

  lemma WholeUnits(y: real, n: int)
    requires y == n as real / 10000.0
    ensures y * 10000.0 == n as real && FourDecimals(y)
  {}

  /** The cast to `numeric(18,4)` rounds, and to nothing else. */
  lemma RoundsExactly(x: real, y: real)
    ensures y == Round4(x) <==> Rounds(x, y)
  {
    UnitsIs(x, Units(x));
    WholeUnits(Round4(x), Units(x));
    if Rounds(x, y) {
      UnitsIs(x, (y * 10000.0).Floor);
    }
  }

  // ------------------------------------------------------------------------------------------
  // Trading hours

  /** `t` is `s` microseconds into day `d` of week `week`, counted from a Monday. */
  predicate InWeek(t: int, week: int, d: int, s: int) { t == (7 * week + d) * 86_400_000_000 + s }

  /** From 13:00 to 20:59:59.999999, Monday to Friday. */
  ghost predicate InHours(t: int) {
    exists week, d, s :: InWeek(t, week, d, s) && 0 <= d <= 4 && 46_800_000_000 <= s < 75_600_000_000
  }

  lemma DayAndTime(t: int, q: int, s: int)
    requires t == q * 86_400_000_000 + s && 0 <= s < 86_400_000_000
    ensures t / DAY == q && t % DAY == s
  {
    DivUnique(t, DAY, q, s);
  }

  lemma WeekAndDay(t: int, week: int, d: int, s: int)
    requires InWeek(t, week, d, s) && 0 <= d < 7 && 0 <= s < 86_400_000_000
    ensures InSession(t) <==> d <= 4 && 46_800_000_000 <= s < 75_600_000_000
  {
    DayAndTime(t, 7 * week + d, s);
    assert (7 * week + d + 1) % 7 == (d + 1) % 7;
  }

  lemma InSessionIs(t: int)
    ensures InSession(t) <==> InHours(t)
  {
    var q := t / 86_400_000_000;
    assert InWeek(t, q / 7, q % 7, t % 86_400_000_000);
    WeekAndDay(t, q / 7, q % 7, t % 86_400_000_000);
    if InHours(t) {
      var week, d, s :| InWeek(t, week, d, s) && 0 <= d <= 4 && 46_800_000_000 <= s < 75_600_000_000;
      WeekAndDay(t, week, d, s);
    }
  }

  // ------------------------------------------------------------------------------------------
  // One minute of one ticker

  /** The trade falls into the minute that starts at the key's time. */
  ghost predicate TradedIn(x: Trade, k: Key) {
    x.ticker == k.ticker && k.time <= x.time < k.time + 60_000_000 && InHours(x.time)
  }

  predicate NoLater(x: Trade, y: Trade) { x.time < y.time || (x.time == y.time && x.number <= y.number) }

  ghost function QuantityIn(history: seq<Trade>, k: Key): int {
    if history == [] then 0
    else QuantityIn(history[..|history| - 1], k)
         + if TradedIn(history[|history| - 1], k) then history[|history| - 1].quantity else 0
  }

  ghost function CountIn(history: seq<Trade>, k: Key): nat {
    if history == [] then 0
    else CountIn(history[..|history| - 1], k) + if TradedIn(history[|history| - 1], k) then 1 else 0
  }

  /** `x` is a trade of the minute. */
  ghost predicate Among(x: Trade, history: seq<Trade>, k: Key) { x in history && TradedIn(x, k) }

  ghost predicate IsFirst(x: Trade, history: seq<Trade>, k: Key) {
    Among(x, history, k) && forall y :: Among(y, history, k) ==> NoLater(x, y)
  }

  ghost predicate IsLast(x: Trade, history: seq<Trade>, k: Key) {
    Among(x, history, k) && forall y :: Among(y, history, k) ==> NoLater(y, x)
  }

  ghost predicate IsDearest(x: Trade, history: seq<Trade>, k: Key) {
    Among(x, history, k) && forall y :: Among(y, history, k) ==> y.price <= x.price
  }

  ghost predicate IsCheapest(x: Trade, history: seq<Trade>, k: Key) {
    Among(x, history, k) && forall y :: Among(y, history, k) ==> x.price <= y.price
  }

  /**
   * The bar of a minute: its open and close are the rounded prices of trades that no trade precedes or
   * follows, its high and low the rounded greatest and least price, its sums those of the trades.
   */
  ghost predicate IsMinute(history: seq<Trade>, k: Key, bar: Bar) {
    && bar.time == k.time && bar.volume == QuantityIn(history, k) && bar.trades == CountIn(history, k)
    && (exists x :: IsFirst(x, history, k) && Rounds(x.price, bar.open))
    && (exists x :: IsLast(x, history, k) && Rounds(x.price, bar.close))
    && (exists x :: IsDearest(x, history, k) && Rounds(x.price, bar.high))
    && (exists x :: IsCheapest(x, history, k) && Rounds(x.price, bar.low))
  }

  /** The trades behind the ticks. */
  function TickTrades(history: seq<Trade>, ticker: string): seq<Trade> {
    if history == [] then []
    else
      var x := history[|history| - 1];
      TickTrades(history[..|history| - 1], ticker) + if x.ticker == ticker && InSession(x.time) then [x] else []
  }

  lemma {:induction false} TicksAre(history: seq<Trade>, ticker: string)
    ensures var ts, xs := TickTrades(history, ticker), AllTicks(history, ticker);
            |ts| == |xs| && forall i :: 0 <= i < |ts| ==> xs[i] == Unit(ts[i])
    ensures forall x :: x in TickTrades(history, ticker) <==> x in history && x.ticker == ticker && InSession(x.time)
  {
    if history != [] {
      var h, x := history[..|history| - 1], history[|history| - 1];
      TicksAre(h, ticker);
      assert history == h + [x];
    }
  }

  lemma {:induction false} TicksInOrder(history: seq<Trade>, ticker: string)
    requires InOrder(history)
    ensures InOrder(TickTrades(history, ticker))
  {
    if history != [] {
      var h, x := history[..|history| - 1], history[|history| - 1];
      TicksInOrder(h, ticker);
      TicksAre(h, ticker);
      forall y | y in TickTrades(h, ticker) ensures NoLater(y, x) {
        var i :| 0 <= i < |h| && h[i] == y;
      }
      OrderSnoc(TickTrades(h, ticker), x);
    }
  }

  lemma TicksOrdered(history: seq<Trade>, ticker: string, i: nat, j: nat)
    requires InOrder(history) && i <= j < |TickTrades(history, ticker)|
    ensures NoLater(TickTrades(history, ticker)[i], TickTrades(history, ticker)[j])
  {
    TicksInOrder(history, ticker);
  }

  lemma OrderSnoc(ts: seq<Trade>, x: Trade)
    requires InOrder(ts) && forall y :: y in ts ==> NoLater(y, x)
    ensures InOrder(ts + [x]) && ts + [] == ts
  {
    forall i, j | 0 <= i < j < |ts + [x]| ensures NoLater((ts + [x])[i], (ts + [x])[j]) {
      assert (ts + [x])[i] == ts[i] && ts[i] in ts;
    }
  }

  lemma {:induction false} TicksAddUp(history: seq<Trade>, k: Key)
    ensures VolumeInside(MINUTE, k.time, AllTicks(history, k.ticker)) == QuantityIn(history, k)
    ensures TradesInside(MINUTE, k.time, AllTicks(history, k.ticker)) == CountIn(history, k)
  {
    if history != [] {
      var h, x := history[..|history| - 1], history[|history| - 1];
      TicksAddUp(h, k);
      InSessionIs(x.time);
      InsideMaybe(k.time, AllTicks(h, k.ticker), x.ticker == k.ticker && InSession(x.time), Unit(x));
    }
  }

  lemma InsideMaybe(b: int, xs: seq<Bar>, chosen: bool, u: Bar)
    ensures var ys, now := xs + (if chosen then [u] else []), chosen && Inside(MINUTE, b, u);
            && VolumeInside(MINUTE, b, ys) == VolumeInside(MINUTE, b, xs) + (if now then u.volume else 0)
            && TradesInside(MINUTE, b, ys) == TradesInside(MINUTE, b, xs) + (if now then u.trades else 0)
  {
    if chosen { assert (xs + [u])[..|xs|] == xs; } else { assert xs + [] == xs; }
  }

  /** Which ticks are the trades of a minute. */
  lemma TickIsTrade(history: seq<Trade>, k: Key, i: nat)
    requires i < |AllTicks(history, k.ticker)| && Inside(MINUTE, k.time, AllTicks(history, k.ticker)[i])
    ensures i < |TickTrades(history, k.ticker)| && Among(TickTrades(history, k.ticker)[i], history, k)
  {
    TicksAre(history, k.ticker);
    InSessionIs(TickTrades(history, k.ticker)[i].time);
    assert TickTrades(history, k.ticker)[i] in TickTrades(history, k.ticker);
  }

  lemma TradeIsTick(history: seq<Trade>, k: Key, x: Trade) returns (i: nat)
    requires Among(x, history, k)
    ensures i < |AllTicks(history, k.ticker)| == |TickTrades(history, k.ticker)|
    ensures TickTrades(history, k.ticker)[i] == x && AllTicks(history, k.ticker)[i] == Unit(x)
    ensures Inside(MINUTE, k.time, Unit(x))
  {
    TicksAre(history, k.ticker);
    InSessionIs(x.time);
    i :| 0 <= i < |TickTrades(history, k.ticker)| && TickTrades(history, k.ticker)[i] == x;
  }

  /** The history gives a minute a bar exactly if trades fall into it, and that bar is theirs. */
  lemma MinuteBarIs(history: seq<Trade>, k: Key)
    requires InOrder(history)
    ensures MinuteBar(history, k).Some? <==> k.time % 60_000_000 == 0 && exists x :: Among(x, history, k)
    ensures MinuteBar(history, k).Some? ==> IsMinute(history, k, MinuteBar(history, k).value)
  {
    var xs := AllTicks(history, k.ticker);
    GroupRowSpans(MINUTE, k.time, xs);
    if x :| x in xs && Inside(MINUTE, k.time, x) {
      var i :| 0 <= i < |xs| && xs[i] == x;
      TickIsTrade(history, k, i);
    }
    if x :| Among(x, history, k) {
      var i := TradeIsTick(history, k, x);
      assert xs[i] in xs;
    }
    if MinuteBar(history, k).Some? {
      SpanIsMinute(history, k, GroupRow(MINUTE, k.time, xs));
    }
  }

  lemma SpanIsMinute(history: seq<Trade>, k: Key, bar: Bar)
    requires InOrder(history) && Spans(MINUTE, k.time, AllTicks(history, k.ticker), bar)
    ensures IsMinute(history, k, RoundBar(bar))
  {
    TicksAddUp(history, k);
    OpenIs(history, k, bar);
    CloseIs(history, k, bar);
    HighIs(history, k, bar);
    LowIs(history, k, bar);
  }

  lemma OpenIs(history: seq<Trade>, k: Key, bar: Bar)
    requires InOrder(history) && Spans(MINUTE, k.time, AllTicks(history, k.ticker), bar)
    ensures exists x :: IsFirst(x, history, k) && Rounds(x.price, Round4(bar.open))
  {
    var xs, ts := AllTicks(history, k.ticker), TickTrades(history, k.ticker);
    var i: nat :| FirstInside(MINUTE, k.time, xs, i) && bar.open == xs[i].open;
    TickIsTrade(history, k, i);
    forall y | Among(y, history, k) ensures NoLater(ts[i], y) {
      var j := TradeIsTick(history, k, y);
      assert Inside(MINUTE, k.time, xs[j]);
      TicksOrdered(history, k.ticker, i, j);
    }
    TicksAre(history, k.ticker);
    RoundsExactly(bar.open, Round4(bar.open));
    assert IsFirst(ts[i], history, k);
  }

  lemma CloseIs(history: seq<Trade>, k: Key, bar: Bar)
    requires InOrder(history) && Spans(MINUTE, k.time, AllTicks(history, k.ticker), bar)
    ensures exists x :: IsLast(x, history, k) && Rounds(x.price, Round4(bar.close))
  {
    var xs, ts := AllTicks(history, k.ticker), TickTrades(history, k.ticker);
    var i: nat :| LastInside(MINUTE, k.time, xs, i) && bar.close == xs[i].close;
    TickIsTrade(history, k, i);
    forall y | Among(y, history, k) ensures NoLater(y, ts[i]) {
      var j := TradeIsTick(history, k, y);
      assert Inside(MINUTE, k.time, xs[j]);
      TicksOrdered(history, k.ticker, j, i);
    }
    TicksAre(history, k.ticker);
    RoundsExactly(bar.close, Round4(bar.close));
    assert IsLast(ts[i], history, k);
  }

  lemma HighIs(history: seq<Trade>, k: Key, bar: Bar)
    requires Spans(MINUTE, k.time, AllTicks(history, k.ticker), bar)
    ensures exists x :: IsDearest(x, history, k) && Rounds(x.price, Round4(bar.high))
  {
    var xs, ts := AllTicks(history, k.ticker), TickTrades(history, k.ticker);
    var h :| h in xs && Inside(MINUTE, k.time, h) && bar.high == h.high;
    var i: nat :| i < |xs| && xs[i] == h;
    TickIsTrade(history, k, i);
    TicksAre(history, k.ticker);
    forall y | Among(y, history, k) ensures y.price <= ts[i].price {
      var m := TradeIsTick(history, k, y);
      assert xs[m] in xs;
    }
    RoundsExactly(bar.high, Round4(bar.high));
    assert IsDearest(ts[i], history, k);
  }

  lemma LowIs(history: seq<Trade>, k: Key, bar: Bar)
    requires Spans(MINUTE, k.time, AllTicks(history, k.ticker), bar)
    ensures exists x :: IsCheapest(x, history, k) && Rounds(x.price, Round4(bar.low))
  {
    var xs, ts := AllTicks(history, k.ticker), TickTrades(history, k.ticker);
    var h :| h in xs && Inside(MINUTE, k.time, h) && bar.low == h.low;
    var i: nat :| i < |xs| && xs[i] == h;
    TickIsTrade(history, k, i);
    TicksAre(history, k.ticker);
    forall y | Among(y, history, k) ensures ts[i].price <= y.price {
      var m := TradeIsTick(history, k, y);
      assert xs[m] in xs;
    }
    RoundsExactly(bar.low, Round4(bar.low));
    assert IsCheapest(ts[i], history, k);
  }

  // ------------------------------------------------------------------------------------------
  // The table after a rebuild

  /** A rebuild of this day and ticker is about the key. */
  predicate Concerns(r: Run, k: Key) {
    && r.day * 86_400_000_000 <= k.time < (r.day + 1) * 86_400_000_000
    && (r.ticker == None || r.ticker == Some("") || r.ticker == Some(k.ticker))
  }

  /**
   * After a rebuild: a key that it concerns, and that no other source holds, has a row exactly if trades
   * fall into its minute, and that row is theirs; any other key is as it was.
   */
  lemma RebuiltRows(t: Table, history: seq<Trade>, r: Run, k: Key)
    requires InOrder(history)
    ensures var t2 := Rebuild(t, history, r);
            if Concerns(r, k) && !(k in t && t[k].source.Other?)
            then
              && (k in t2 <==> k.time % 60_000_000 == 0 && exists x :: Among(x, history, k))
              && (k in t2 ==> t2[k].source == TickAgg && IsMinute(history, k, t2[k].bar))
            else (k in t2 <==> k in t) && (k in t ==> t2[k] == t[k])
  {
    RebuildAt(t, history, r, k);
    ConcernsIs(r, k);
    if Concerns(r, k) && !(k in t && t[k].source.Other?) { MinuteBarIs(history, k); }
  }

  lemma ConcernsIs(r: Run, k: Key)
    ensures Concerns(r, k) <==> Selected(r, k)
  {}

  // ------------------------------------------------------------------------------------------
  // The resampled table

  lemma {:induction false} SinceIsSuffix(rows: seq<Bar>, since: int, from: nat)
    requires from <= |rows| && (forall i :: 0 <= i < from ==> rows[i].time < since)
    requires forall i :: from <= i < |rows| ==> rows[i].time >= since
    ensures Since(rows, since) == rows[from..]
  {
    if rows != [] {
      var ys, x := rows[..|rows| - 1], rows[|rows| - 1];
      if from == |rows| {
        SinceIsSuffix(ys, since, from - 1);
      } else {
        SinceIsSuffix(ys, since, from);
        assert rows[from..] == ys[from..] + [x];
      }
    }
  }

  /**
   * After resampling the one-minute rows of a ticker, of which those from index `from` on are not before
   * `since`: a slot of that ticker and interval into which such rows fall spans them and holds their mean;
   * any other slot is as it was.
   */
  lemma ResampledSlots(t: Slots, rows: seq<Bar>, ticker: string, n: int, since: int, from: nat, k: SlotKey)
    requires n > 0
    requires from <= |rows| && (forall i :: 0 <= i < from ==> rows[i].time < since)
    requires forall i :: from <= i < |rows| ==> rows[i].time >= since
    ensures var t2, w, xs := Upsert(t, Resample(rows, ticker, n, since)), n * 60_000_000, rows[from..];
            if k.ticker == ticker && k.interval == n && k.time % w == 0 && exists x :: x in xs && Inside(w, k.time, x)
            then k in t2 && Spans(w, k.time, xs, t2[k].bar) && IsMeanInside(w, k.time, xs, t2[k].vwap)
            else (k in t2 <==> k in t) && (k in t ==> t2[k] == t[k])
  {
    var w, xs := n * 60_000_000, rows[from..];
    SinceIsSuffix(rows, since, from);
    SlottedAt(xs, ticker, n, k);
    GroupRowSpans(w, k.time, xs);
    UpsertAt(t, Resample(rows, ticker, n, since), k);
    if k.time in Buckets(w, xs) { VwapIsMean(w, k.time, xs); }
  }

  // ------------------------------------------------------------------------------------------
  // The daily table

  /** The day is not dropped for its price. */
  predicate Affordable(x: Bar, minPrice: real) { minPrice > 0.0 ==> x.low >= minPrice }

  /** `x` is one of the rows the script takes: of the minute rows if they are wanted and any, else of the tick rows. */
  predicate Taken(x: Bar, minuteRows: seq<Bar>, tickRows: seq<Bar>, pref: SourcePref, minPrice: real) {
    && Affordable(x, minPrice)
    && match pref
       case Auto => if minuteRows != [] then x in minuteRows else x in tickRows
       case MinutesOnly => x in minuteRows
       case TicksOnly => x in tickRows
  }

  lemma {:induction false} DropCheapIs(rows: seq<Bar>, minPrice: real)
    ensures forall x :: x in DropCheap(rows, minPrice) <==> x in rows && Affordable(x, minPrice)
  {
    if rows != [] {
      DropCheapIs(rows[..|rows| - 1], minPrice);
      assert rows == rows[..|rows| - 1] + [rows[|rows| - 1]];
    }
  }

  /** After a ticker is populated, the days of its taken rows hold one of them, all other days are as they were. */
  lemma PopulatedDays(t: map<DayKey, Bar>, minuteRows: seq<Bar>, tickRows: seq<Bar>, ticker: string, exchange: string,
                      pref: SourcePref, minPrice: real, k: DayKey)
    ensures var t2 := Upserted(t, DropCheap(ChooseRows(minuteRows, tickRows, pref), minPrice), ticker, exchange);
            if k.ticker == ticker && k.exchange == exchange
               && exists x :: Taken(x, minuteRows, tickRows, pref, minPrice) && x.time == k.time
            then k in t2 && Taken(t2[k], minuteRows, tickRows, pref, minPrice) && t2[k].time == k.time
            else (k in t2 <==> k in t) && (k in t ==> t2[k] == t[k])
  {
    var chosen := ChooseRows(minuteRows, tickRows, pref);
    DropCheapIs(chosen, minPrice);
    assert forall x ::
      Taken(x, minuteRows, tickRows, pref, minPrice) <==> x in DropCheap(chosen, minPrice);
    UpsertedAt(t, DropCheap(chosen, minPrice), ticker, exchange, k);
  }
}
