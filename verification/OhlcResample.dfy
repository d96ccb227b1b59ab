/** Resampling the one-minute bars into N-minute bars, from a given date on. */
module OhlcResample {
  import opened Division
  import opened Options
  import opened OhlcBars
  import opened OhlcPrices
  import opened OhlcRebuild

  datatype SlotKey = SlotKey(time: int, ticker: string, interval: int)

  /** A row of `ohlc_resampled`. */
  datatype Slot = Slot(bar: Bar, vwap: real)

  type Slots = map<SlotKey, Slot>

  /** Rows at or after `since`. */
  function Since(rows: seq<Bar>, since: int): seq<Bar> {
    if rows == [] then []
    else
      var x := rows[|rows| - 1];
      Since(rows[..|rows| - 1], since) + if x.time >= since then [x] else []
  }

  /** Rows before `since`. */
  function Until(rows: seq<Bar>, since: int): seq<Bar> {
    if rows == [] then []
    else
      var x := rows[|rows| - 1];
      Until(rows[..|rows| - 1], since) + if x.time < since then [x] else []
  }

  function Width(n: int): int { n * MINUTE }

  function SlotAt(w: int, b: int, xs: seq<Bar>): Slot
    requires w > 0 && b in Buckets(w, xs)
  {
    GroupNonEmpty(w, b, xs);
    Slot(GroupRow(w, b, xs), Vwap(Group(w, b, xs)))
  }

  /** The SELECT over all given rows of one ticker. */
  function Slotted(rows: seq<Bar>, ticker: string, n: int): Slots
    requires n > 0
  {
    var w := Width(n);
    map k: SlotKey | k in (set b | b in Buckets(w, rows) :: SlotKey(b, ticker, n)) :: SlotAt(w, k.time, rows)
  }

  /** The statement's SELECT: the rows of the ticker from `since` on. */
  function Resample(rows: seq<Bar>, ticker: string, n: int, since: int): Slots
    requires n > 0
  {
    Slotted(Since(rows, since), ticker, n)
  }

  /** INSERT ... ON CONFLICT DO UPDATE: new rows win. */
  function Upsert(t: Slots, rows: Slots): Slots { t + rows }

  function GetSlot(t: Slots, k: SlotKey): Option<Slot> { if k in t then Some(t[k]) else None }

  lemma SlottedAt(rows: seq<Bar>, ticker: string, n: int, k: SlotKey)
    requires n > 0
    ensures GetSlot(Slotted(rows, ticker, n), k)
         == if k.ticker == ticker && k.interval == n && k.time in Buckets(Width(n), rows)
            then Some(SlotAt(Width(n), k.time, rows)) else None
  {
    assert k == SlotKey(k.time, k.ticker, k.interval);
  }

  lemma GroupMaybeKept(w: int, b: int, xs: seq<Bar>, kept: bool, u: Bar)
    requires w > 0
    ensures Group(w, b, xs + if kept then [u] else [])
         == if kept && Bucket(w, u.time) == b then Group(w, b, xs) + [u] else Group(w, b, xs)
  {
    GroupSnoc(w, b, xs, u);
    assert xs + [] == xs;
  }

  /** A date on a bucket boundary splits no bucket. */
  lemma {:induction false} BoundaryKeepsGroups(w: int, rows: seq<Bar>, since: int, b: int)
    requires w > 0 && since % w == 0
    ensures Group(w, b, Since(rows, since)) == if since <= b then Group(w, b, rows) else []
  {
    if rows != [] {
      var ys, x := rows[..|rows| - 1], rows[|rows| - 1];
      BoundaryKeepsGroups(w, ys, since, b);
      BucketAfterBoundary(w, since, x.time);
      GroupMaybeKept(w, b, Since(ys, since), x.time >= since, x);
      GroupMaybeKept(w, b, ys, true, x);
      assert rows == ys + [x];
    }
  }

  lemma {:induction false} EarlierGroupsUntouched(w: int, rows: seq<Bar>, since: int, b: int)
    requires w > 0 && since % w == 0 && b < since
    ensures Group(w, b, Until(rows, since)) == Group(w, b, rows)
  {
    if rows != [] {
      var ys, x := rows[..|rows| - 1], rows[|rows| - 1];
      EarlierGroupsUntouched(w, ys, since, b);
      BucketAfterBoundary(w, since, x.time);
      GroupMaybeKept(w, b, Until(ys, since), x.time < since, x);
      GroupMaybeKept(w, b, ys, true, x);
      assert rows == ys + [x];
    }
  }

  lemma SameGroupSameSlot(w: int, b: int, xs: seq<Bar>, ys: seq<Bar>)
    requires w > 0 && Group(w, b, xs) == Group(w, b, ys)
    ensures b in Buckets(w, xs) <==> b in Buckets(w, ys)
    ensures b in Buckets(w, xs) ==> SlotAt(w, b, xs) == SlotAt(w, b, ys)
  {
    GroupNonEmpty(w, b, xs);
    GroupNonEmpty(w, b, ys);
  }

  /** From a bucket boundary on, the statement writes exactly the later rows of a full run. */
  lemma ResampleFromBoundary(rows: seq<Bar>, ticker: string, n: int, since: int, k: SlotKey)
    requires n > 0 && since % Width(n) == 0
    ensures GetSlot(Resample(rows, ticker, n, since), k)
         == if since <= k.time then GetSlot(Slotted(rows, ticker, n), k) else None
  {
    var w, xs := Width(n), Since(rows, since);
    SlottedAt(rows, ticker, n, k);
    SlottedAt(xs, ticker, n, k);
    BoundaryKeepsGroups(w, rows, since, k.time);
    if since <= k.time {
      SameGroupSameSlot(w, k.time, xs, rows);
    } else {
      GroupNonEmpty(w, k.time, xs);
    }
  }

  lemma SlotsByKeys(t: Slots, u: Slots)
    requires forall k :: GetSlot(t, k) == GetSlot(u, k)
    ensures t == u
  {
    forall k | k in t ensures k in u && u[k] == t[k] { assert GetSlot(t, k) == GetSlot(u, k); }
    forall k | k in u ensures k in t { assert GetSlot(t, k) == GetSlot(u, k); }
  }

  lemma UpsertAt(t: Slots, rows: Slots, k: SlotKey)
    ensures GetSlot(Upsert(t, rows), k) == if k in rows then GetSlot(rows, k) else GetSlot(t, k)
  {}

  /**
   * When the one-minute rows before a bucket boundary have not changed since the last full run,
   * rerunning from the boundary leaves the table of a full rerun.
   */
  lemma RerunFromBoundary(t: Slots, before: seq<Bar>, after: seq<Bar>, ticker: string, n: int, since: int)
    requires n > 0 && since % Width(n) == 0
    requires Until(before, since) == Until(after, since)
    ensures var table := Upsert(t, Slotted(before, ticker, n));
            Upsert(table, Resample(after, ticker, n, since)) == Upsert(table, Slotted(after, ticker, n))
  {
    var w, table := Width(n), Upsert(t, Slotted(before, ticker, n));
    var part, full := Resample(after, ticker, n, since), Slotted(after, ticker, n);
    forall k ensures GetSlot(Upsert(table, part), k) == GetSlot(Upsert(table, full), k) {
      UpsertAt(table, part, k);
      UpsertAt(table, full, k);
      UpsertAt(t, Slotted(before, ticker, n), k);
      ResampleFromBoundary(after, ticker, n, since, k);
      SlottedAt(after, ticker, n, k);
      SlottedAt(before, ticker, n, k);
      if k.time < since {
        EarlierGroupsUntouched(w, before, since, k.time);
        EarlierGroupsUntouched(w, after, since, k.time);
        SameGroupSameSlot(w, k.time, before, after);
      }
    }
    SlotsByKeys(Upsert(table, part), Upsert(table, full));
  }

  /** Rerunning from `since` never disturbs an up-to-date table, whatever the one-minute rows. */
  ghost predicate RerunIsHarmless(n: int, since: int)
    requires n > 0
  {
    forall rows, ticker :: Sorted(rows) ==>
      Upsert(Slotted(rows, ticker, n), Resample(rows, ticker, n, since)) == Slotted(rows, ticker, n)
  }

  /**
   * Off a boundary, a rerun replaces the bar of the bucket it cuts by a bar of the bucket's later
   * part: two bars of one bucket, one on each side of `since`, are enough.
   */
  lemma CutBucketIsLost(n: int, since: int)
    requires n > 0 && since % Width(n) != 0
    ensures !RerunIsHarmless(n, since)
  {
    var w := Width(n);
    var b := Bucket(w, since);
    var x, y := Bar(b, 1.0, 1.0, 1.0, 1.0, 1, 1), Bar(since, 1.0, 1.0, 1.0, 1.0, 1, 1);
    BucketMonotone(w, since, since);
    DivUnique(b, w, since / w, 0);
    TwoBars(w, b, x, y);
    OneBarSince(since, x, y);
    RerunDisturbs(n, since, [x, y], b);
  }

  lemma OneBarSince(since: int, x: Bar, y: Bar)
    requires x.time < since <= y.time
    ensures Since([x, y], since) == [y] && Sorted([x, y])
  {
    assert [x, y][..1] == [x] && [x][..0] == [];
    assert Since([x], since) == [];
  }

  /** A rerun that counts fewer trades in some bucket disturbs the table. */
  lemma RerunDisturbs(n: int, since: int, rows: seq<Bar>, b: int)
    requires n > 0 && Sorted(rows)
    requires b in Buckets(Width(n), rows) && b in Buckets(Width(n), Since(rows, since))
    requires GroupRow(Width(n), b, Since(rows, since)).trades < GroupRow(Width(n), b, rows).trades
    ensures !RerunIsHarmless(n, since)
  {
    var k := SlotKey(b, "", n);
    SlottedAt(rows, "", n, k);
    SlottedAt(Since(rows, since), "", n, k);
    UpsertAt(Slotted(rows, "", n), Resample(rows, "", n, since), k);
  }

  lemma OneBar(w: int, b: int, x: Bar)
    requires w > 0 && Bucket(w, x.time) == b
    ensures Buckets(w, [x]) == {b} && GroupRow(w, b, [x]) == x.(time := b)
  {
    assert [] + [x] == [x];
    BucketsSnoc(w, [], x);
    GroupRowSnoc(w, [], x, b);
  }

  lemma TwoBars(w: int, b: int, x: Bar, y: Bar)
    requires w > 0 && Bucket(w, x.time) == b && Bucket(w, y.time) == b && x.trades == y.trades == 1
    ensures b in Buckets(w, [x, y]) && GroupRow(w, b, [x, y]).trades == 2
    ensures b in Buckets(w, [y]) && GroupRow(w, b, [y]).trades == 1
  {
    OneBar(w, b, x);
    OneBar(w, b, y);
    var xy := [x] + [y];
    assert xy == [x, y];
    GroupRowSnoc(w, [x], y, b);
    BucketsSnoc(w, [x], y);
  }

  /** Rerunning from a date is harmless exactly if the date is a bucket boundary. */
  lemma RerunHarmlessIffBoundary(n: int, since: int)
    requires n > 0
    ensures RerunIsHarmless(n, since) <==> since % Width(n) == 0
  {
    if since % Width(n) == 0 {
      forall rows, ticker | Sorted(rows)
        ensures Upsert(Slotted(rows, ticker, n), Resample(rows, ticker, n, since)) == Slotted(rows, ticker, n)
      {
        RerunFromBoundary(map[], rows, rows, ticker, n, since);
        assert Upsert(map[], Slotted(rows, ticker, n)) == Slotted(rows, ticker, n);
        assert Upsert(Slotted(rows, ticker, n), Slotted(rows, ticker, n)) == Slotted(rows, ticker, n);
      }
    } else {
      CutBucketIsLost(n, since);
    }
  }

  /** Every date is a boundary exactly for the intervals that divide a day. */
  lemma DatesAreBoundaries(n: int)
    requires n > 0
    ensures (forall day: int :: day * DAY % Width(n) == 0) <==> 1440 % n == 0
  {
    var w := Width(n);
    if 1440 % n == 0 {
      var q := 1440 / n;
      forall day: int ensures day * DAY % w == 0 {
        assert day * DAY == w * (day * q) by {
          assert DAY == 1440 * MINUTE && 1440 == n * q;
          assert day * (n * q * MINUTE) == n * MINUTE * (day * q);
        }
        DivUnique(day * DAY, w, day * q, 0);
      }
    }
    if forall day: int :: day * DAY % w == 0 {
      assert 1 * DAY % w == 0;
      var q := DAY / w;
      assert DAY == w * q;
      assert 1440 * MINUTE == n * MINUTE * q == (n * q) * MINUTE;
      assert 1440 == n * q;
      DivUnique(1440, n, q, 0);
    }
  }

  // ------------------------------------------------------------------------------------------
  // The loop over tickers and intervals

  /** The intervals the command line accepts. */
  type Interval = n: int | 1 <= n <= 1440 witness 1

  datatype Job = Job(ticker: string, interval: Interval)

  /** The one-minute rows of each ticker. */
  type Minutes = map<string, seq<Bar>>

  function RowsOf(minutes: Minutes, ticker: string): seq<Bar> {
    if ticker in minutes then minutes[ticker] else []
  }

  ghost function RunJobs(t: Slots, minutes: Minutes, jobs: seq<Job>, since: int): Slots
  {
    if jobs == [] then t
    else
      var j := jobs[|jobs| - 1];
      Upsert(RunJobs(t, minutes, jobs[..|jobs| - 1], since),
             Resample(RowsOf(minutes, j.ticker), j.ticker, j.interval, since))
  }

  /**
   * Any number of jobs, in any order and with any repetition: a slot of a ticker and interval that
   * ran holds what the rows give, where they give one; every other slot is as before.
   */
  lemma {:induction false} RunJobsAt(t: Slots, minutes: Minutes, jobs: seq<Job>, since: int, k: SlotKey)
    ensures GetSlot(RunJobs(t, minutes, jobs, since), k)
         == if 1 <= k.interval <= 1440 && Job(k.ticker, k.interval) in jobs
              && k in Resample(RowsOf(minutes, k.ticker), k.ticker, k.interval, since)
            then GetSlot(Resample(RowsOf(minutes, k.ticker), k.ticker, k.interval, since), k)
            else GetSlot(t, k)
  {
    if jobs != [] {
      var init, j := jobs[..|jobs| - 1], jobs[|jobs| - 1];
      assert jobs == init + [j];
      RunJobsAt(t, minutes, init, since, k);
      var rows := RowsOf(minutes, j.ticker);
      UpsertAt(RunJobs(t, minutes, init, since), Resample(rows, j.ticker, j.interval, since), k);
      SlottedAt(Since(rows, since), j.ticker, j.interval, k);
    }
  }

  /**
   * Runs of the same jobs, in any order and any number of times, leave the same table; one more run
   * changes nothing.
   */
  lemma RunAgain(t: Slots, minutes: Minutes, jobs: seq<Job>, more: seq<Job>, since: int)
    requires forall j :: j in jobs <==> j in more
    ensures RunJobs(t, minutes, jobs, since) == RunJobs(t, minutes, more, since)
    ensures RunJobs(RunJobs(t, minutes, jobs, since), minutes, more, since) == RunJobs(t, minutes, jobs, since)
  {
    var once, other := RunJobs(t, minutes, jobs, since), RunJobs(t, minutes, more, since);
    var twice := RunJobs(once, minutes, more, since);
    forall k ensures GetSlot(once, k) == GetSlot(other, k) && GetSlot(twice, k) == GetSlot(once, k) {
      RunJobsAt(t, minutes, jobs, since, k);
      RunJobsAt(t, minutes, more, since, k);
      RunJobsAt(once, minutes, more, since, k);
    }
    SlotsByKeys(once, other);
    SlotsByKeys(twice, once);
  }

  /** The jobs of one ticker that take effect. */
  ghost function JobsOf(ticker: string, intervals: seq<Interval>, failing: set<Job>): (jobs: seq<Job>)
    ensures forall j :: j in jobs <==> j.ticker == ticker && j.interval in intervals && j !in failing
  {
    if intervals == [] then []
    else
      var j := Job(ticker, intervals[|intervals| - 1]);
      JobsOf(ticker, intervals[..|intervals| - 1], failing) + if j in failing then [] else [j]
  }

  lemma JobsOfStep(ticker: string, intervals: seq<Interval>, k: nat, failing: set<Job>)
    requires k < |intervals|
    ensures var before, j := JobsOf(ticker, intervals[..k], failing), Job(ticker, intervals[k]);
            JobsOf(ticker, intervals[..k + 1], failing) == if j in failing then before else before + [j]
  {
    assert intervals[..k + 1][..k] == intervals[..k];
    assert JobsOf(ticker, intervals[..k], failing) + [] == JobsOf(ticker, intervals[..k], failing);
  }

  lemma RunJobsSnoc(t: Slots, minutes: Minutes, jobs: seq<Job>, since: int, j: Job)
    ensures RunJobs(t, minutes, jobs + [j], since)
         == Upsert(RunJobs(t, minutes, jobs, since), Resample(RowsOf(minutes, j.ticker), j.ticker, j.interval, since))
  {
    assert (jobs + [j])[..|jobs|] == jobs;
  }

  lemma {:induction false} RunJobsConcat(t: Slots, minutes: Minutes, jobs: seq<Job>, more: seq<Job>, since: int)
    ensures RunJobs(t, minutes, jobs + more, since) == RunJobs(RunJobs(t, minutes, jobs, since), minutes, more, since)
  {
    if more == [] {
      assert jobs + more == jobs;
    } else {
      var init, j := more[..|more| - 1], more[|more| - 1];
      assert jobs + more == (jobs + init) + [j] && more == init + [j];
      RunJobsConcat(t, minutes, jobs, init, since);
      RunJobsSnoc(t, minutes, jobs + init, since, j);
      RunJobsSnoc(RunJobs(t, minutes, jobs, since), minutes, init, since, j);
    }
  }

  /** The connection: the one-minute rows it reads and the resampled table it writes. */
  class Warehouse {
    const minutes: Minutes
    var slots: Slots

    constructor (minutes: Minutes, slots: Slots)
      ensures this.minutes == minutes && this.slots == slots
    {
      this.minutes, this.slots := minutes, slots;
    }

    /** One statement in its transaction; if it raises it is rolled back. A dry run only counts. */
    method ResampleOne(ticker: string, n: int, since: int, dryRun: bool, raises: bool) returns (count: nat)
      requires n > 0
      modifies this
      ensures slots == if dryRun || raises then old(slots)
                       else Upsert(old(slots), Resample(RowsOf(minutes, ticker), ticker, n, since))
      ensures count == if raises then 0 else |Resample(RowsOf(minutes, ticker), ticker, n, since)|
    {
      var rows := Resample(RowsOf(minutes, ticker), ticker, n, since);
      if raises {
        return 0;
      }
      if !dryRun {
        slots := Upsert(slots, rows);
      }
      return |rows|;
    }

    /** All intervals of one ticker. */
    method ResampleTicker(ticker: string, intervals: seq<Interval>, since: int, failing: set<Job>)
      modifies this
      ensures slots == RunJobs(old(slots), minutes, JobsOf(ticker, intervals, failing), since)
    {
      ghost var was := slots;
      var k := 0;
      while k < |intervals|
        invariant 0 <= k <= |intervals|
        invariant slots == RunJobs(was, minutes, JobsOf(ticker, intervals[..k], failing), since)
      {
        var j := Job(ticker, intervals[k]);
        var count := ResampleOne(ticker, intervals[k], since, false, j in failing);
        JobsOfStep(ticker, intervals, k, failing);
        RunJobsSnoc(was, minutes, JobsOf(ticker, intervals[..k], failing), since, j);
        k := k + 1;
      }
      assert intervals[..k] == intervals;
    }

    /** All tickers by all intervals. */
    method ResampleAll(tickers: seq<string>, intervals: seq<Interval>, since: int, failing: set<Job>)
      returns (ghost jobs: seq<Job>)
      modifies this
      ensures forall j :: j in jobs <==> j.ticker in tickers && j.interval in intervals && j !in failing
      ensures slots == RunJobs(old(slots), minutes, jobs, since)
    {
      jobs := [];
      ghost var was := slots;
      var i := 0;
      while i < |tickers|
        invariant 0 <= i <= |tickers|
        invariant forall j :: j in jobs <==> j.ticker in tickers[..i] && j.interval in intervals && j !in failing
        invariant slots == RunJobs(was, minutes, jobs, since)
      {
        ResampleTicker(tickers[i], intervals, since, failing);
        ghost var more := JobsOf(tickers[i], intervals, failing);
        RunJobsConcat(was, minutes, jobs, more, since);
        assert tickers[..i + 1] == tickers[..i] + [tickers[i]];
        jobs := jobs + more;
        i := i + 1;
      }
      assert tickers[..i] == tickers;
    }
  }
}
