/**
 * Aggregation of bars into wider bars: the fold behind every GROUP BY of the OHLC tables, and why
 * aggregating twice is aggregating once.
 */
module OhlcBars {
  import opened Division

  // Times are microseconds since Monday 2000-01-03 00:00 UTC, the origin `time_bucket` counts from.

  /** A tick is a bar whose four prices coincide; a table read in time order is a sequence of bars. */
  datatype Bar = Bar(time: int, open: real, high: real, low: real, close: real, volume: int, trades: int)

  function Max(x: real, y: real): real { if x >= y then x else y }

  function Min(x: real, y: real): real { if x <= y then x else y }

  /** Start of the bucket of width `w` that holds time `t`: a floor, before the origin too. */
  function Bucket(w: int, t: int): int
    requires w > 0
  {
    t - t % w
  }

  // ------------------------------------------------------------------------------------------
  // The aggregates, as the queries state them

  function MaxHigh(xs: seq<Bar>): real
    requires xs != []
  {
    if |xs| == 1 then xs[0].high else Max(MaxHigh(xs[..|xs| - 1]), xs[|xs| - 1].high)
  }

  function MinLow(xs: seq<Bar>): real
    requires xs != []
  {
    if |xs| == 1 then xs[0].low else Min(MinLow(xs[..|xs| - 1]), xs[|xs| - 1].low)
  }

  function SumVolume(xs: seq<Bar>): int {
    if xs == [] then 0 else SumVolume(xs[..|xs| - 1]) + xs[|xs| - 1].volume
  }

  function SumTrades(xs: seq<Bar>): int {
    if xs == [] then 0 else SumTrades(xs[..|xs| - 1]) + xs[|xs| - 1].trades
  }

  /** First open, greatest high, least low, last close and the sums of one group. */
  function Aggregate(b: int, xs: seq<Bar>): Bar
    requires xs != []
  {
    Bar(b, xs[0].open, MaxHigh(xs), MinLow(xs), xs[|xs| - 1].close, SumVolume(xs), SumTrades(xs))
  }

  /** The rows of one bucket, in order. */
  function Group(w: int, b: int, xs: seq<Bar>): seq<Bar>
    requires w > 0
  {
    if xs == [] then []
    else
      var x := xs[|xs| - 1];
      Group(w, b, xs[..|xs| - 1]) + if Bucket(w, x.time) == b then [x] else []
  }

  function Buckets(w: int, xs: seq<Bar>): set<int>
    requires w > 0
  {
    set x | x in xs :: Bucket(w, x.time)
  }

  lemma GroupNonEmpty(w: int, b: int, xs: seq<Bar>)
    requires w > 0
    ensures Group(w, b, xs) != [] <==> b in Buckets(w, xs)
  {
    if xs != [] {
      var ys, x := xs[..|xs| - 1], xs[|xs| - 1];
      GroupNonEmpty(w, b, ys);
      assert xs == ys + [x];
    }
  }

  /** SELECT ... GROUP BY time_bucket(w, time): one row for each bucket that holds a row. */
  function GroupBy(w: int, xs: seq<Bar>): (t: map<int, Bar>)
    requires w > 0
    ensures t.Keys == Buckets(w, xs)
  {
    map b | b in Buckets(w, xs) :: GroupRow(w, b, xs)
  }

  function GroupRow(w: int, b: int, xs: seq<Bar>): Bar
    requires w > 0 && b in Buckets(w, xs)
  {
    GroupNonEmpty(w, b, xs);
    Aggregate(b, Group(w, b, xs))
  }

  // ------------------------------------------------------------------------------------------
  // The same rows, produced in one pass over the table

  function Merge(a: Bar, x: Bar): Bar {
    Bar(a.time, a.open, Max(a.high, x.high), Min(a.low, x.low), x.close, a.volume + x.volume, a.trades + x.trades)
  }

  function Extend(w: int, bars: seq<Bar>, x: Bar): seq<Bar>
    requires w > 0
  {
    if bars != [] && bars[|bars| - 1].time == Bucket(w, x.time)
    then bars[..|bars| - 1] + [Merge(bars[|bars| - 1], x)]
    else bars + [x.(time := Bucket(w, x.time))]
  }

  function Bars(w: int, xs: seq<Bar>): seq<Bar>
    requires w > 0
  {
    if xs == [] then [] else Extend(w, Bars(w, xs[..|xs| - 1]), xs[|xs| - 1])
  }

  ghost predicate Sorted(xs: seq<Bar>) {
    forall i, j :: 0 <= i < j < |xs| ==> xs[i].time <= xs[j].time
  }

  ghost predicate StrictlySorted(xs: seq<Bar>) {
    forall i, j :: 0 <= i < j < |xs| ==> xs[i].time < xs[j].time
  }

  /** `rows` lists the table `t` in time order. */
  ghost predicate Lists(rows: seq<Bar>, t: map<int, Bar>) {
    && StrictlySorted(rows)
    && (forall i :: 0 <= i < |rows| ==> rows[i].time in t && t[rows[i].time] == rows[i])
    && (forall b :: b in t ==> t[b] in rows && t[b].time == b)
  }

  // ------------------------------------------------------------------------------------------
  // Buckets

  lemma BucketMonotone(w: int, s: int, t: int)
    requires w > 0 && s <= t
    ensures Bucket(w, s) <= Bucket(w, t) <= t < Bucket(w, t) + w
  {
    var p, q := s / w, t / w;
    assert Bucket(w, s) == w * p && Bucket(w, t) == w * q;
    MulStep(w, q, p);
    MulStep(w, p, q);
  }

  /** A bucket lies after a bucket boundary with all of its times, or before it with all of them. */
  lemma BucketAfterBoundary(w: int, lo: int, t: int)
    requires w > 0 && lo % w == 0
    ensures lo <= Bucket(w, t) <==> lo <= t
  {
    BucketMonotone(w, t, t);
    if lo <= t {
      BucketMonotone(w, lo, t);
    }
  }

  /** Where `n` divides `m`, the wide bucket of a time is that of its narrow bucket. */
  lemma BucketNested(n: int, k: int, t: int)
    requires n > 0 && k > 0 && n * k > 0
    ensures Bucket(n * k, Bucket(n, t)) == Bucket(n * k, t)
  {
    var m := n * k;
    var q, r := t / m, t % m;
    var d, e := r / n, r % n;
    assert t == m * q + r && r == n * d + e;
    assert m * q == n * (k * q) == n * k * q;
    assert n * (k * q + d) == n * (k * q) + n * d;
    DivUnique(t, n, k * q + d, e);
    assert Bucket(n, t) == m * q + n * d;
    assert n * d >= 0 by { assert d >= 0; }
    DivUnique(Bucket(n, t), m, q, n * d);
  }

  // ------------------------------------------------------------------------------------------
  // The tower: narrow buckets, then wide ones

  lemma BarsSnoc(w: int, ys: seq<Bar>, x: Bar)
    requires w > 0
    ensures Bars(w, ys + [x]) == Extend(w, Bars(w, ys), x)
  {
    assert (ys + [x])[..|ys|] == ys;
  }

  /** A row's own time matters only through its bucket. */
  lemma ExtendAt(m: int, bars: seq<Bar>, x: Bar, t: int)
    requires m > 0 && Bucket(m, t) == Bucket(m, x.time)
    ensures Extend(m, bars, x.(time := t)) == Extend(m, bars, x)
  {}

  lemma ExtendTwice(n: int, m: int, bars: seq<Bar>, x: Bar)
    requires n > 0 && m > 0 && Bucket(m, Bucket(n, x.time)) == Bucket(m, x.time)
    ensures Bars(m, Extend(n, bars, x)) == Extend(m, Bars(m, bars), x)
  {
    var t := Bucket(n, x.time);
    if bars != [] && bars[|bars| - 1].time == t {
      var init, last := bars[..|bars| - 1], bars[|bars| - 1];
      assert bars == init + [last];
      BarsSnoc(m, init, Merge(last, x));
      BarsSnoc(m, init, last);
      ExtendMerged(m, Bars(m, init), last, x);
    } else {
      BarsSnoc(m, bars, x.(time := t));
      ExtendAt(m, Bars(m, bars), x, t);
    }
  }

  lemma ExtendMerged(m: int, bars: seq<Bar>, y: Bar, x: Bar)
    requires m > 0 && Bucket(m, y.time) == Bucket(m, x.time)
    ensures Extend(m, bars, Merge(y, x)) == Extend(m, Extend(m, bars, y), x)
  {}

  /**
   * The tower law: bars of width `n`, bucketed again to width `n * k`, are the bars of width
   * `n * k` of the same rows.
   */
  lemma {:induction false} Tower(n: int, k: int, xs: seq<Bar>)
    requires n > 0 && k > 0 && n * k > 0
    ensures Bars(n * k, Bars(n, xs)) == Bars(n * k, xs)
  {
    if xs != [] {
      var ys, x := xs[..|xs| - 1], xs[|xs| - 1];
      Tower(n, k, ys);
      BucketNested(n, k, x.time);
      ExtendTwice(n, n * k, Bars(n, ys), x);
    }
  }

  // ------------------------------------------------------------------------------------------
  // The one-pass form lists exactly the rows of the GROUP BY

  ghost predicate IsRow(w: int, r: Bar, xs: seq<Bar>)
    requires w > 0
  {
    r.time in Buckets(w, xs) && r == GroupRow(w, r.time, xs)
  }

  ghost predicate IsGroupBy(w: int, rows: seq<Bar>, xs: seq<Bar>)
    requires w > 0
  {
    && StrictlySorted(rows)
    && (forall r :: r in rows ==> IsRow(w, r, xs))
    && (forall b :: b in Buckets(w, xs) ==> exists r :: r in rows && r.time == b)
  }

  lemma BucketsSnoc(w: int, ys: seq<Bar>, x: Bar)
    requires w > 0
    ensures Buckets(w, ys + [x]) == Buckets(w, ys) + {Bucket(w, x.time)}
  {
    var xs := ys + [x];
    forall b | b in Buckets(w, ys) + {Bucket(w, x.time)} ensures b in Buckets(w, xs) {
      if b == Bucket(w, x.time) {
        assert x in xs;
      } else {
        var y :| y in ys && Bucket(w, y.time) == b;
        assert y in xs;
      }
    }
  }

  lemma SumsSnoc(g: seq<Bar>, x: Bar)
    ensures SumVolume(g + [x]) == SumVolume(g) + x.volume
    ensures SumTrades(g + [x]) == SumTrades(g) + x.trades
  {
    var h := g + [x];
    assert h[..|h| - 1] == g;
  }

  lemma ExtremesSnoc(g: seq<Bar>, x: Bar)
    requires g != []
    ensures MaxHigh(g + [x]) == Max(MaxHigh(g), x.high)
    ensures MinLow(g + [x]) == Min(MinLow(g), x.low)
  {
    var h := g + [x];
    assert h[..|h| - 1] == g;
  }

  lemma AggregateSnoc(b: int, g: seq<Bar>, x: Bar)
    ensures Aggregate(b, g + [x]) == if g == [] then x.(time := b) else Merge(Aggregate(b, g), x)
  {
    SumsSnoc(g, x);
    var h := g + [x];
    if g == [] {
      assert h == [x];
    } else {
      ExtremesSnoc(g, x);
      assert h[0] == g[0] && h[|h| - 1] == x;
    }
  }

  lemma GroupSnoc(w: int, b: int, ys: seq<Bar>, x: Bar)
    requires w > 0
    ensures Group(w, b, ys + [x]) == if Bucket(w, x.time) == b then Group(w, b, ys) + [x] else Group(w, b, ys)
  {
    var xs := ys + [x];
    assert xs[..|xs| - 1] == ys && xs[|xs| - 1] == x;
  }

  /** The row of the bucket a new row falls into is started by it or extended with it. */
  lemma GroupRowSnoc(w: int, ys: seq<Bar>, x: Bar, b: int)
    requires w > 0 && b in Buckets(w, ys + [x])
    ensures b != Bucket(w, x.time) ==> b in Buckets(w, ys) && GroupRow(w, b, ys + [x]) == GroupRow(w, b, ys)
    ensures b == Bucket(w, x.time) ==>
              GroupRow(w, b, ys + [x]) == if b in Buckets(w, ys) then Merge(GroupRow(w, b, ys), x) else x.(time := b)
  {
    BucketsSnoc(w, ys, x);
    GroupSnoc(w, b, ys, x);
    GroupNonEmpty(w, b, ys);
    AggregateSnoc(b, Group(w, b, ys), x);
  }

  /** The last bar is that of the last row's bucket. */
  lemma LastBarsBucket(w: int, xs: seq<Bar>)
    requires w > 0 && xs != []
    ensures Bars(w, xs) != [] && Bars(w, xs)[|Bars(w, xs)| - 1].time == Bucket(w, xs[|xs| - 1].time)
  {}

  lemma {:induction false} BarsListGroups(w: int, xs: seq<Bar>)
    requires w > 0 && Sorted(xs)
    ensures IsGroupBy(w, Bars(w, xs), xs)
  {
    if xs != [] {
      var ys, x := xs[..|xs| - 1], xs[|xs| - 1];
      assert xs == ys + [x];
      BarsListGroups(w, ys);
      if ys != [] {
        LastBarsBucket(w, ys);
        BucketMonotone(w, ys[|ys| - 1].time, x.time);
      }
      ExtendListsGroups(w, ys, x, Bars(w, ys));
    }
  }

  lemma ExtendListsGroups(w: int, ys: seq<Bar>, x: Bar, bars: seq<Bar>)
    requires w > 0 && IsGroupBy(w, bars, ys)
    requires ys == [] ==> bars == []
    requires ys != [] ==> bars != [] && bars[|bars| - 1].time <= Bucket(w, x.time)
    ensures IsGroupBy(w, Extend(w, bars, x), ys + [x])
  {
    var b := Bucket(w, x.time);
    BucketsSnoc(w, ys, x);
    if bars != [] && bars[|bars| - 1].time == b {
      assert bars == bars[..|bars| - 1] + [bars[|bars| - 1]];
      MergeListsGroups(w, ys, x, bars[..|bars| - 1], bars[|bars| - 1]);
    } else {
      assert forall i :: 0 <= i < |bars| ==> bars[i].time <= bars[|bars| - 1].time;
      AppendListsGroups(w, ys, x, bars);
    }
  }

  /** Rows that keep the times of `bars` and list the bucket of `x` cover all buckets. */
  lemma AllListed(w: int, ys: seq<Bar>, x: Bar, bars: seq<Bar>, rows: seq<Bar>)
    requires w > 0 && IsGroupBy(w, bars, ys)
    requires exists r :: r in rows && r.time == Bucket(w, x.time)
    requires forall y :: y in bars ==> exists r :: r in rows && r.time == y.time
    ensures forall b :: b in Buckets(w, ys + [x]) ==> exists r :: r in rows && r.time == b
  {
    BucketsSnoc(w, ys, x);
  }

  lemma RowKept(w: int, ys: seq<Bar>, x: Bar, r: Bar)
    requires w > 0 && IsRow(w, r, ys) && r.time != Bucket(w, x.time)
    ensures IsRow(w, r, ys + [x])
  {
    BucketsSnoc(w, ys, x);
    GroupRowSnoc(w, ys, x, r.time);
  }

  lemma SortedSnoc(bars: seq<Bar>, r: Bar)
    requires StrictlySorted(bars) && (bars != [] ==> bars[|bars| - 1].time < r.time)
    ensures StrictlySorted(bars + [r])
  {
    var rows := bars + [r];
    forall i, j | 0 <= i < j < |rows| ensures rows[i].time < rows[j].time {
      assert rows[i] == bars[i] && (i < |bars| - 1 ==> bars[i].time < bars[|bars| - 1].time);
    }
  }

  lemma AppendListsGroups(w: int, ys: seq<Bar>, x: Bar, bars: seq<Bar>)
    requires w > 0 && IsGroupBy(w, bars, ys) && Bucket(w, x.time) !in Buckets(w, ys)
    requires bars != [] ==> bars[|bars| - 1].time < Bucket(w, x.time)
    ensures IsGroupBy(w, bars + [x.(time := Bucket(w, x.time))], ys + [x])
  {
    var r := x.(time := Bucket(w, x.time));
    BucketsSnoc(w, ys, x);
    GroupRowSnoc(w, ys, x, r.time);
    SortedSnoc(bars, r);
    forall y | y in bars ensures IsRow(w, y, ys + [x]) {
      RowKept(w, ys, x, y);
    }
    assert r in bars + [r];
    assert forall y :: y in bars ==> y in bars + [r];
    AllListed(w, ys, x, bars, bars + [r]);
  }

  lemma MergeListsGroups(w: int, ys: seq<Bar>, x: Bar, kept: seq<Bar>, last: Bar)
    requires w > 0 && IsGroupBy(w, kept + [last], ys) && last.time == Bucket(w, x.time)
    ensures IsGroupBy(w, kept + [Merge(last, x)], ys + [x])
  {
    var bars, r := kept + [last], Merge(last, x);
    assert bars[|kept|] == last && forall i :: 0 <= i < |kept| ==> kept[i] == bars[i];
    assert last in bars && IsRow(w, last, ys);
    BucketsSnoc(w, ys, x);
    GroupRowSnoc(w, ys, x, r.time);
    SortedSnoc(kept, r);
    forall y | y in kept ensures IsRow(w, y, ys + [x]) {
      assert y in bars;
      RowKept(w, ys, x, y);
    }
    assert r in kept + [r] && forall y :: y in kept ==> y in kept + [r];
    AllListed(w, ys, x, bars, kept + [r]);
  }

  lemma RowInTable(w: int, r: Bar, xs: seq<Bar>)
    requires w > 0 && IsRow(w, r, xs)
    ensures r.time in GroupBy(w, xs) && GroupBy(w, xs)[r.time] == r
  {}

  lemma BarsListTheTable(w: int, xs: seq<Bar>)
    requires w > 0 && Sorted(xs)
    ensures Lists(Bars(w, xs), GroupBy(w, xs))
  {
    BarsListGroups(w, xs);
    var rows, t := Bars(w, xs), GroupBy(w, xs);
    forall r | r in rows ensures r.time in t && t[r.time] == r { RowInTable(w, r, xs); }
    forall b | b in t ensures t[b] in rows {
      var r :| r in rows && r.time == b;
    }
  }

  /** A strictly sorted list ends with its latest row. */
  lemma LastIsLatest(c: seq<Bar>, x: Bar)
    requires StrictlySorted(c + [x])
    ensures StrictlySorted(c) && forall z :: z in c ==> z.time < x.time
  {
    var a := c + [x];
    assert a[|c|] == x && forall i :: 0 <= i < |c| ==> a[i] == c[i];
  }

  lemma SameLast(c: seq<Bar>, x: Bar, d: seq<Bar>, y: Bar)
    requires StrictlySorted(c + [x]) && StrictlySorted(d + [y])
    requires forall z :: z in c + [x] <==> z in d + [y]
    ensures x == y && StrictlySorted(c) && StrictlySorted(d) && forall z :: z in c <==> z in d
  {
    LastIsLatest(c, x);
    LastIsLatest(d, y);
    assert x in c + [x] && y in d + [y];
    forall z ensures z in c <==> z in d {
      assert (z in c + [x] <==> z in c || z == x) && (z in d + [y] <==> z in d || z == y);
    }
  }

  lemma {:induction false} SortedListUnique(a: seq<Bar>, b: seq<Bar>)
    requires StrictlySorted(a) && StrictlySorted(b) && forall x :: x in a <==> x in b
    ensures a == b
  {
    assert (a != [] ==> a[0] in a) && (b != [] ==> b[0] in b);
    if a != [] && b != [] {
      var c, d := a[..|a| - 1], b[..|b| - 1];
      assert a == c + [a[|a| - 1]] && b == d + [b[|b| - 1]];
      SameLast(c, a[|a| - 1], d, b[|b| - 1]);
      SortedListUnique(c, d);
    }
  }

  lemma ListingUnique(a: seq<Bar>, b: seq<Bar>, t: map<int, Bar>)
    requires Lists(a, t) && Lists(b, t)
    ensures a == b
  {
    forall x ensures x in a <==> x in b {
      if x in a { assert x == t[x.time]; }
      if x in b { assert x == t[x.time]; }
    }
    SortedListUnique(a, b);
  }

  /**
   * The tower law on tables: grouping the time-ordered rows of the narrow table again gives the
   * wide table of the original rows.
   */
  lemma TowerOfTables(n: int, k: int, xs: seq<Bar>, rows: seq<Bar>)
    requires n > 0 && k > 0 && n * k > 0 && Sorted(xs) && Lists(rows, GroupBy(n, xs))
    ensures GroupBy(n * k, rows) == GroupBy(n * k, xs)
  {
    BarsListTheTable(n, xs);
    ListingUnique(rows, Bars(n, xs), GroupBy(n, xs));
    Tower(n, k, xs);
    SameBarsSameTable(n * k, rows, xs);
  }

  lemma SameBarsSameTable(w: int, rows: seq<Bar>, xs: seq<Bar>)
    requires w > 0 && Sorted(rows) && Sorted(xs) && Bars(w, rows) == Bars(w, xs)
    ensures GroupBy(w, rows) == GroupBy(w, xs)
  {
    BarsListTheTable(w, rows);
    BarsListTheTable(w, xs);
    SameTable(Bars(w, xs), GroupBy(w, rows), GroupBy(w, xs));
  }

  lemma SameTable(list: seq<Bar>, t: map<int, Bar>, u: map<int, Bar>)
    requires Lists(list, t) && Lists(list, u)
    ensures t == u
  {
    forall b | b in t ensures b in u && u[b] == t[b] { assert t[b] in list; }
    forall b | b in u ensures b in t { assert u[b] in list; }
  }
}
