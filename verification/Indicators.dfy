/** What each indicator says of the bars. */
module Indicators {
  import opened Options
  import opened Features

  // ------------------------------------------------------------------------------------------
  // Sums

  lemma {:induction false} SumJoins(a: seq<real>, b: seq<real>)
    ensures Sum(a + b) == Sum(a) + Sum(b)
  {
    if b == [] {
      assert a + b == a;
    } else {
      assert (a + b)[..|a + b| - 1] == a + b[..|b| - 1];
      SumJoins(a, b[..|b| - 1]);
    }
  }

  /** The closes of the bars from `a` up to `b` added up. */
  function CloseSum(bars: seq<Bar>, a: nat, b: nat): real
    requires a <= b <= |bars|
    decreases b - a
  {
    if a == b then 0.0 else bars[a].close + CloseSum(bars, a + 1, b)
  }

  lemma {:induction false} CloseSumIs(bars: seq<Bar>, a: nat, b: nat)
    requires a <= b <= |bars|
    ensures Sum(Closes(bars)[a..b]) == CloseSum(bars, a, b)
    decreases b - a
  {
    if a < b {
      CloseSumIs(bars, a + 1, b);
      assert Closes(bars)[a..b] == [bars[a].close] + Closes(bars)[a + 1..b];
      SumJoins([bars[a].close], Closes(bars)[a + 1..b]);
    }
  }

  /** The mean of the last `n` closes, where there are as many. */
  ghost predicate IsMeanClose(bars: seq<Bar>, n: nat, i: nat, r: Option<real>)
    requires i < |bars|
  {
    if i + 1 < n then r.None? else r.Some? && r.value * n as real == CloseSum(bars, i + 1 - n, i + 1)
  }

  lemma SmaIsMean(bars: seq<Bar>, n: nat, i: nat)
    requires n > 0 && i < |bars|
    ensures IsMeanClose(bars, n, i, SmaAt(Closes(bars), n, i))
  {
    if n <= i + 1 { CloseSumIs(bars, i + 1 - n, i + 1); }
  }

  /** The logarithm of the close over that of `lag` bars before, where both are positive. */
  ghost predicate IsReturn(ln: real -> real, bars: seq<Bar>, lag: nat, i: nat, r: Option<real>)
    requires i < |bars|
  {
    if lag <= i && bars[i].close > 0.0 && bars[i - lag].close > 0.0
    then r == Some(ln(bars[i].close / bars[i - lag].close)) else r.None?
  }

  // ------------------------------------------------------------------------------------------
  // True ranges

  /** The interval holds a day's high, its low and the close before, if there is one. */
  predicate Holds(lo: real, hi: real, h: real, l: real, p: Option<real>) {
    lo <= h <= hi && lo <= l <= hi && (p.Some? ==> lo <= p.value <= hi)
  }

  /** `w` is the width of the smallest interval that does. */
  ghost predicate IsReach(w: real, h: real, l: real, p: Option<real>) {
    && (exists lo, hi :: Holds(lo, hi, h, l, p) && hi - lo == w)
    && (forall lo, hi :: Holds(lo, hi, h, l, p) ==> w <= hi - lo)
  }

  function CloseBefore(closes: seq<real>, i: nat): Option<real>
    requires i <= |closes|
  {
    if i == 0 then None else Some(closes[i - 1])
  }

  /** High and low are the right way round, or the close before does not lie strictly between them. */
  predicate Upright(h: real, l: real, p: Option<real>) {
    l <= h || (p.Some? && (p.value <= h || l <= p.value))
  }

  /** The true range is that width, exactly if the bar is upright. */
  lemma TrueRangeIsReach(highs: seq<real>, lows: seq<real>, closes: seq<real>, i: nat)
    requires |highs| == |lows| == |closes| && i < |highs|
    ensures IsReach(TrueRange(highs, lows, closes, i), highs[i], lows[i], CloseBefore(closes, i))
       <==> Upright(highs[i], lows[i], CloseBefore(closes, i))
  {
    var h, l, p := highs[i], lows[i], CloseBefore(closes, i);
    var lo := if l <= h then l else h;
    var hi := if l <= h then h else l;
    var lo' := if p.Some? && p.value < lo then p.value else lo;
    var hi' := if p.Some? && p.value > hi then p.value else hi;
    assert Holds(lo', hi', h, l, p);
    if Upright(h, l, p) {
      assert hi' - lo' == TrueRange(highs, lows, closes, i);
    }
  }

  // ------------------------------------------------------------------------------------------
  // Wilder averages

  /**
   * What value `j` weighs in the average at `i`: a fourteenth, and 13/14 of that for each step since it
   * came in. The first 14 come in together.
   */
  function Weight(first: nat, i: nat, j: nat): real
    requires first + 13 <= i && first <= j <= i
  {
    Power(13.0 / 14.0, i - (if j < first + 13 then first + 13 else j)) / 14.0
  }

  function Weighted(xs: seq<real>, first: nat, i: nat, n: nat): real
    requires first + 13 <= i < |xs| && first <= n <= i + 1
  {
    if n == first then 0.0 else Weighted(xs, first, i, n - 1) + xs[n - 1] * Weight(first, i, n - 1)
  }

  lemma {:induction false} FirstWeights(xs: seq<real>, first: nat, n: nat)
    requires first + 13 < |xs| && first <= n <= first + 14
    ensures Weighted(xs, first, first + 13, n) == Sum(xs[first..n]) / 14.0
  {
    if n == first {
      assert xs[first..n] == [];
    } else {
      FirstWeights(xs, first, n - 1);
      assert xs[first..n][..n - 1 - first] == xs[first..n - 1];
      assert Weight(first, first + 13, n - 1) == 1.0 / 14.0;
    }
  }

  lemma {:induction false} WeightsFade(xs: seq<real>, first: nat, i: nat, n: nat)
    requires first + 13 < i < |xs| && first <= n <= i
    ensures Weighted(xs, first, i, n) == Weighted(xs, first, i - 1, n) * 13.0 / 14.0
  {
    if n > first {
      WeightsFade(xs, first, i, n - 1);
      FadedStep(xs[n - 1], Weight(first, i - 1, n - 1), Weight(first, i, n - 1));
    }
  }

  lemma FadedStep(x: real, w: real, w': real)
    requires w' == 13.0 / 14.0 * w
    ensures x * w' == x * w * 13.0 / 14.0
  {}

  /** The smoothed value is the weighted sum of all values from `first` on. */
  lemma {:induction false} WilderIsWeighted(xs: seq<real>, first: nat, i: nat)
    requires first + 13 <= i < |xs|
    ensures WilderAt(xs, first, i) == Weighted(xs, first, i, i + 1)
    decreases i
  {
    if i == first + 13 {
      FirstWeights(xs, first, first + 14);
    } else {
      WilderIsWeighted(xs, first, i - 1);
      WeightsFade(xs, first, i, i);
      assert Weight(first, i, i) == 1.0 / 14.0;
    }
  }

  // ------------------------------------------------------------------------------------------
  // The deviation of the daily returns

  /** How far the values lie from `m`, added up. */
  function Offsets(xs: seq<real>, m: real): real { if xs == [] then 0.0 else xs[0] - m + Offsets(xs[1..], m) }

  function OffsetsSquared(xs: seq<real>, m: real): real {
    if xs == [] then 0.0 else (xs[0] - m) * (xs[0] - m) + OffsetsSquared(xs[1..], m)
  }

  lemma {:induction false} OffsetsAre(xs: seq<real>, m: real)
    ensures Offsets(xs, m) == Sum(xs) - |xs| as real * m
  {
    if xs != [] {
      OffsetsAre(xs[1..], m);
      assert xs == [xs[0]] + xs[1..] && [xs[0]][..0] == [];
      SumJoins([xs[0]], xs[1..]);
      OneMore(|xs[1..]| as real, m);
    }
  }

  lemma OneMore(n: real, m: real)
    ensures (n + 1.0) * m == n * m + m
  {}

  lemma {:induction false} DeviationsJoin(a: seq<real>, b: seq<real>, c: real)
    ensures SquaredDeviations(a + b, c) == SquaredDeviations(a, c) + SquaredDeviations(b, c)
  {
    if b == [] {
      assert a + b == a;
    } else {
      assert (a + b)[..|a + b| - 1] == a + b[..|b| - 1];
      DeviationsJoin(a, b[..|b| - 1], c);
    }
  }

  lemma {:induction false} OffsetsSquaredAre(xs: seq<real>, m: real)
    ensures OffsetsSquared(xs, m) == SquaredDeviations(xs, m)
  {
    if xs != [] {
      OffsetsSquaredAre(xs[1..], m);
      assert xs == [xs[0]] + xs[1..] && [xs[0]][..0] == [];
      DeviationsJoin([xs[0]], xs[1..], m);
    }
  }

  /** `v` is the sample variance: taken from the point from which the values' offsets cancel out. */
  ghost predicate IsVariance(xs: seq<real>, v: real) {
    |xs| > 1 && exists m :: Offsets(xs, m) == 0.0 && OffsetsSquared(xs, m) == v * (|xs| - 1) as real
  }

  lemma VarianceIs(xs: seq<real>)
    requires |xs| > 1
    ensures IsVariance(xs, Variance(xs))
  {
    var n, m := |xs| as real, Sum(xs) / |xs| as real;
    OffsetsAre(xs, m);
    OffsetsSquaredAre(xs, m);
    Quotient(Sum(xs), n);
    Quotient(SquaredDeviations(xs, m), (|xs| - 1) as real);
    assert Offsets(xs, m) == 0.0;
  }

  lemma Quotient(x: real, n: real)
    requires n != 0.0
    ensures x / n * n == x && n * (x / n) == x
  {}

  /** The daily returns that exist, of the bars from `a` up to `b`. */
  function DailyReturns(ln: real -> real, bars: seq<Bar>, a: nat, b: nat): seq<real>
    requires a <= b <= |bars|
    decreases b - a
  {
    if a == b then []
    else
      (if a > 0 && bars[a].close > 0.0 && bars[a - 1].close > 0.0 then [ln(bars[a].close / bars[a - 1].close)] else [])
      + DailyReturns(ln, bars, a + 1, b)
  }

  lemma {:induction false} PresentJoins(a: seq<Option<real>>, b: seq<Option<real>>)
    ensures Present(a + b) == Present(a) + Present(b)
  {
    if b == [] {
      assert a + b == a;
    } else {
      assert (a + b)[..|a + b| - 1] == a + b[..|b| - 1];
      PresentJoins(a, b[..|b| - 1]);
    }
  }

  lemma {:induction false} PresentReturns(ln: real -> real, bars: seq<Bar>, rs: seq<Option<real>>, a: nat, b: nat)
    requires a <= b <= |bars| == |rs| && forall k :: 0 <= k < |bars| ==> IsReturn(ln, bars, 1, k, rs[k])
    ensures Present(rs[a..b]) == DailyReturns(ln, bars, a, b)
    decreases b - a
  {
    if a < b {
      PresentReturns(ln, bars, rs, a + 1, b);
      assert rs[a..b] == [rs[a]] + rs[a + 1..b];
      PresentJoins([rs[a]], rs[a + 1..b]);
      PresentOne(rs[a]);
      assert IsReturn(ln, bars, 1, a, rs[a]);
    }
  }

  lemma PresentOne(r: Option<real>)
    ensures Present([r]) == if r.Some? then [r.value] else []
  {
    assert [r][..0] == [];
  }

  /** The deviation of the returns of the last `n` bars, where at least half of them exist. */
  ghost predicate IsDeviation(ln: real -> real, root: real -> real, bars: seq<Bar>, n: nat, i: nat, r: Option<real>)
    requires i < |bars|
  {
    if i + 1 < n then r.None?
    else
      var xs := DailyReturns(ln, bars, i + 1 - n, i + 1);
      if |xs| < n / 2 then r.None? else r.Some? && exists v :: IsVariance(xs, v) && r.value == root(v)
  }

  lemma StdIsDeviation(ln: real -> real, root: real -> real, bars: seq<Bar>, n: nat, i: nat)
    requires n > 3 && i < |bars|
    ensures IsDeviation(ln, root, bars, n, i, StdAt(root, Returns(ln, Closes(bars), 1), n, i))
  {
    if n <= i + 1 {
      PresentReturns(ln, bars, Returns(ln, Closes(bars), 1), i + 1 - n, i + 1);
      var xs := DailyReturns(ln, bars, i + 1 - n, i + 1);
      if |xs| >= n / 2 { VarianceIs(xs); }
    }
  }

  // ------------------------------------------------------------------------------------------
  // The relative volume

  function Below(xs: seq<real>, v: real): nat {
    if xs == [] then 0 else (if xs[0] < v then 1 else 0) + Below(xs[1..], v)
  }

  function Above(xs: seq<real>, v: real): nat {
    if xs == [] then 0 else (if xs[0] > v then 1 else 0) + Above(xs[1..], v)
  }

  /** `v` is one of the values, at most `k` are less and at most all but `k + 1` are greater. */
  ghost predicate HasRank(xs: seq<real>, k: nat, v: real) {
    v in xs && Below(xs, v) <= k && Above(xs, v) + k < |xs|
  }

  /** The two values in the middle of an even number. */
  ghost predicate AreMiddle(xs: seq<real>, a: real, b: real) {
    |xs| > 1 && HasRank(xs, |xs| / 2 - 1, a) && HasRank(xs, |xs| / 2, b)
  }

  ghost predicate IsMedian(xs: seq<real>, m: real) {
    if |xs| % 2 == 1 then HasRank(xs, |xs| / 2, m) else exists a, b :: AreMiddle(xs, a, b) && a + b == 2.0 * m
  }

  lemma {:induction false} InsertCounts(x: real, xs: seq<real>, v: real)
    ensures Below(Insert(x, xs), v) == Below([x] + xs, v) && Above(Insert(x, xs), v) == Above([x] + xs, v)
  {
    assert ([x] + xs)[1..] == xs;
    if xs != [] && x > xs[0] {
      InsertCounts(x, xs[1..], v);
      assert ([x] + xs[1..])[1..] == xs[1..];
      assert ([xs[0]] + Insert(x, xs[1..]))[1..] == Insert(x, xs[1..]);
    }
  }

  lemma {:induction false} SortCounts(xs: seq<real>, v: real)
    ensures Below(Sort(xs), v) == Below(xs, v) && Above(Sort(xs), v) == Above(xs, v)
  {
    if xs != [] {
      SortCounts(xs[1..], v);
      InsertCounts(xs[0], Sort(xs[1..]), v);
      assert ([xs[0]] + Sort(xs[1..]))[1..] == Sort(xs[1..]);
    }
  }

  lemma {:induction false} BelowAtMost(xs: seq<real>, v: real, k: nat)
    requires k <= |xs| && forall j :: k <= j < |xs| ==> xs[j] >= v
    ensures Below(xs, v) <= k
  {
    if xs != [] { BelowAtMost(xs[1..], v, if k == 0 then 0 else k - 1); }
  }

  lemma {:induction false} AboveAtMost(xs: seq<real>, v: real, k: nat)
    requires k <= |xs| && forall j :: 0 <= j < k ==> xs[j] <= v
    ensures Above(xs, v) + k <= |xs|
  {
    if xs != [] { AboveAtMost(xs[1..], v, if k == 0 then 0 else k - 1); }
  }

  lemma SortedHasRank(xs: seq<real>, k: nat)
    requires k < |xs|
    ensures HasRank(xs, k, Sort(xs)[k])
  {
    SortIsSorted(xs);
    SortCounts(xs, Sort(xs)[k]);
    AscendingHasRank(Sort(xs), k);
    assert Sort(xs)[k] in multiset(Sort(xs));
  }

  lemma AscendingHasRank(s: seq<real>, k: nat)
    requires Ascending(s) && k < |s|
    ensures HasRank(s, k, s[k])
  {
    BelowAtMost(s, s[k], k);
    AboveAtMost(s, s[k], k + 1);
  }

  lemma MedianIs(xs: seq<real>)
    requires xs != []
    ensures IsMedian(xs, Median(xs))
  {
    SortedHasRank(xs, |xs| / 2);
    if |xs| % 2 == 0 {
      SortedHasRank(xs, |xs| / 2 - 1);
      assert AreMiddle(xs, Sort(xs)[|xs| / 2 - 1], Sort(xs)[|xs| / 2]);
    }
  }

  function LastVolumes(bars: seq<Bar>, n: nat, i: nat): seq<real>
    requires n <= i + 1 <= |bars|
  {
    seq(n, k requires 0 <= k < n => bars[i + 1 - n + k].volume)
  }

  /** `r` is `x` over `m`, where `m` is positive. */
  predicate IsOver(r: Option<real>, x: real, m: real) { if m > 0.0 then r.Some? && r.value * m == x else r.None? }

  /** The volume over the median of the last `n` volumes. */
  ghost predicate IsRelativeVolume(bars: seq<Bar>, n: nat, i: nat, r: Option<real>)
    requires i < |bars|
  {
    if i + 1 < n then r.None? else exists m :: IsMedian(LastVolumes(bars, n, i), m) && IsOver(r, bars[i].volume, m)
  }

  lemma RatioIsOver(x: real, m: real)
    ensures IsOver(Ratio(x, m), x, m)
  {}

  lemma VolumeRelIs(bars: seq<Bar>, n: nat, i: nat)
    requires n > 0 && i < |bars|
    ensures IsRelativeVolume(bars, n, i, VolumeRelAt(Volumes(bars), n, i))
  {
    if n <= i + 1 {
      var xs := LastVolumes(bars, n, i);
      assert Volumes(bars)[i + 1 - n..i + 1] == xs;
      MedianIs(xs);
      RatioIsOver(bars[i].volume, Median(xs));
    }
  }

  // ------------------------------------------------------------------------------------------
  // ATR and RSI

  /** The average, with Wilder's weights, of the days' reaches. */
  ghost predicate IsAtr(bars: seq<Bar>, i: nat, r: Option<real>)
    requires i < |bars|
  {
    if i < 13 then r.None?
    else
      exists ws: seq<real> :: |ws| == |bars| && Reaches(bars, ws, i) && r == Some(Weighted(ws, 0, i, i + 1))
  }

  ghost predicate Reaches(bars: seq<Bar>, ws: seq<real>, i: nat)
    requires i < |bars| == |ws|
  {
    forall k: nat :: k <= i ==> IsReach(ws[k], bars[k].high, bars[k].low, CloseBefore(Closes(bars), k))
  }

  /** All bars up to `i` are upright. */
  ghost predicate AllUpright(bars: seq<Bar>, i: nat)
    requires i < |bars|
  {
    forall k: nat :: k <= i ==> Upright(bars[k].high, bars[k].low, CloseBefore(Closes(bars), k))
  }

  lemma AtrIs(bars: seq<Bar>, i: nat)
    requires i < |bars| && AllUpright(bars, i)
    ensures IsAtr(bars, i, AtrAt(Highs(bars), Lows(bars), Closes(bars), i))
  {
    var ws := TrueRanges(Highs(bars), Lows(bars), Closes(bars));
    forall k: nat | k <= i ensures IsReach(ws[k], bars[k].high, bars[k].low, CloseBefore(Closes(bars), k)) {
      TrueRangeIsReach(Highs(bars), Lows(bars), Closes(bars), k);
    }
    if i >= 13 { WilderIsWeighted(ws, 0, i); }
  }

  /** What was gained and what was lost from each close to the next. */
  ghost predicate AreMoves(bars: seq<Bar>, gains: seq<real>, losses: seq<real>) {
    && |gains| == |losses| == |bars|
    && (forall k :: 0 < k < |bars| ==> gains[k] - losses[k] == bars[k].close - bars[k - 1].close)
    && (forall k :: 0 < k < |bars| ==> gains[k] >= 0.0 && losses[k] >= 0.0 && (gains[k] == 0.0 || losses[k] == 0.0))
  }

  /** `r` percent of `g` and `l` together is `g`; all of nothing is 100 percent. */
  predicate IsShare(r: real, g: real, l: real) { if g + l > 0.0 then r * (g + l) == 100.0 * g else r == 100.0 }

  ghost predicate IsRsi(bars: seq<Bar>, i: nat, r: Option<real>)
    requires i < |bars|
  {
    if i < 14 then r.None?
    else
      exists gains, losses :: AreMoves(bars, gains, losses)
        && r.Some? && IsShare(r.value, Weighted(gains, 1, i, i + 1), Weighted(losses, 1, i, i + 1))
  }

  lemma RsiIs(bars: seq<Bar>, i: nat)
    requires i < |bars|
    ensures IsRsi(bars, i, RsiAt(Closes(bars), i))
  {
    if i >= 14 {
      var gains, losses := Gains(Closes(bars)), Losses(Closes(bars));
      assert AreMoves(bars, gains, losses);
      NotNegative(gains, 1, i);
      NotNegative(losses, 1, i);
      WilderIsWeighted(gains, 1, i);
      WilderIsWeighted(losses, 1, i);
      ShareIs(WilderAt(gains, 1, i), WilderAt(losses, 1, i));
    }
  }

  lemma ShareIs(g: real, l: real)
    requires g >= 0.0 && l >= 0.0
    ensures IsShare(RsiOf(g, l), g, l)
  {
    RsiIsGainShare(g, l);
  }

  // ------------------------------------------------------------------------------------------
  // The table

  ghost predicate ReadsPrices(ln: real -> real, root: real -> real, bars: seq<Bar>, i: nat, row: Row)
    requires i < |bars|
  {
    && row.day == bars[i].day && row.close == bars[i].close && row.source == bars[i].source
    && IsReturn(ln, bars, 1, i, row.r1) && IsReturn(ln, bars, 5, i, row.r5) && IsReturn(ln, bars, 21, i, row.r21)
    && IsDeviation(ln, root, bars, 21, i, row.vol21)
  }

  ghost predicate ReadsAverages(bars: seq<Bar>, i: nat, row: Row)
    requires i < |bars|
  {
    && IsRelativeVolume(bars, 20, i, row.volRel20)
    && IsMeanClose(bars, 50, i, row.sma50) && IsMeanClose(bars, 200, i, row.sma200)
    && IsRsi(bars, i, row.rsi14)
    && (AllUpright(bars, i) ==> IsAtr(bars, i, row.atr14))
  }

  /** Every row of the table says of the bars what its columns are for. */
  lemma RowsRead(ln: real -> real, root: real -> real, bars: seq<Bar>, i: nat)
    requires i < |bars|
    ensures ReadsPrices(ln, root, bars, i, RowAt(ln, root, bars, i))
    ensures ReadsAverages(bars, i, RowAt(ln, root, bars, i))
  {
    PricesRead(ln, root, bars, i);
    AveragesRead(ln, root, bars, i);
  }

  lemma PricesRead(ln: real -> real, root: real -> real, bars: seq<Bar>, i: nat)
    requires i < |bars|
    ensures ReadsPrices(ln, root, bars, i, RowAt(ln, root, bars, i))
  {
    StdIsDeviation(ln, root, bars, 21, i);
  }

  lemma AveragesRead(ln: real -> real, root: real -> real, bars: seq<Bar>, i: nat)
    requires i < |bars|
    ensures ReadsAverages(bars, i, RowAt(ln, root, bars, i))
  {
    SmaIsMean(bars, 50, i);
    SmaIsMean(bars, 200, i);
    VolumeRelIs(bars, 20, i);
    RsiIs(bars, i);
    if AllUpright(bars, i) { AtrIs(bars, i); }
  }
}
