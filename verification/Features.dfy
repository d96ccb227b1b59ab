/** The daily technical indicators, over exact real arithmetic. */
module Features {
  import opened Options

  datatype Bar = Bar(day: int, close: real, high: real, low: real, volume: real, source: string)

  function Max(x: real, y: real): real { if x >= y then x else y }

  function Abs(x: real): real { if x >= 0.0 then x else -x }

  function Sum(xs: seq<real>): real {
    if xs == [] then 0.0 else Sum(xs[..|xs| - 1]) + xs[|xs| - 1]
  }

  // ------------------------------------------------------------------------------------------
  // Each indicator at one position

  function SmaAt(values: seq<real>, window: nat, i: nat): Option<real>
    requires window > 0 && i < |values|
  {
    if i + 1 < window then None else Some(Sum(values[i + 1 - window..i + 1]) / window as real)
  }

  /** `ln` stands for the natural logarithm. */
  function LogReturn(ln: real -> real, now: real, before: real): Option<real> {
    if before <= 0.0 || now <= 0.0 then None else Some(ln(now / before))
  }

  function ReturnAt(ln: real -> real, closes: seq<real>, lag: nat, i: nat): Option<real>
    requires i < |closes|
  {
    if i < lag then None else LogReturn(ln, closes[i], closes[i - lag])
  }

  function Present(xs: seq<Option<real>>): seq<real> {
    if xs == [] then []
    else Present(xs[..|xs| - 1]) + match xs[|xs| - 1] case None => [] case Some(v) => [v]
  }

  function SquaredDeviations(xs: seq<real>, mean: real): real {
    if xs == [] then 0.0
    else SquaredDeviations(xs[..|xs| - 1], mean) + (xs[|xs| - 1] - mean) * (xs[|xs| - 1] - mean)
  }

  /** The sample variance, 0 for a single value. */
  function Variance(xs: seq<real>): real
    requires xs != []
  {
    if |xs| > 1 then SquaredDeviations(xs, Sum(xs) / |xs| as real) / (|xs| - 1) as real else 0.0
  }

  /** `root` stands for the square root. A window with too few values gives nothing. */
  function StdAt(root: real -> real, values: seq<Option<real>>, window: nat, i: nat): Option<real>
    requires window > 1 && i < |values|
  {
    if i + 1 < window then None
    else
      var clean := Present(values[i + 1 - window..i + 1]);
      if |clean| < window / 2 then None else Some(root(Variance(clean)))
  }

  function TrueRange(highs: seq<real>, lows: seq<real>, closes: seq<real>, i: nat): real
    requires |highs| == |lows| == |closes| && i < |highs|
  {
    if i == 0 then highs[0] - lows[0]
    else Max(Max(highs[i] - lows[i], Abs(highs[i] - closes[i - 1])), Abs(lows[i] - closes[i - 1]))
  }

  function TrueRanges(highs: seq<real>, lows: seq<real>, closes: seq<real>): seq<real>
    requires |highs| == |lows| == |closes|
  {
    seq(|highs|, i requires 0 <= i < |highs| => TrueRange(highs, lows, closes, i))
  }

  /** One step of Wilder's smoothing over 14 values. */
  function Wilder(prev: real, x: real): real { x / 14.0 + prev * 13.0 / 14.0 }

  /** Smoothing on from `seed`. */
  function Smooth(seed: real, xs: seq<real>): real {
    if xs == [] then seed else Wilder(Smooth(seed, xs[..|xs| - 1]), xs[|xs| - 1])
  }

  /** The smoothed value at `i` of a series whose first average is over the 14 values from `first` on. */
  function WilderAt(xs: seq<real>, first: nat, i: nat): real
    requires first + 13 <= i < |xs|
  {
    if i == first + 13 then Sum(xs[first..first + 14]) / 14.0 else Wilder(WilderAt(xs, first, i - 1), xs[i])
  }

  function AtrAt(highs: seq<real>, lows: seq<real>, closes: seq<real>, i: nat): Option<real>
    requires |highs| == |lows| == |closes| && i < |highs|
  {
    if i < 13 then None else Some(WilderAt(TrueRanges(highs, lows, closes), 0, i))
  }

  function Gain(closes: seq<real>, i: nat): real
    requires i < |closes|
  {
    if i == 0 then 0.0 else Max(closes[i] - closes[i - 1], 0.0)
  }

  function Loss(closes: seq<real>, i: nat): real
    requires i < |closes|
  {
    if i == 0 then 0.0 else Max(-(closes[i] - closes[i - 1]), 0.0)
  }

  function Gains(closes: seq<real>): seq<real>
  {
    seq(|closes|, i requires 0 <= i < |closes| => Gain(closes, i))
  }

  function Losses(closes: seq<real>): seq<real>
  {
    seq(|closes|, i requires 0 <= i < |closes| => Loss(closes, i))
  }

  function RsiOf(avgGain: real, avgLoss: real): real
    requires avgGain >= 0.0 && avgLoss >= 0.0
  {
    if avgLoss > 0.0 then 100.0 - 100.0 / (1.0 + avgGain / avgLoss) else 100.0
  }

  function RsiAt(closes: seq<real>, i: nat): Option<real>
    requires i < |closes|
  {
    if i < 14 then None
    else
      NotNegative(Gains(closes), 1, i);
      NotNegative(Losses(closes), 1, i);
      Some(RsiOf(WilderAt(Gains(closes), 1, i), WilderAt(Losses(closes), 1, i)))
  }

  function Insert(x: real, xs: seq<real>): seq<real> {
    if xs == [] || x <= xs[0] then [x] + xs else [xs[0]] + Insert(x, xs[1..])
  }

  function Sort(xs: seq<real>): (r: seq<real>)
    ensures |r| == |xs|
  {
    if xs == [] then [] else InsertLength(xs[0], Sort(xs[1..])); Insert(xs[0], Sort(xs[1..]))
  }

  function Median(xs: seq<real>): real
    requires xs != []
  {
    var s, n := Sort(xs), |xs|;
    if n % 2 == 1 then s[n / 2] else (s[n / 2 - 1] + s[n / 2]) / 2.0
  }

  function VolumeRelAt(volumes: seq<real>, window: nat, i: nat): Option<real>
    requires window > 0 && i < |volumes|
  {
    if i + 1 < window then None
    else
      Ratio(volumes[i], Median(volumes[i + 1 - window..i + 1]))
  }

  function Ratio(x: real, mid: real): Option<real> { if mid <= 0.0 then None else Some(x / mid) }

  lemma InsertLength(x: real, xs: seq<real>)
    ensures |Insert(x, xs)| == |xs| + 1
  {}

  // ------------------------------------------------------------------------------------------
  // Wilder smoothing

  lemma {:induction false} SumNotNegative(xs: seq<real>)
    requires forall i :: 0 <= i < |xs| ==> xs[i] >= 0.0
    ensures Sum(xs) >= 0.0
  {
    if xs != [] { SumNotNegative(xs[..|xs| - 1]); }
  }

  lemma {:induction false} NotNegative(xs: seq<real>, first: nat, i: nat)
    requires first + 13 <= i < |xs| && forall k :: 0 <= k < |xs| ==> xs[k] >= 0.0
    ensures WilderAt(xs, first, i) >= 0.0
    decreases i
  {
    if i == first + 13 { SumNotNegative(xs[first..first + 14]); } else { NotNegative(xs, first, i - 1); }
  }

  lemma {:induction false} SumBounded(xs: seq<real>, lo: real, hi: real)
    requires forall i :: 0 <= i < |xs| ==> lo <= xs[i] <= hi
    ensures lo * |xs| as real <= Sum(xs) <= hi * |xs| as real
  {
    if xs != [] {
      SumBounded(xs[..|xs| - 1], lo, hi);
      assert |xs| as real == (|xs| - 1) as real + 1.0;
    }
  }

  /** The smoothed value stays between the least and the greatest value it has been fed. */
  lemma {:induction false} WilderBounded(xs: seq<real>, first: nat, i: nat, lo: real, hi: real)
    requires first + 13 <= i < |xs| && forall k :: first <= k <= i ==> lo <= xs[k] <= hi
    ensures lo <= WilderAt(xs, first, i) <= hi
    decreases i
  {
    if i == first + 13 {
      SumBounded(xs[first..first + 14], lo, hi);
    } else {
      WilderBounded(xs, first, i - 1, lo, hi);
    }
  }

  /** What is left of a difference after `k` steps: 13/14 of it for each step. */
  function Faded(k: nat, d: real): real { if k == 0 then d else Faded(k - 1, d) * 13.0 / 14.0 }

  function Power(x: real, k: nat): real { if k == 0 then 1.0 else x * Power(x, k - 1) }

  /** That is, (13/14)^k of it. */
  lemma {:induction false} FadedIsPower(k: nat, d: real)
    ensures Faded(k, d) == Power(13.0 / 14.0, k) * d
  {
    if k > 0 {
      FadedIsPower(k - 1, d);
      var p := Power(13.0 / 14.0, k - 1);
      assert p * d * 13.0 / 14.0 == 13.0 / 14.0 * p * d;
    }
  }

  lemma {:induction false} SmoothForgets(a: real, b: real, xs: seq<real>)
    ensures Smooth(a, xs) - Smooth(b, xs) == Faded(|xs|, a - b)
  {
    if xs != [] { SmoothForgets(a, b, xs[..|xs| - 1]); }
  }

  lemma {:induction false} WilderIsSmooth(xs: seq<real>, first: nat, i: nat, k: nat)
    requires first + 13 <= i && i + k < |xs|
    ensures WilderAt(xs, first, i + k) == Smooth(WilderAt(xs, first, i), xs[i + 1..i + 1 + k])
    decreases k
  {
    if k > 0 {
      WilderIsSmooth(xs, first, i, k - 1);
      assert xs[i + 1..i + 1 + k][..k - 1] == xs[i + 1..i + k];
    } else {
      assert xs[i + 1..i + 1] == [];
    }
  }

  /**
   * Two smoothed series fed the same `k` values from positions `i` and `j` on differ afterwards by
   * exactly (13/14)^k times their difference before.
   */
  lemma WilderForgets(xs: seq<real>, first: nat, i: nat, ys: seq<real>, first': nat, j: nat, k: nat)
    requires first + 13 <= i && i + k < |xs| && first' + 13 <= j && j + k < |ys|
    requires xs[i + 1..i + 1 + k] == ys[j + 1..j + 1 + k]
    ensures WilderAt(xs, first, i + k) - WilderAt(ys, first', j + k)
         == Faded(k, WilderAt(xs, first, i) - WilderAt(ys, first', j))
  {
    WilderIsSmooth(xs, first, i, k);
    WilderIsSmooth(ys, first', j, k);
    SmoothForgets(WilderAt(xs, first, i), WilderAt(ys, first', j), xs[i + 1..i + 1 + k]);
  }

  // ------------------------------------------------------------------------------------------
  // What a window of bars knows of the whole series

  /**
   * The ATR of a run that loads only the bars from `m` on, against that of a run over all bars:
   * `k` bars after the window's first value they still differ by (13/14)^k of the first difference.
   */
  lemma AtrForgetsItsSeed(highs: seq<real>, lows: seq<real>, closes: seq<real>, m: nat, k: nat)
    requires |highs| == |lows| == |closes| && m + 13 + k < |highs|
    ensures AtrAt(highs[m..], lows[m..], closes[m..], 13 + k).value - AtrAt(highs, lows, closes, m + 13 + k).value
         == Faded(k, AtrAt(highs[m..], lows[m..], closes[m..], 13).value - AtrAt(highs, lows, closes, m + 13).value)
  {
    var full, late := TrueRanges(highs, lows, closes), TrueRanges(highs[m..], lows[m..], closes[m..]);
    WilderForgets(late, 0, 13, full, 0, m + 13, k);
    AtrIsWilder(highs, lows, closes, m + 13 + k);
    AtrIsWilder(highs, lows, closes, m + 13);
    AtrIsWilder(highs[m..], lows[m..], closes[m..], 13 + k);
    AtrIsWilder(highs[m..], lows[m..], closes[m..], 13);
  }

  lemma AtrIsWilder(highs: seq<real>, lows: seq<real>, closes: seq<real>, i: nat)
    requires |highs| == |lows| == |closes| && 13 <= i < |highs|
    ensures AtrAt(highs, lows, closes, i) == Some(WilderAt(TrueRanges(highs, lows, closes), 0, i))
  {}

  /** Likewise for the average gain behind the RSI, */
  lemma AverageGainForgetsItsSeed(closes: seq<real>, m: nat, k: nat)
    requires m + 14 + k < |closes|
    ensures WilderAt(Gains(closes[m..]), 1, 14 + k) - WilderAt(Gains(closes), 1, m + 14 + k)
         == Faded(k, WilderAt(Gains(closes[m..]), 1, 14) - WilderAt(Gains(closes), 1, m + 14))
  {
    WilderForgets(Gains(closes[m..]), 1, 14, Gains(closes), 1, m + 14, k);
  }

  /** and for the average loss. */
  lemma AverageLossForgetsItsSeed(closes: seq<real>, m: nat, k: nat)
    requires m + 14 + k < |closes|
    ensures WilderAt(Losses(closes[m..]), 1, 14 + k) - WilderAt(Losses(closes), 1, m + 14 + k)
         == Faded(k, WilderAt(Losses(closes[m..]), 1, 14) - WilderAt(Losses(closes), 1, m + 14))
  {
    WilderForgets(Losses(closes[m..]), 1, 14, Losses(closes), 1, m + 14, k);
  }

  /** The ATR lies between the least and the greatest true range seen so far. */
  lemma AtrBetweenTrueRanges(highs: seq<real>, lows: seq<real>, closes: seq<real>, i: nat, lo: real, hi: real)
    requires |highs| == |lows| == |closes| && 13 <= i < |highs|
    requires forall k :: 0 <= k <= i ==> lo <= TrueRange(highs, lows, closes, k) <= hi
    ensures AtrAt(highs, lows, closes, i).Some? && lo <= AtrAt(highs, lows, closes, i).value <= hi
  {
    WilderBounded(TrueRanges(highs, lows, closes), 0, i, lo, hi);
  }

  // ------------------------------------------------------------------------------------------
  // Symmetries

  function Times(c: real, x: real): real { c * x }

  function Scaled(xs: seq<real>, c: real): (r: seq<real>)
    ensures |r| == |xs| && IsScaled(r, xs, c)
  {
    seq(|xs|, i requires 0 <= i < |xs| => Times(c, xs[i]))
  }

  predicate IsScaled(ys: seq<real>, xs: seq<real>, c: real) {
    |ys| == |xs| && forall k :: 0 <= k < |xs| ==> ys[k] == Times(c, xs[k])
  }

  function Shifted(xs: seq<real>, c: real): seq<real> {
    seq(|xs|, i requires 0 <= i < |xs| => xs[i] + c)
  }

  lemma {:induction false} SumScales(ys: seq<real>, xs: seq<real>, c: real)
    requires IsScaled(ys, xs, c)
    ensures Sum(ys) == Times(c, Sum(xs))
  {
    if xs != [] {
      SumScales(ys[..|ys| - 1], xs[..|xs| - 1], c);
      assert ys[|ys| - 1] == Times(c, xs[|xs| - 1]);
    }
  }

  lemma {:induction false} WilderScales(ys: seq<real>, xs: seq<real>, first: nat, i: nat, c: real)
    requires first + 13 <= i < |xs| && IsScaled(ys, xs, c)
    ensures WilderAt(ys, first, i) == Times(c, WilderAt(xs, first, i))
    decreases i
  {
    if i == first + 13 {
      SumScales(ys[first..first + 14], xs[first..first + 14], c);
    } else {
      WilderScales(ys, xs, first, i - 1, c);
      WilderStepScales(WilderAt(xs, first, i - 1), xs[i], c);
    }
  }

  lemma WilderStepScales(w: real, x: real, c: real)
    ensures Wilder(Times(c, w), Times(c, x)) == Times(c, Wilder(w, x))
  {}

  lemma DifferenceScales(c: real, x: real, y: real)
    ensures Times(c, x) - Times(c, y) == Times(c, x - y)
  {}

  lemma SignScales(c: real, x: real)
    requires c >= 0.0
    ensures (x >= 0.0 ==> Times(c, x) >= 0.0) && (x <= 0.0 ==> Times(c, x) <= 0.0)
  {}

  lemma ScaledDifference(c: real, x: real, y: real)
    requires c >= 0.0
    ensures Times(c, x) - Times(c, y) == Times(c, x - y)
    ensures Abs(Times(c, x) - Times(c, y)) == Times(c, Abs(x - y))
    ensures Max(Times(c, x), Times(c, y)) == Times(c, Max(x, y))
  {
    DifferenceScales(c, x, y);
    DifferenceScales(c, y, x);
    SignScales(c, x - y);
  }

  /** The largest of the three distances that make a true range. */
  function Spread(h: real, l: real, p: real): real { Max(Max(h - l, Abs(h - p)), Abs(l - p)) }

  lemma SpreadScales(h: real, l: real, p: real, c: real)
    requires c >= 0.0
    ensures Spread(Times(c, h), Times(c, l), Times(c, p)) == Times(c, Spread(h, l, p))
  {
    ScaledDifference(c, h, l);
    ScaledDifference(c, h, p);
    ScaledDifference(c, l, p);
    MaxScales(c, h - l, Abs(h - p), Abs(l - p));
  }

  lemma MaxScales(c: real, x: real, y: real, z: real)
    requires c >= 0.0
    ensures Max(Max(Times(c, x), Times(c, y)), Times(c, z)) == Times(c, Max(Max(x, y), z))
  {
    ScaledDifference(c, x, y);
    ScaledDifference(c, Max(x, y), z);
  }

  lemma TrueRangeScales(highs: seq<real>, lows: seq<real>, closes: seq<real>, c: real, i: nat)
    requires |highs| == |lows| == |closes| && i < |highs| && c >= 0.0
    ensures TrueRange(Scaled(highs, c), Scaled(lows, c), Scaled(closes, c), i)
         == Times(c, TrueRange(highs, lows, closes, i))
  {
    if i == 0 {
      ScaledDifference(c, highs[0], lows[0]);
    } else {
      SpreadScales(highs[i], lows[i], closes[i - 1], c);
    }
  }

  /** The ATR scales with the prices. */
  lemma AtrScales(highs: seq<real>, lows: seq<real>, closes: seq<real>, c: real, i: nat)
    requires |highs| == |lows| == |closes| && 13 <= i < |highs| && c >= 0.0
    ensures AtrAt(Scaled(highs, c), Scaled(lows, c), Scaled(closes, c), i).value
         == Times(c, AtrAt(highs, lows, closes, i).value)
  {
    var xs, ys := TrueRanges(highs, lows, closes), TrueRanges(Scaled(highs, c), Scaled(lows, c), Scaled(closes, c));
    forall k | 0 <= k < |xs| ensures ys[k] == Times(c, xs[k]) {
      TrueRangeScales(highs, lows, closes, c, k);
    }
    WilderScales(ys, xs, 0, i, c);
  }

  /** The moving average is linear: it scales with any factor. */
  lemma SmaScales(values: seq<real>, window: nat, c: real, i: nat)
    requires window > 0 && window <= i + 1 <= |values|
    ensures SmaAt(Scaled(values, c), window, i).value == Times(c, SmaAt(values, window, i).value)
  {
    var a, b := i + 1 - window, i + 1;
    var xs, ys := values[a..b], Scaled(values, c)[a..b];
    assert IsScaled(ys, xs, c);
    SumScales(ys, xs, c);
    DivScales(c, Sum(xs), window as real);
  }

  lemma DivScales(c: real, x: real, n: real)
    requires n != 0.0
    ensures Times(c, x) / n == Times(c, x / n)
  {
    var q := x / n;
    assert q * n == x;
    assert Times(c, x) == (c * q) * n;
  }

  ghost predicate Ascending(xs: seq<real>) { forall i, j :: 0 <= i < j < |xs| ==> xs[i] <= xs[j] }

  lemma AscendingCons(x: real, xs: seq<real>)
    requires Ascending(xs) && forall y :: y in xs ==> x <= y
    ensures Ascending([x] + xs)
  {
    var r := [x] + xs;
    forall i, j | 0 <= i < j < |r| ensures r[i] <= r[j] {
      assert r[j] == xs[j - 1] && xs[j - 1] in xs;
      assert i > 0 ==> r[i] == xs[i - 1];
    }
  }

  lemma {:induction false} InsertMultiset(x: real, xs: seq<real>)
    ensures multiset(Insert(x, xs)) == multiset(xs) + multiset{x}
  {
    if xs != [] && x > xs[0] {
      InsertMultiset(x, xs[1..]);
      assert xs == [xs[0]] + xs[1..];
    }
  }

  lemma {:induction false} InsertAscending(x: real, xs: seq<real>)
    requires Ascending(xs)
    ensures Ascending(Insert(x, xs))
  {
    if xs == [] || x <= xs[0] {
      AscendingCons(x, xs);
    } else {
      var r := Insert(x, xs[1..]);
      InsertAscending(x, xs[1..]);
      InsertMultiset(x, xs[1..]);
      forall y | y in r ensures xs[0] <= y {
        assert y in multiset(r);
        assert y == x || y in xs[1..];
      }
      AscendingCons(xs[0], r);
    }
  }

  /** The median is taken of the window's values in order. */
  lemma {:induction false} SortIsSorted(xs: seq<real>)
    ensures Ascending(Sort(xs)) && multiset(Sort(xs)) == multiset(xs)
  {
    if xs != [] {
      SortIsSorted(xs[1..]);
      InsertAscending(xs[0], Sort(xs[1..]));
      InsertMultiset(xs[0], Sort(xs[1..]));
      assert xs == [xs[0]] + xs[1..];
    }
  }

  lemma TimesMonotone(c: real, x: real, y: real)
    requires c > 0.0
    ensures x <= y <==> Times(c, x) <= Times(c, y)
  {
    DifferenceScales(c, y, x);
    if y < x { assert c * (x - y) > 0.0; }
    if x <= y { assert c * (y - x) >= 0.0; }
  }

  lemma {:induction false} InsertScales(x: real, xs: seq<real>, ys: seq<real>, c: real)
    requires c > 0.0 && IsScaled(ys, xs, c)
    ensures IsScaled(Insert(Times(c, x), ys), Insert(x, xs), c)
  {
    if xs != [] {
      TimesMonotone(c, x, xs[0]);
      InsertScales(x, xs[1..], ys[1..], c);
    }
  }

  lemma {:induction false} SortScales(xs: seq<real>, ys: seq<real>, c: real)
    requires c > 0.0 && IsScaled(ys, xs, c)
    ensures IsScaled(Sort(ys), Sort(xs), c)
  {
    if xs != [] {
      SortScales(xs[1..], ys[1..], c);
      InsertScales(xs[0], Sort(xs[1..]), Sort(ys[1..]), c);
    }
  }

  lemma MedianScales(xs: seq<real>, ys: seq<real>, c: real)
    requires xs != [] && c > 0.0 && IsScaled(ys, xs, c)
    ensures Median(ys) == Times(c, Median(xs))
  {
    SortScales(xs, ys, c);
    var n := |xs|;
    if n % 2 == 0 {
      HalfScales(c, Sort(xs)[n / 2 - 1], Sort(xs)[n / 2]);
    }
  }

  lemma HalfScales(c: real, x: real, y: real)
    ensures (Times(c, x) + Times(c, y)) / 2.0 == Times(c, (x + y) / 2.0)
  {}

  /** The relative volume does not depend on the unit volumes are counted in. */
  lemma VolumeRelScaleInvariant(volumes: seq<real>, window: nat, c: real, i: nat)
    requires window > 0 && i < |volumes| && c > 0.0
    ensures VolumeRelAt(Scaled(volumes, c), window, i) == VolumeRelAt(volumes, window, i)
  {
    if window <= i + 1 {
      var a, b := i + 1 - window, i + 1;
      var xs, ys := volumes[a..b], Scaled(volumes, c)[a..b];
      assert IsScaled(ys, xs, c);
      MedianScales(xs, ys, c);
      var mid := Median(xs);
      TimesMonotone(c, mid, 0.0);
      if mid > 0.0 { DivCancel(volumes[i], mid, c); }
    }
  }

  lemma RsiOfInRange(g: real, l: real)
    requires g >= 0.0 && l >= 0.0
    ensures 0.0 <= RsiOf(g, l) <= 100.0
    ensures l > 0.0 ==> RsiOf(g, l) == 100.0 * g / (g + l)
  {
    if l > 0.0 {
      var r := g / l;
      assert r >= 0.0 && r * l == g;
      var d := 100.0 / (1.0 + r);
      assert d * (1.0 + r) == 100.0;
      assert d >= 0.0 && d <= 100.0;
      assert (1.0 + r) * l == g + l;
      assert d * (g + l) == 100.0 * l by { assert d * ((1.0 + r) * l) == d * (1.0 + r) * l; }
      assert (100.0 - d) * (g + l) == 100.0 * g;
    }
  }

  /** Every RSI value is a percentage. */
  lemma RsiInRange(closes: seq<real>, i: nat)
    requires 14 <= i < |closes|
    ensures RsiAt(closes, i).Some? && 0.0 <= RsiAt(closes, i).value <= 100.0
  {
    NotNegative(Gains(closes), 1, i);
    NotNegative(Losses(closes), 1, i);
    RsiOfInRange(WilderAt(Gains(closes), 1, i), WilderAt(Losses(closes), 1, i));
  }

  /** The RSI does not change when a constant is added to all closes. */
  lemma RsiShiftInvariant(closes: seq<real>, c: real, i: nat)
    requires i < |closes|
    ensures RsiAt(Shifted(closes, c), i) == RsiAt(closes, i)
  {
    assert Gains(Shifted(closes, c)) == Gains(closes);
    assert Losses(Shifted(closes, c)) == Losses(closes);
  }

  lemma DivCancel(g: real, l: real, c: real)
    requires l > 0.0 && c > 0.0
    ensures Times(c, l) > 0.0 && Times(c, g) / Times(c, l) == g / l
  {
    var r := g / l;
    assert r * l == g;
    assert Times(c, g) == r * Times(c, l);
  }

  lemma RsiOfScales(g: real, l: real, c: real)
    requires g >= 0.0 && l >= 0.0 && c > 0.0
    ensures Times(c, g) >= 0.0 && Times(c, l) >= 0.0 && RsiOf(Times(c, g), Times(c, l)) == RsiOf(g, l)
  {
    SignScales(c, g);
    SignScales(c, l);
    if l > 0.0 { DivCancel(g, l, c); }
  }

  /** Nor when all closes are multiplied by a positive constant. */
  lemma RsiScaleInvariant(closes: seq<real>, c: real, i: nat)
    requires i < |closes| && c > 0.0
    ensures RsiAt(Scaled(closes, c), i) == RsiAt(closes, i)
  {
    if i >= 14 {
      var g, l := Gains(closes), Losses(closes);
      var g', l' := Gains(Scaled(closes, c)), Losses(Scaled(closes, c));
      forall k | 0 <= k < |closes| ensures g'[k] == Times(c, g[k]) && l'[k] == Times(c, l[k]) {
        GainScales(closes, c, k);
      }
      WilderScales(g', g, 1, i, c);
      WilderScales(l', l, 1, i, c);
      NotNegative(g, 1, i);
      NotNegative(l, 1, i);
      RsiOfScales(WilderAt(g, 1, i), WilderAt(l, 1, i), c);
    }
  }

  lemma GainScales(closes: seq<real>, c: real, k: nat)
    requires k < |closes| && c >= 0.0
    ensures Gain(Scaled(closes, c), k) == Times(c, Gain(closes, k))
         && Loss(Scaled(closes, c), k) == Times(c, Loss(closes, k))
  {
    if k > 0 {
      var x, y := closes[k], closes[k - 1];
      ScaledDifference(c, x, y);
      ScaledDifference(c, y, x);
      ScaledDifference(c, x - y, 0.0);
      ScaledDifference(c, y - x, 0.0);
    }
  }

  /**
   * Negating all closes mirrors the RSI at 50, exactly where something has moved: where average
   * gain and average loss are both zero, both series read 100.
   */
  lemma RsiMirrors(closes: seq<real>, i: nat)
    requires 14 <= i < |closes|
    ensures RsiAt(Scaled(closes, -1.0), i).value == 100.0 - RsiAt(closes, i).value
       <==> WilderAt(Gains(closes), 1, i) > 0.0 || WilderAt(Losses(closes), 1, i) > 0.0
  {
    var g, l := Gains(closes), Losses(closes);
    assert Gains(Scaled(closes, -1.0)) == l && Losses(Scaled(closes, -1.0)) == g;
    NotNegative(g, 1, i);
    NotNegative(l, 1, i);
    MirrorOf(WilderAt(g, 1, i), WilderAt(l, 1, i));
  }

  lemma MirrorOf(g: real, l: real)
    requires g >= 0.0 && l >= 0.0
    ensures RsiOf(l, g) == 100.0 - RsiOf(g, l) <==> g > 0.0 || l > 0.0
  {
    RsiOfInRange(g, l);
    RsiOfInRange(l, g);
    if g > 0.0 && l > 0.0 {
      var t := g + l;
      assert 100.0 * g / t + 100.0 * l / t == (100.0 * g + 100.0 * l) / t == 100.0 * t / t == 100.0;
    }
  }

  // ------------------------------------------------------------------------------------------
  // The loops

  method Sma(values: seq<real>, window: nat) returns (out: seq<Option<real>>)
    requires window > 0
    ensures |out| == |values| && forall i :: 0 <= i < |out| ==> out[i] == SmaAt(values, window, i)
  {
    out := [];
    var i := 0;
    while i < |values|
      invariant 0 <= i <= |values| && |out| == i
      invariant forall k :: 0 <= k < i ==> out[k] == SmaAt(values, window, k)
    {
      if i + 1 < window {
        out := out + [None];
      } else {
        var slice := values[i + 1 - window..i + 1];
        out := out + [Some(Sum(slice) / window as real)];
      }
      i := i + 1;
    }
  }

  method ReturnsLog(ln: real -> real, closes: seq<real>, lag: nat) returns (out: seq<Option<real>>)
    ensures |out| == |closes| && forall i :: 0 <= i < |out| ==> out[i] == ReturnAt(ln, closes, lag, i)
  {
    out := [];
    var i := 0;
    while i < |closes|
      invariant 0 <= i <= |closes| && |out| == i
      invariant forall k :: 0 <= k < i ==> out[k] == ReturnAt(ln, closes, lag, k)
    {
      out := out + [if i < lag then None else LogReturn(ln, closes[i], closes[i - lag])];
      i := i + 1;
    }
  }

  method RollingStd(root: real -> real, values: seq<Option<real>>, window: nat) returns (out: seq<Option<real>>)
    requires window > 1
    ensures |out| == |values| && forall i :: 0 <= i < |out| ==> out[i] == StdAt(root, values, window, i)
  {
    out := [];
    var i := 0;
    while i < |values|
      invariant 0 <= i <= |values| && |out| == i
      invariant forall k :: 0 <= k < i ==> out[k] == StdAt(root, values, window, k)
    {
      if i + 1 < window {
        out := out + [None];
      } else {
        var clean := Present(values[i + 1 - window..i + 1]);
        out := out + [if |clean| < window / 2 then None else Some(root(Variance(clean)))];
      }
      i := i + 1;
    }
  }

  method Atr14(highs: seq<real>, lows: seq<real>, closes: seq<real>) returns (out: seq<Option<real>>)
    requires |highs| == |lows| == |closes|
    ensures |out| == |highs| && forall i :: 0 <= i < |out| ==> out[i] == AtrAt(highs, lows, closes, i)
  {
    var tr := [];
    var i := 0;
    while i < |highs|
      invariant 0 <= i <= |highs| && |tr| == i
      invariant forall k :: 0 <= k < i ==> tr[k] == TrueRange(highs, lows, closes, k)
    {
      if i == 0 {
        tr := tr + [highs[i] - lows[i]];
      } else {
        var hl, hc, lc := highs[i] - lows[i], Abs(highs[i] - closes[i - 1]), Abs(lows[i] - closes[i - 1]);
        tr := tr + [Max(Max(hl, hc), lc)];
      }
      i := i + 1;
    }
    assert tr == TrueRanges(highs, lows, closes);
    out := [];
    var alpha := 1.0 / 14.0;
    var atr: Option<real> := None;
    i := 0;
    while i < |tr|
      invariant 0 <= i <= |tr| && |out| == i
      invariant i < 14 ==> atr == None
      invariant i >= 14 ==> atr.Some? && atr.value == WilderAt(tr, 0, i - 1)
      invariant forall k :: 0 <= k < i ==> out[k] == AtrAt(highs, lows, closes, k)
    {
      if i < 13 {
        out := out + [None];
      } else {
        var prev := if atr.Some? then atr.value else 0.0;
        var now := if i == 13 then Sum(tr[..14]) / 14.0 else alpha * tr[i] + (1.0 - alpha) * prev;
        AlphaIsWilder(prev, tr[i], alpha);
        assert tr[0..14] == tr[..14];
        assert now == WilderAt(tr, 0, i);
        atr := Some(now);
        out := out + [atr];
      }
      i := i + 1;
    }
  }

  lemma AlphaIsWilder(prev: real, x: real, alpha: real)
    requires alpha == 1.0 / 14.0
    ensures alpha * x + (1.0 - alpha) * prev == Wilder(prev, x)
  {}

  /** The gain's share of all movement, in percent. */
  function GainShare(g: real, l: real): real
    requires g + l > 0.0
  {
    100.0 * g / (g + l)
  }

  /** The RSI is that share wherever something has moved, and 100 where nothing has. */
  lemma RsiIsGainShare(g: real, l: real)
    requires g >= 0.0 && l >= 0.0
    ensures 0.0 <= RsiOf(g, l) <= 100.0
    ensures g + l > 0.0 ==> RsiOf(g, l) == GainShare(g, l)
    ensures g + l == 0.0 ==> RsiOf(g, l) == 100.0
  {
    RsiOfInRange(g, l);
  }

  /** The reading for given averages, as the loop computes it. */
  method Reading(avgGain: real, avgLoss: real) returns (r: real)
    requires avgGain >= 0.0 && avgLoss >= 0.0
    ensures r == RsiOf(avgGain, avgLoss) && 0.0 <= r <= 100.0
    ensures avgGain + avgLoss > 0.0 ==> r == GainShare(avgGain, avgLoss)
    ensures avgGain + avgLoss == 0.0 ==> r == 100.0
  {
    RsiIsGainShare(avgGain, avgLoss);
    if avgLoss > 0.0 {
      var rs := avgGain / avgLoss;
      r := 100.0 - 100.0 / (1.0 + rs);
    } else {
      r := 100.0;
    }
  }

  method Moves(closes: seq<real>) returns (gains: seq<real>, losses: seq<real>)
    requires closes != []
    ensures gains == Gains(closes) && losses == Losses(closes)
  {
    gains, losses := [0.0], [0.0];
    var i := 1;
    while i < |closes|
      invariant 1 <= i <= |closes| && |gains| == i && |losses| == i
      invariant forall k :: 0 <= k < i ==> gains[k] == Gain(closes, k) && losses[k] == Loss(closes, k)
    {
      var delta := closes[i] - closes[i - 1];
      gains := gains + [Max(delta, 0.0)];
      losses := losses + [Max(-delta, 0.0)];
      i := i + 1;
    }
  }

  method Rsi14(closes: seq<real>) returns (out: seq<Option<real>>)
    ensures |out| == |closes| && forall i :: 0 <= i < |out| ==> out[i] == RsiAt(closes, i)
  {
    if |closes| < 15 {
      return seq(|closes|, _ => None);
    }
    var gains, losses := Moves(closes);
    out := seq(14, _ => None);
    var avgG, avgL := Sum(gains[1..15]) / 14.0, Sum(losses[1..15]) / 14.0;
    NotNegative(gains, 1, 14);
    NotNegative(losses, 1, 14);
    var r := Reading(avgG, avgL);
    out := out + [Some(r)];
    var i := 15;
    while i < |closes|
      invariant 15 <= i <= |closes| && |out| == i
      invariant avgG == WilderAt(gains, 1, i - 1) && avgL == WilderAt(losses, 1, i - 1)
      invariant forall k :: 0 <= k < i ==> out[k] == RsiAt(closes, k)
    {
      avgG := (avgG * 13.0 + gains[i]) / 14.0;
      avgL := (avgL * 13.0 + losses[i]) / 14.0;
      NotNegative(gains, 1, i);
      NotNegative(losses, 1, i);
      r := Reading(avgG, avgL);
      out := out + [Some(r)];
      i := i + 1;
    }
  }

  method VolumeRel(volumes: seq<real>, window: nat) returns (out: seq<Option<real>>)
    requires window > 0
    ensures |out| == |volumes| && forall i :: 0 <= i < |out| ==> out[i] == VolumeRelAt(volumes, window, i)
  {
    out := [];
    var i := 0;
    while i < |volumes|
      invariant 0 <= i <= |volumes| && |out| == i
      invariant forall k :: 0 <= k < i ==> out[k] == VolumeRelAt(volumes, window, k)
    {
      if i + 1 < window {
        out := out + [None];
      } else {
        var mid := Median(volumes[i + 1 - window..i + 1]);
        out := out + [Ratio(volumes[i], mid)];
      }
      i := i + 1;
    }
  }

  // ------------------------------------------------------------------------------------------
  // The table

  datatype Row = Row(
    day: int, close: real, r1: Option<real>, r5: Option<real>, r21: Option<real>, atr14: Option<real>,
    vol21: Option<real>,
    volRel20: Option<real>, sma50: Option<real>, sma200: Option<real>, rsi14: Option<real>, source: string)

  function Closes(bars: seq<Bar>): seq<real> {
    seq(|bars|, i requires 0 <= i < |bars| => bars[i].close)
  }

  function Highs(bars: seq<Bar>): seq<real> {
    seq(|bars|, i requires 0 <= i < |bars| => bars[i].high)
  }

  function Lows(bars: seq<Bar>): seq<real> {
    seq(|bars|, i requires 0 <= i < |bars| => bars[i].low)
  }

  function Volumes(bars: seq<Bar>): seq<real> {
    seq(|bars|, i requires 0 <= i < |bars| => bars[i].volume)
  }

  function Returns(ln: real -> real, closes: seq<real>, lag: nat): seq<Option<real>> {
    seq(|closes|, i requires 0 <= i < |closes| => ReturnAt(ln, closes, lag, i))
  }

  function RowAt(ln: real -> real, root: real -> real, bars: seq<Bar>, i: nat): Row
    requires i < |bars|
  {
    var closes := Closes(bars);
    Row(bars[i].day, bars[i].close,
        ReturnAt(ln, closes, 1, i), ReturnAt(ln, closes, 5, i), ReturnAt(ln, closes, 21, i),
        AtrAt(Highs(bars), Lows(bars), closes, i),
        StdAt(root, Returns(ln, closes, 1), 21, i),
        VolumeRelAt(Volumes(bars), 20, i),
        SmaAt(closes, 50, i), SmaAt(closes, 200, i), RsiAt(closes, i), bars[i].source)
  }

  method ComputeFeatures(ln: real -> real, root: real -> real, bars: seq<Bar>) returns (out: seq<Row>)
    ensures |out| == |bars| && forall i :: 0 <= i < |out| ==> out[i] == RowAt(ln, root, bars, i)
  {
    if bars == [] {
      return [];
    }
    var closes := Closes(bars);
    var r1 := ReturnsLog(ln, closes, 1);
    var r5 := ReturnsLog(ln, closes, 5);
    var r21 := ReturnsLog(ln, closes, 21);
    var atr := Atr14(Highs(bars), Lows(bars), closes);
    assert r1 == Returns(ln, closes, 1);
    var vol21 := RollingStd(root, r1, 21);
    var volRel := VolumeRel(Volumes(bars), 20);
    var sma50 := Sma(closes, 50);
    var sma200 := Sma(closes, 200);
    var rsi := Rsi14(closes);
    out := [];
    var i := 0;
    while i < |bars|
      invariant 0 <= i <= |bars| && |out| == i
      invariant forall k :: 0 <= k < i ==> out[k] == RowAt(ln, root, bars, k)
    {
      out := out + [Row(bars[i].day, bars[i].close, r1[i], r5[i], r21[i], atr[i], vol21[i], volRel[i], sma50[i],
                        sma200[i], rsi[i], bars[i].source)];
      i := i + 1;
    }
  }

  // ------------------------------------------------------------------------------------------
  // Causality

  lemma {:induction false} WilderCausal(xs: seq<real>, first: nat, i: nat, n: nat)
    requires first + 13 <= i < n <= |xs|
    ensures WilderAt(xs[..n], first, i) == WilderAt(xs, first, i)
    decreases i
  {
    if i == first + 13 {
      assert xs[..n][first..first + 14] == xs[first..first + 14];
    } else {
      WilderCausal(xs, first, i - 1, n);
    }
  }

  lemma AtrCausal(highs: seq<real>, lows: seq<real>, closes: seq<real>, i: nat, n: nat)
    requires |highs| == |lows| == |closes| && i < n <= |highs|
    ensures AtrAt(highs[..n], lows[..n], closes[..n], i) == AtrAt(highs, lows, closes, i)
  {
    if i >= 13 {
      assert TrueRanges(highs[..n], lows[..n], closes[..n]) == TrueRanges(highs, lows, closes)[..n];
      WilderCausal(TrueRanges(highs, lows, closes), 0, i, n);
    }
  }

  lemma RsiCausal(closes: seq<real>, i: nat, n: nat)
    requires i < n <= |closes|
    ensures RsiAt(closes[..n], i) == RsiAt(closes, i)
  {
    if i >= 14 {
      assert Gains(closes[..n]) == Gains(closes)[..n] && Losses(closes[..n]) == Losses(closes)[..n];
      WilderCausal(Gains(closes), 1, i, n);
      WilderCausal(Losses(closes), 1, i, n);
    }
  }

  lemma WindowsCausal(values: seq<real>, window: nat, i: nat, n: nat)
    requires window > 0 && i < n <= |values|
    ensures SmaAt(values[..n], window, i) == SmaAt(values, window, i)
    ensures VolumeRelAt(values[..n], window, i) == VolumeRelAt(values, window, i)
  {
    if window <= i + 1 {
      assert values[..n][i + 1 - window..i + 1] == values[i + 1 - window..i + 1];
    }
  }

  lemma StdCausal(root: real -> real, values: seq<Option<real>>, window: nat, i: nat, n: nat)
    requires window > 1 && i < n <= |values|
    ensures StdAt(root, values[..n], window, i) == StdAt(root, values, window, i)
  {
    if window <= i + 1 {
      assert values[..n][i + 1 - window..i + 1] == values[i + 1 - window..i + 1];
    }
  }

  /** No row of the table depends on a later bar. */
  lemma TableCausal(ln: real -> real, root: real -> real, bars: seq<Bar>, i: nat, n: nat)
    requires i < n <= |bars|
    ensures RowAt(ln, root, bars[..n], i) == RowAt(ln, root, bars, i)
  {
    var closes := Closes(bars);
    assert Closes(bars[..n]) == closes[..n] && Highs(bars[..n]) == Highs(bars)[..n]
        && Lows(bars[..n]) == Lows(bars)[..n];
    assert Volumes(bars[..n]) == Volumes(bars)[..n];
    assert Returns(ln, closes[..n], 1) == Returns(ln, closes, 1)[..n];
    AtrCausal(Highs(bars), Lows(bars), closes, i, n);
    RsiCausal(closes, i, n);
    WindowsCausal(closes, 50, i, n);
    WindowsCausal(closes, 200, i, n);
    WindowsCausal(Volumes(bars), 20, i, n);
    StdCausal(root, Returns(ln, closes, 1), 21, i, n);
  }

  // ------------------------------------------------------------------------------------------
  // The incremental run

  ghost predicate DaysIncrease(bars: seq<Bar>) { forall i, j :: 0 <= i < j < |bars| ==> bars[i].day < bars[j].day }

  lemma {:induction false} DaysApart(bars: seq<Bar>, n: nat)
    requires DaysIncrease(bars) && n < |bars|
    ensures bars[n].day >= bars[0].day + n
  {
    if n > 0 { DaysApart(bars, n - 1); }
  }

  /** `ON CONFLICT (ticker, dia) DO UPDATE`: the stored rows of one ticker by day. */
  function UpsertRows(stored: map<int, Row>, rows: seq<Row>): map<int, Row> {
    if rows == [] then stored
    else UpsertRows(stored, rows[..|rows| - 1])[rows[|rows| - 1].day := rows[|rows| - 1]]
  }

  lemma {:induction false} UpsertReplaces(stored: map<int, Row>, rows: seq<Row>, i: nat)
    requires i < |rows| && forall j, k :: 0 <= j < k < |rows| ==> rows[j].day < rows[k].day
    ensures rows[i].day in UpsertRows(stored, rows) && UpsertRows(stored, rows)[rows[i].day] == rows[i]
  {
    if i < |rows| - 1 { UpsertReplaces(stored, rows[..|rows| - 1], i); }
  }

  lemma {:induction false} UpsertKeeps(stored: map<int, Row>, rows: seq<Row>, day: int)
    requires forall r :: r in rows ==> r.day != day
    ensures day in UpsertRows(stored, rows) <==> day in stored
    ensures day in stored ==> UpsertRows(stored, rows)[day] == stored[day]
  {
    if rows != [] {
      assert rows[|rows| - 1] in rows && forall r :: r in rows[..|rows| - 1] ==> r in rows;
      UpsertKeeps(stored, rows[..|rows| - 1], day);
    }
  }

  /**
   * The bars of an incremental run span 30 days. Whatever was stored, the rows of those days end
   * without the 50- and 200-bar averages: the run replaces known averages by nothing.
   * The rows of other days stay as they were.
   */
  lemma IncrementalErasesLongAverages(ln: real -> real, root: real -> real, bars: seq<Bar>, last: int,
                                      stored: map<int, Row>, rows: seq<Row>, i: nat)
    requires DaysIncrease(bars) && i < |bars| && forall b :: b in bars ==> last - 30 <= b.day <= last
    requires |rows| == |bars| && forall k :: 0 <= k < |rows| ==> rows[k] == RowAt(ln, root, bars, k)
    ensures bars[i].day in UpsertRows(stored, rows)
    ensures UpsertRows(stored, rows)[bars[i].day].sma50.None? && UpsertRows(stored, rows)[bars[i].day].sma200.None?
    ensures forall d :: (forall b :: b in bars ==> b.day != d) ==>
              (d in UpsertRows(stored, rows) <==> d in stored)
              && (d in stored ==> UpsertRows(stored, rows)[d] == stored[d])
  {
    assert bars[0] in bars && bars[|bars| - 1] in bars;
    DaysApart(bars, |bars| - 1);
    assert |bars| <= 31;
    UpsertReplaces(stored, rows, i);
    forall d | forall b :: b in bars ==> b.day != d
      ensures d in UpsertRows(stored, rows) <==> d in stored
      ensures d in stored ==> UpsertRows(stored, rows)[d] == stored[d]
    {
      forall r | r in rows ensures r.day != d {
        var k :| 0 <= k < |rows| && rows[k] == r;
        assert bars[k] in bars;
      }
      UpsertKeeps(stored, rows, d);
    }
  }
}
