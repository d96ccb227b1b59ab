/** When a run over the bars from `m` on writes the row that a run over all bars writes, column by column. */
module FeatureWindows {
  import opened Options
  import opened Features

  // ------------------------------------------------------------------------------------------
  // The columns that look back over a fixed number of bars

  lemma SmaKeptIff(values: seq<real>, window: nat, m: nat, i: nat)
    requires window > 0 && m <= i < |values|
    ensures SmaAt(values[m..], window, i - m) == SmaAt(values, window, i) <==> m + window <= i + 1 || i + 1 < window
  {
    if m + window <= i + 1 {
      assert values[m..][i - m + 1 - window..i - m + 1] == values[i + 1 - window..i + 1];
    }
  }

  lemma ReturnKeptIff(ln: real -> real, closes: seq<real>, lag: nat, m: nat, i: nat)
    requires m <= i < |closes|
    ensures ReturnAt(ln, closes[m..], lag, i - m) == ReturnAt(ln, closes, lag, i)
       <==> m + lag <= i || ReturnAt(ln, closes, lag, i).None?
  {}

  lemma VolumeRelKeptIff(volumes: seq<real>, window: nat, m: nat, i: nat)
    requires window > 0 && m <= i < |volumes|
    ensures VolumeRelAt(volumes[m..], window, i - m) == VolumeRelAt(volumes, window, i)
       <==> m + window <= i + 1 || VolumeRelAt(volumes, window, i).None?
  {
    if m + window <= i + 1 {
      assert volumes[m..][i - m + 1 - window..i - m + 1] == volumes[i + 1 - window..i + 1];
    }
  }

  // ------------------------------------------------------------------------------------------
  // The volatility: at one bar the window has all values but the first

  lemma {:induction false} SumPrepended(v: real, xs: seq<real>)
    ensures Sum([v] + xs) == v + Sum(xs)
  {
    if xs == [] {
      assert [v] + xs == [v] && [v][..0] == [];
    } else {
      SumPrepended(v, xs[..|xs| - 1]);
      assert ([v] + xs)[..|xs|] == [v] + xs[..|xs| - 1];
    }
  }

  lemma {:induction false} PresentPrepended(x: Option<real>, xs: seq<Option<real>>)
    ensures Present([x] + xs) == (if x.Some? then [x.value] else []) + Present(xs)
  {
    if xs == [] {
      assert [x] + xs == [x] && [x][..0] == [];
    } else {
      PresentPrepended(x, xs[..|xs| - 1]);
      assert ([x] + xs)[..|xs|] == [x] + xs[..|xs| - 1];
    }
  }

  function SumOfSquares(xs: seq<real>): real {
    if xs == [] then 0.0 else SumOfSquares(xs[..|xs| - 1]) + xs[|xs| - 1] * xs[|xs| - 1]
  }

  lemma {:induction false} SquaresPrepended(v: real, xs: seq<real>)
    ensures SumOfSquares([v] + xs) == SumOfSquares(xs) + v * v
  {
    if xs == [] {
      assert [v] + xs == [v] && [v][..0] == [];
    } else {
      SquaresPrepended(v, xs[..|xs| - 1]);
      assert ([v] + xs)[..|xs|] == [v] + xs[..|xs| - 1];
    }
  }

  function Spread(n: real, s: real, q: real, c: real): real { q - 2.0 * c * s + n * (c * c) }

  lemma SpreadStep(n: real, s: real, q: real, c: real, x: real)
    ensures Spread(n + 1.0, s + x, q + x * x, c) == Spread(n, s, q, c) + (x - c) * (x - c)
  {
    assert (n + 1.0) * (c * c) == n * (c * c) + c * c;
    assert 2.0 * c * (s + x) == 2.0 * c * s + 2.0 * c * x;
  }

  lemma {:induction false} DeviationsAreSpread(xs: seq<real>, c: real)
    ensures SquaredDeviations(xs, c) == Spread(|xs| as real, Sum(xs), SumOfSquares(xs), c)
  {
    if xs != [] {
      var init, x := xs[..|xs| - 1], xs[|xs| - 1];
      DeviationsAreSpread(init, c);
      SpreadStep(|init| as real, Sum(init), SumOfSquares(init), c, x);
      assert |xs| as real == |init| as real + 1.0;
    }
  }

  lemma SpreadOfMean(n: real, s: real, q: real, c: real)
    requires n > 0.0 && c == s / n
    ensures n * Spread(n, s, q, c) == n * q - s * s
  {
    assert n * c == s;
    assert n * (2.0 * c * s) == 2.0 * s * s;
    assert n * (n * (c * c)) == (n * c) * (n * c);
  }

  function Mean(xs: seq<real>): real
    requires xs != []
  {
    Sum(xs) / |xs| as real
  }

  lemma DeviationsOfMean(xs: seq<real>, n: real, s: real, q: real, d: real)
    requires xs != [] && n == |xs| as real && s == Sum(xs) && q == SumOfSquares(xs)
    requires d == SquaredDeviations(xs, Mean(xs))
    ensures n * d == n * q - s * s
  {
    DeviationsAreSpread(xs, Mean(xs));
    SpreadOfMean(n, s, q, Mean(xs));
  }

  /** One more value `v` adds n/(n+1) of its squared distance from the mean `c` of `n` values. */
  lemma DeviationsGrow(v: real, n: real, s: real, q: real, c: real, base: real, n': real, s': real, q': real,
                       grown: real)
    requires n > 0.0 && c == s / n && n * base == n * q - s * s
    requires n' == n + 1.0 && s' == v + s && q' == q + v * v && n' * grown == n' * q' - s' * s'
    ensures (n + 1.0) * (grown - base) == n * ((v - c) * (v - c))
  {
    assert n * c == s;
    assert n * (n + 1.0) * grown == n * (n + 1.0) * (q + v * v) - n * ((v + s) * (v + s));
    assert n * (n + 1.0) * base == (n + 1.0) * (n * q) - (n + 1.0) * (s * s);
    assert n * (n * ((v - c) * (v - c))) == (n * v - s) * (n * v - s) by { assert n * (v - c) == n * v - s; }
    assert n * ((n + 1.0) * (grown - base)) == n * (n * ((v - c) * (v - c)));
  }

  lemma QuotientsEqualIff(grown: real, base: real, n: real, w: real, r: real)
    requires n > 1.0 && (n + 1.0) * (grown - base) == n * w && r == base / (n - 1.0)
    ensures grown / n == r <==> n * w == (n + 1.0) * r
  {
    assert r * (n - 1.0) == base;
    assert base == n * r - r;
    if grown / n == r {
      assert grown == n * r;
      assert grown - base == r;
    }
    if n * w == (n + 1.0) * r {
      assert (n + 1.0) * (grown - base - r) == 0.0;
      assert grown == n * r;
    }
  }

  /** One more value keeps the sample variance exactly if its squared distance from the mean is (n+1)/n of it. */
  lemma VarianceKeptIff(v: real, xs: seq<real>, n: real, c: real, r: real)
    requires |xs| > 1 && n == |xs| as real && c == Mean(xs) && r == Variance(xs)
    ensures Variance([v] + xs) == r <==> n * ((v - c) * (v - c)) == (n + 1.0) * r
  {
    var more := [v] + xs;
    var base, grown := SquaredDeviations(xs, Mean(xs)), SquaredDeviations(more, Mean(more));
    assert (n + 1.0) * (grown - base) == n * ((v - c) * (v - c)) by { GrownDeviations(v, xs, n, c, base, grown); }
    QuotientsEqualIff(grown, base, n, (v - c) * (v - c), r);
  }

  lemma GrownDeviations(v: real, xs: seq<real>, n: real, c: real, base: real, grown: real)
    requires xs != [] && n == |xs| as real && c == Mean(xs)
    requires base == SquaredDeviations(xs, c) && grown == SquaredDeviations([v] + xs, Mean([v] + xs))
    ensures (n + 1.0) * (grown - base) == n * ((v - c) * (v - c))
  {
    var s, q := Sum(xs), SumOfSquares(xs);
    var n', s', q' := n + 1.0, v + s, q + v * v;
    assert n * base == n * q - s * s by { DeviationsOfMean(xs, n, s, q, base); }
    GrownMoments(v, xs, n', s', q', grown);
    DeviationsGrow(v, n, s, q, c, base, n', s', q', grown);
  }

  lemma GrownMoments(v: real, xs: seq<real>, n: real, s: real, q: real, grown: real)
    requires xs != [] && n == |xs| as real + 1.0 && s == v + Sum(xs) && q == SumOfSquares(xs) + v * v
    requires grown == SquaredDeviations([v] + xs, Mean([v] + xs))
    ensures n * grown == n * q - s * s
  {
    SumPrepended(v, xs);
    SquaresPrepended(v, xs);
    DeviationsOfMean([v] + xs, n, s, q, grown);
  }

  lemma {:induction false} DeviationsNotNegative(xs: seq<real>, mean: real)
    ensures SquaredDeviations(xs, mean) >= 0.0
  {
    if xs != [] {
      DeviationsNotNegative(xs[..|xs| - 1], mean);
      SquareNotNegative(xs[|xs| - 1] - mean);
    }
  }

  lemma VarianceNotNegative(xs: seq<real>)
    requires |xs| > 1
    ensures Variance(xs) >= 0.0
  {
    DeviationsNotNegative(xs, Mean(xs));
    QuotientNotNegative(SquaredDeviations(xs, Mean(xs)), (|xs| - 1) as real);
  }

  lemma SquareNotNegative(x: real)
    ensures x * x >= 0.0
  {}

  /** `root` is the square root where there is one. */
  ghost predicate IsRoot(root: real -> real) { forall x :: x >= 0.0 ==> root(x) * root(x) == x }

  lemma RootInjective(root: real -> real, x: real, y: real)
    requires IsRoot(root) && x >= 0.0 && y >= 0.0
    ensures root(x) == root(y) <==> x == y
  {}

  lemma DeviationKeptIff(root: real -> real, v: real, xs: seq<real>, n: real, c: real, r: real)
    requires IsRoot(root) && |xs| > 1 && n == |xs| as real && c == Mean(xs) && r == Variance(xs)
    ensures root(Variance([v] + xs)) == root(r) <==> n * ((v - c) * (v - c)) == (n + 1.0) * r
  {
    VarianceNotNegative([v] + xs);
    VarianceNotNegative(xs);
    RootInjective(root, Variance([v] + xs), r);
    VarianceKeptIff(v, xs, n, c, r);
  }

  lemma QuotientNotNegative(x: real, n: real)
    requires x >= 0.0 && n > 0.0
    ensures x / n >= 0.0
  {}

  function DeviationOf(root: real -> real, clean: seq<real>): Option<real> {
    if |clean| < 10 then None else Some(root(Variance(clean)))
  }

  lemma StdIsDeviation(root: real -> real, values: seq<Option<real>>, i: nat, slice: seq<Option<real>>)
    requires 20 <= i < |values| && slice == values[i - 20..i + 1]
    ensures StdAt(root, values, 21, i) == DeviationOf(root, Present(slice))
  {}

  /** Where the window has left out the one value `x`: nothing was there, or it makes no difference. */
  ghost predicate NotMissed(x: Option<real>, rest: seq<real>) {
    if x.None? then true
    else if |rest| < 10 then |rest| < 9
    else
      var n, away := |rest| as real, x.value - Mean(rest);
      n * (away * away) == (n + 1.0) * Variance(rest)
  }

  /**
   * The deviation over 21 bars at `i`, of a run over the bars from `m` on. That run has no return at
   * `m`, so at bar `m + 20` it leaves out one value of the window.
   */
  ghost predicate VolatilityKept(moves: seq<Option<real>>, m: nat, i: nat)
    requires m <= i < |moves|
  {
    if i < m + 20 then i < 20 || |Present(moves[i - 20..i + 1])| < 10
    else i > m + 20 || NotMissed(moves[m], Present(moves[m + 1..i + 1]))
  }

  lemma FirstMissedIff(root: real -> real, x: Option<real>, rest: seq<Option<real>>)
    requires IsRoot(root)
    ensures DeviationOf(root, Present([None] + rest)) == DeviationOf(root, Present([x] + rest))
         <==> NotMissed(x, Present(rest))
  {
    PresentPrepended(None, rest);
    PresentPrepended(x, rest);
    var clean := Present(rest);
    assert [] + clean == clean;
    if x.Some? {
      ValueMissedIff(root, x.value, clean);
    }
  }

  lemma ValueMissedIff(root: real -> real, v: real, clean: seq<real>)
    requires IsRoot(root)
    ensures DeviationOf(root, clean) == DeviationOf(root, [v] + clean) <==> NotMissed(Some(v), clean)
  {
    if |clean| >= 10 {
      DeviationKeptIff(root, v, clean, |clean| as real, Mean(clean), Variance(clean));
    }
  }

  lemma StdKeptIff(root: real -> real, moves: seq<Option<real>>, late: seq<Option<real>>, m: nat, i: nat)
    requires IsRoot(root) && m <= i < |moves| && late == [None] + moves[m + 1..]
    ensures StdAt(root, late, 21, i - m) == StdAt(root, moves, 21, i) <==> VolatilityKept(moves, m, i)
  {
    if i > m + 20 {
      var slice := moves[i - 20..i + 1];
      assert late[i - m - 20..i - m + 1] == slice;
      StdIsDeviation(root, late, i - m, slice);
      StdIsDeviation(root, moves, i, slice);
    } else if i == m + 20 {
      var rest := moves[m + 1..i + 1];
      StdIsDeviation(root, late, 20, [None] + rest);
      StdIsDeviation(root, moves, i, [moves[m]] + rest);
      FirstMissedIff(root, moves[m], rest);
    }
  }

  // ------------------------------------------------------------------------------------------
  // The smoothed columns: a difference fades but never goes

  lemma {:induction false} FadesNeverGoes(k: nat, d: real)
    ensures Faded(k, d) == 0.0 <==> d == 0.0
  {
    if k > 0 { FadesNeverGoes(k - 1, d); }
  }

  /** The ATR at `i`: from the window's first value on, exactly if that one is the full run's. */
  ghost predicate AtrKept(highs: seq<real>, lows: seq<real>, closes: seq<real>, m: nat, i: nat)
    requires |highs| == |lows| == |closes| && m <= i < |highs|
  {
    if i < m + 13 then i < 13
    else AtrAt(highs[m..], lows[m..], closes[m..], 13).value == AtrAt(highs, lows, closes, m + 13).value
  }

  lemma AtrKeptIff(highs: seq<real>, lows: seq<real>, closes: seq<real>, m: nat, i: nat)
    requires |highs| == |lows| == |closes| && m <= i < |highs|
    ensures AtrAt(highs[m..], lows[m..], closes[m..], i - m) == AtrAt(highs, lows, closes, i)
       <==> AtrKept(highs, lows, closes, m, i)
  {
    if i >= m + 13 {
      var k := i - m - 13;
      AtrForgetsItsSeed(highs, lows, closes, m, k);
      FadesNeverGoes(k, AtrAt(highs[m..], lows[m..], closes[m..], 13).value - AtrAt(highs, lows, closes, m + 13).value);
    }
  }

  lemma SameReading(g: real, l: real, g': real, l': real)
    requires g >= 0.0 && l >= 0.0 && g' >= 0.0 && l' >= 0.0
    ensures RsiOf(g, l) == RsiOf(g', l') <==> (l == 0.0 <==> l' == 0.0) && g * l' == g' * l
  {
    RsiOfInRange(g, l);
    RsiOfInRange(g', l');
    if l > 0.0 && l' > 0.0 {
      SameQuotient(g, l, g', l');
    } else if l > 0.0 {
      BelowHundred(g, l);
    } else if l' > 0.0 {
      BelowHundred(g', l');
    }
  }

  lemma BelowHundred(g: real, l: real)
    requires g >= 0.0 && l > 0.0
    ensures 100.0 * g / (g + l) < 100.0
  {
    var t := g + l;
    var r := 100.0 * g / t;
    assert r * t == 100.0 * g;
    assert (100.0 - r) * t == 100.0 * l;
  }

  lemma SameQuotient(g: real, l: real, g': real, l': real)
    requires g >= 0.0 && l > 0.0 && g' >= 0.0 && l' > 0.0
    ensures 100.0 * g / (g + l) == 100.0 * g' / (g' + l') <==> g * l' == g' * l
  {
    var t, t' := g + l, g' + l';
    var r, r' := 100.0 * g / t, 100.0 * g' / t';
    assert r * t == 100.0 * g && r' * t' == 100.0 * g';
    assert r * (t * t') == 100.0 * g * t' && r' * (t * t') == 100.0 * g' * t;
    assert g * t' - g' * t == g * l' - g' * l;
    assert (r - r') * (t * t') == 100.0 * (g * l' - g' * l);
    assert t * t' > 0.0;
  }

  lemma {:induction false} SumIsZeroIff(xs: seq<real>)
    requires forall i :: 0 <= i < |xs| ==> xs[i] >= 0.0
    ensures Sum(xs) >= 0.0 && (Sum(xs) == 0.0 <==> forall i :: 0 <= i < |xs| ==> xs[i] == 0.0)
  {
    if xs != [] { SumIsZeroIff(xs[..|xs| - 1]); }
  }

  /** An average of values that are not negative is 0 exactly if all of them are. */
  lemma {:induction false} WilderIsZeroIff(xs: seq<real>, first: nat, i: nat)
    requires first + 13 <= i < |xs| && forall k :: 0 <= k < |xs| ==> xs[k] >= 0.0
    ensures WilderAt(xs, first, i) >= 0.0
    ensures WilderAt(xs, first, i) == 0.0 <==> forall k :: first <= k <= i ==> xs[k] == 0.0
    decreases i
  {
    if i == first + 13 {
      var seed := xs[first..first + 14];
      SumIsZeroIff(seed);
      assert forall k :: first <= k <= i ==> xs[k] == seed[k - first];
    } else {
      WilderIsZeroIff(xs, first, i - 1);
    }
  }

  /** Some close after bar `m`, up to bar `i`, is lower than the one before it. */
  ghost predicate FellSince(closes: seq<real>, m: nat, i: nat)
    requires i < |closes|
  {
    exists k :: m < k <= i && closes[k] < closes[k - 1]
  }

  lemma WindowLoss(closes: seq<real>, m: nat, j: nat)
    requires 1 <= j && m + j < |closes|
    ensures |Losses(closes[m..])| == |closes| - m && Losses(closes[m..])[j] >= 0.0
    ensures Losses(closes[m..])[j] == 0.0 <==> closes[m + j] >= closes[m + j - 1]
  {}

  lemma NoLossIff(closes: seq<real>, m: nat, i: nat, losses: seq<real>)
    requires m + 14 <= i < |closes| && losses == Losses(closes[m..])
    ensures WilderAt(losses, 1, i - m) == 0.0 <==> !FellSince(closes, m, i)
  {
    WilderIsZeroIff(losses, 1, i - m);
    forall k | m < k <= i ensures losses[k - m] == 0.0 <==> closes[k] >= closes[k - 1] {
      WindowLoss(closes, m, k - m);
    }
    if forall j :: 1 <= j <= i - m ==> losses[j] == 0.0 {
      forall k | m < k <= i ensures closes[k] >= closes[k - 1] { assert losses[k - m] == 0.0; }
    } else {
      var j :| 1 <= j <= i - m && losses[j] != 0.0;
      assert closes[m + j] < closes[m + j - 1] by { WindowLoss(closes, m, j); }
    }
  }

  lemma FadedOnce(x: real, y: real, z: real, x': real, y': real, g: real, l: real)
    requires x' == x * 13.0 / 14.0 && y' == y * 13.0 / 14.0 && x * l - y * g == z
    ensures x' * l - y' * g == z * 13.0 / 14.0
  {
    assert x' * l == x * l * 13.0 / 14.0;
    assert y' * g == y * g * 13.0 / 14.0;
  }

  /** A difference scaled down keeps a vanishing cross product. */
  lemma {:induction false} FadedCross(k: nat, dg: real, dl: real, g: real, l: real, d: real)
    requires d == dg * l - dl * g
    ensures Faded(k, dg) * l - Faded(k, dl) * g == Faded(k, d)
  {
    if k > 0 {
      FadedCross(k - 1, dg, dl, g, l, d);
      FadedOnce(Faded(k - 1, dg), Faded(k - 1, dl), Faded(k - 1, d), Faded(k, dg), Faded(k, dl), g, l);
    }
  }

  /** `a` is to `b` as `c` is to `d`. */
  ghost predicate InRatio(a: real, b: real, c: real, d: real) { a * d == b * c }

  lemma CrossIff(k: nat, dg: real, dl: real, g: real, l: real, g': real, l': real)
    requires g - g' == Faded(k, dg) && l - l' == Faded(k, dl)
    ensures InRatio(g, l, g', l') <==> InRatio(dg, dl, g', l')
  {
    var d := dg * l' - dl * g';
    FadedCross(k, dg, dl, g', l', d);
    FadesNeverGoes(k, d);
    assert g * l' - l * g' == (g - g') * l' - (l - l') * g';
  }

  /**
   * The RSI at `i`: from the window's first value on, exactly if the first differences of the two
   * averages stand in the ratio of the full run's averages at `i`, and the closes have fallen within the
   * window if they have fallen at all.
   */
  ghost predicate RsiKept(closes: seq<real>, m: nat, i: nat)
    requires m <= i < |closes|
  {
    if i < m + 14 then i < 14
    else
      var dg := WilderAt(Gains(closes[m..]), 1, 14) - WilderAt(Gains(closes), 1, m + 14);
      var dl := WilderAt(Losses(closes[m..]), 1, 14) - WilderAt(Losses(closes), 1, m + 14);
      && InRatio(dg, dl, WilderAt(Gains(closes), 1, i), WilderAt(Losses(closes), 1, i))
      && (FellSince(closes, 0, i) ==> FellSince(closes, m, i))
  }

  /** The averages of the two runs, and their first differences. */
  lemma RsiAverages(g: real, l: real, g': real, l': real, dg: real, dl: real, k: nat)
    requires g >= 0.0 && l >= 0.0 && g' >= 0.0 && l' >= 0.0
    requires g - g' == Faded(k, dg) && l - l' == Faded(k, dl)
    ensures RsiOf(g, l) == RsiOf(g', l') <==> InRatio(dg, dl, g', l') && (l == 0.0 <==> l' == 0.0)
  {
    SameReading(g, l, g', l');
    CrossIff(k, dg, dl, g, l, g', l');
  }

  lemma AveragesNotNegative(closes: seq<real>, i: nat)
    requires 14 <= i < |closes|
    ensures WilderAt(Gains(closes), 1, i) >= 0.0 && WilderAt(Losses(closes), 1, i) >= 0.0
  {
    NotNegative(Gains(closes), 1, i);
    NotNegative(Losses(closes), 1, i);
  }

  lemma FellBefore(closes: seq<real>, m: nat, i: nat)
    requires i < |closes| && FellSince(closes, m, i)
    ensures FellSince(closes, 0, i)
  {
    var k :| m < k <= i && closes[k] < closes[k - 1];
  }

  lemma WindowReading(closes: seq<real>, m: nat, i: nat, dg: real, dl: real)
    requires m + 14 <= i < |closes|
    requires dg == WilderAt(Gains(closes[m..]), 1, 14) - WilderAt(Gains(closes), 1, m + 14)
    requires dl == WilderAt(Losses(closes[m..]), 1, 14) - WilderAt(Losses(closes), 1, m + 14)
    ensures RsiAt(closes[m..], i - m) == RsiAt(closes, i)
       <==> InRatio(dg, dl, WilderAt(Gains(closes), 1, i), WilderAt(Losses(closes), 1, i))
            && (WilderAt(Losses(closes[m..]), 1, i - m) == 0.0 <==> WilderAt(Losses(closes), 1, i) == 0.0)
  {
    AveragesNotNegative(closes[m..], i - m);
    AveragesNotNegative(closes, i);
    AverageGainForgetsItsSeed(closes, m, i - m - 14);
    AverageLossForgetsItsSeed(closes, m, i - m - 14);
    RsiAverages(WilderAt(Gains(closes[m..]), 1, i - m), WilderAt(Losses(closes[m..]), 1, i - m),
                WilderAt(Gains(closes), 1, i), WilderAt(Losses(closes), 1, i), dg, dl, i - m - 14);
  }

  lemma FallsKeptIff(closes: seq<real>, m: nat, i: nat)
    requires m + 14 <= i < |closes|
    ensures (WilderAt(Losses(closes[m..]), 1, i - m) == 0.0 <==> WilderAt(Losses(closes), 1, i) == 0.0)
       <==> (FellSince(closes, 0, i) ==> FellSince(closes, m, i))
  {
    NoLossIff(closes, m, i, Losses(closes[m..]));
    assert closes[0..] == closes;
    NoLossIff(closes, 0, i, Losses(closes));
    if FellSince(closes, m, i) { FellBefore(closes, m, i); }
  }

  lemma RsiKeptIff(closes: seq<real>, m: nat, i: nat)
    requires m <= i < |closes|
    ensures RsiAt(closes[m..], i - m) == RsiAt(closes, i) <==> RsiKept(closes, m, i)
  {
    if i >= m + 14 {
      var dg := WilderAt(Gains(closes[m..]), 1, 14) - WilderAt(Gains(closes), 1, m + 14);
      var dl := WilderAt(Losses(closes[m..]), 1, 14) - WilderAt(Losses(closes), 1, m + 14);
      WindowReading(closes, m, i, dg, dl);
      FallsKeptIff(closes, m, i);
    }
  }

  // ------------------------------------------------------------------------------------------
  // The row, and the table after an incremental run

  ghost predicate ReturnKept(closes: seq<real>, lag: nat, m: nat, i: nat)
    requires m <= i < |closes|
  {
    m + lag <= i || i < lag || closes[i] <= 0.0 || closes[i - lag] <= 0.0
  }

  ghost predicate SmaKept(window: nat, m: nat, i: nat) { m + window <= i + 1 || i + 1 < window }

  ghost predicate VolumeRelKept(volumes: seq<real>, m: nat, i: nat)
    requires m <= i < |volumes|
  {
    m + 20 <= i + 1 || i + 1 < 20 || Median(volumes[i - 19..i + 1]) <= 0.0
  }

  /** Every column of the row at `i` is that of a run over all bars. */
  ghost predicate RowKept(ln: real -> real, bars: seq<Bar>, m: nat, i: nat)
    requires m <= i < |bars|
  {
    var closes := Closes(bars);
    && ReturnKept(closes, 1, m, i) && ReturnKept(closes, 5, m, i) && ReturnKept(closes, 21, m, i)
    && AtrKept(Highs(bars), Lows(bars), closes, m, i)
    && VolatilityKept(Returns(ln, closes, 1), m, i)
    && VolumeRelKept(Volumes(bars), m, i)
    && SmaKept(50, m, i) && SmaKept(200, m, i)
    && RsiKept(closes, m, i)
  }

  lemma WindowColumns(ln: real -> real, root: real -> real, bars: seq<Bar>, m: nat, i: nat)
    requires m <= i < |bars|
    ensures var late, full, closes := RowAt(ln, root, bars[m..], i - m), RowAt(ln, root, bars, i), Closes(bars);
            && (late.r1 == full.r1 <==> ReturnKept(closes, 1, m, i))
            && (late.r5 == full.r5 <==> ReturnKept(closes, 5, m, i))
            && (late.r21 == full.r21 <==> ReturnKept(closes, 21, m, i))
            && (late.volRel20 == full.volRel20 <==> VolumeRelKept(Volumes(bars), m, i))
            && (late.sma50 == full.sma50 <==> SmaKept(50, m, i))
            && (late.sma200 == full.sma200 <==> SmaKept(200, m, i))
  {
    var closes := Closes(bars);
    assert Closes(bars[m..]) == closes[m..] && Volumes(bars[m..]) == Volumes(bars)[m..];
    ReturnKeptIff(ln, closes, 1, m, i);
    ReturnKeptIff(ln, closes, 5, m, i);
    ReturnKeptIff(ln, closes, 21, m, i);
    VolumeRelKeptIff(Volumes(bars), 20, m, i);
    SmaKeptIff(closes, 50, m, i);
    SmaKeptIff(closes, 200, m, i);
  }

  lemma SmoothedColumns(ln: real -> real, root: real -> real, bars: seq<Bar>, m: nat, i: nat)
    requires IsRoot(root) && m <= i < |bars|
    ensures var late, full, closes := RowAt(ln, root, bars[m..], i - m), RowAt(ln, root, bars, i), Closes(bars);
            && (late.atr14 == full.atr14 <==> AtrKept(Highs(bars), Lows(bars), closes, m, i))
            && (late.vol21 == full.vol21 <==> VolatilityKept(Returns(ln, closes, 1), m, i))
            && (late.rsi14 == full.rsi14 <==> RsiKept(closes, m, i))
  {
    var closes := Closes(bars);
    assert Closes(bars[m..]) == closes[m..] && Highs(bars[m..]) == Highs(bars)[m..]
        && Lows(bars[m..]) == Lows(bars)[m..];
    assert Returns(ln, closes[m..], 1) == [None] + Returns(ln, closes, 1)[m + 1..];
    AtrKeptIff(Highs(bars), Lows(bars), closes, m, i);
    StdKeptIff(root, Returns(ln, closes, 1), Returns(ln, closes[m..], 1), m, i);
    RsiKeptIff(closes, m, i);
  }

  lemma SameRow(a: Row, b: Row)
    requires a.day == b.day && a.close == b.close && a.source == b.source
    ensures a == b
       <==> && a.r1 == b.r1 && a.r5 == b.r5 && a.r21 == b.r21 && a.atr14 == b.atr14 && a.vol21 == b.vol21
            && a.volRel20 == b.volRel20 && a.sma50 == b.sma50 && a.sma200 == b.sma200 && a.rsi14 == b.rsi14
  {}

  /** A run over the bars from `m` on writes the row a run over all bars writes, exactly under these conditions. */
  lemma RowKeptIff(ln: real -> real, root: real -> real, bars: seq<Bar>, m: nat, i: nat)
    requires IsRoot(root) && m <= i < |bars|
    ensures RowAt(ln, root, bars[m..], i - m) == RowAt(ln, root, bars, i) <==> RowKept(ln, bars, m, i)
  {
    WindowColumns(ln, root, bars, m, i);
    SmoothedColumns(ln, root, bars, m, i);
    SameRow(RowAt(ln, root, bars[m..], i - m), RowAt(ln, root, bars, i));
  }

  /**
   * After a run that loads only the bars from `m` on, the stored row of a day is the one a run over all
   * bars would have left, exactly under these conditions, whatever was stored before.
   */
  lemma IncrementalIsFullIff(ln: real -> real, root: real -> real, bars: seq<Bar>, m: nat, stored: map<int, Row>,
                             rows: seq<Row>, i: nat)
    requires IsRoot(root) && DaysIncrease(bars) && m <= i < |bars|
    requires |rows| == |bars| - m && forall k :: 0 <= k < |rows| ==> rows[k] == RowAt(ln, root, bars[m..], k)
    ensures bars[i].day in UpsertRows(stored, rows)
    ensures UpsertRows(stored, rows)[bars[i].day] == RowAt(ln, root, bars, i) <==> RowKept(ln, bars, m, i)
  {
    var row := RowAt(ln, root, bars[m..], i - m);
    assert bars[m..][i - m] == bars[i];
    assert row.day in UpsertRows(stored, rows) && UpsertRows(stored, rows)[row.day] == row by {
      DaysOfRows(ln, root, bars, m, rows);
      UpsertReplaces(stored, rows, i - m);
    }
    RowKeptIff(ln, root, bars, m, i);
  }

  lemma DaysOfRows(ln: real -> real, root: real -> real, bars: seq<Bar>, m: nat, rows: seq<Row>)
    requires DaysIncrease(bars) && m <= |bars| && |rows| == |bars| - m
    requires forall k :: 0 <= k < |rows| ==> rows[k] == RowAt(ln, root, bars[m..], k)
    ensures forall j, k :: 0 <= j < k < |rows| ==> rows[j].day < rows[k].day
  {
    forall k | 0 <= k < |rows| ensures rows[k].day == bars[m + k].day {}
  }
}
