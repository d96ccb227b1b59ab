/** Prices of aggregated bars: rounding, the envelope of a bar, the weighted average. */
module OhlcPrices {
  import opened OhlcBars

  /** Ten-thousandths, to the nearest, halves away from zero. */
  function Units(x: real): int {
    if x >= 0.0 then (x * 10000.0 + 0.5).Floor else -((0.5 - x * 10000.0).Floor)
  }

  /** The cast to `numeric(18,4)`. */
  function Round4(x: real): real { Units(x) as real / 10000.0 }

  lemma FloorMonotone(x: real, y: real)
    requires x <= y
    ensures x.Floor <= y.Floor
  {}

  lemma Round4Monotone(x: real, y: real)
    requires x <= y
    ensures Round4(x) <= Round4(y)
  {
    if x >= 0.0 {
      FloorMonotone(x * 10000.0 + 0.5, y * 10000.0 + 0.5);
    } else if y < 0.0 {
      FloorMonotone(0.5 - y * 10000.0, 0.5 - x * 10000.0);
    } else {
      FloorMonotone(0.5, 0.5 - x * 10000.0);
      FloorMonotone(0.5, y * 10000.0 + 0.5);
    }
    UnitsOrdered(Units(x), Units(y));
  }

  lemma UnitsOrdered(m: int, n: int)
    requires m <= n
    ensures m as real / 10000.0 <= n as real / 10000.0
  {}

  function RoundBar(b: Bar): Bar {
    b.(open := Round4(b.open), high := Round4(b.high), low := Round4(b.low), close := Round4(b.close))
  }

  function RoundAll(xs: seq<Bar>): seq<Bar> {
    seq(|xs|, i requires 0 <= i < |xs| => RoundBar(xs[i]))
  }

  lemma RoundMerge(a: Bar, x: Bar)
    ensures RoundBar(Merge(a, x)) == Merge(RoundBar(a), RoundBar(x))
  {
    Round4Monotone(Min(a.high, x.high), Max(a.high, x.high));
    Round4Monotone(Min(a.low, x.low), Max(a.low, x.low));
  }

  lemma RoundExtend(w: int, bars: seq<Bar>, x: Bar)
    requires w > 0
    ensures Extend(w, RoundAll(bars), RoundBar(x)) == RoundAll(Extend(w, bars, x))
  {
    if bars != [] {
      RoundMerge(bars[|bars| - 1], x);
    }
  }

  /** Rounding the source prices or rounding the aggregated bars gives the same table. */
  lemma {:induction false} RoundingCommutes(w: int, xs: seq<Bar>)
    requires w > 0
    ensures Bars(w, RoundAll(xs)) == RoundAll(Bars(w, xs))
  {
    if xs != [] {
      var ys, x := xs[..|xs| - 1], xs[|xs| - 1];
      RoundingCommutes(w, ys);
      assert RoundAll(xs)[..|xs| - 1] == RoundAll(ys);
      RoundExtend(w, Bars(w, ys), x);
    }
  }

  predicate Enveloped(b: Bar) { b.low <= b.open <= b.high && b.low <= b.close <= b.high }

  /** Aggregation keeps open and close between low and high. */
  lemma {:induction false} EnvelopeKept(w: int, xs: seq<Bar>)
    requires w > 0 && forall x :: x in xs ==> Enveloped(x)
    ensures forall b :: b in Bars(w, xs) ==> Enveloped(b)
  {
    if xs != [] {
      var ys, x := xs[..|xs| - 1], xs[|xs| - 1];
      EnvelopeKept(w, ys);
      var bars := Bars(w, ys);
      assert x in xs && forall y :: y in ys ==> y in xs;
      assert bars != [] ==> bars[|bars| - 1] in bars;
    }
  }

  function SumWeightedClose(xs: seq<Bar>): real {
    if xs == [] then 0.0 else SumWeightedClose(xs[..|xs| - 1]) + xs[|xs| - 1].close * xs[|xs| - 1].volume as real
  }

  function SumClose(xs: seq<Bar>): real {
    if xs == [] then 0.0 else SumClose(xs[..|xs| - 1]) + xs[|xs| - 1].close
  }

  /** The volume-weighted mean close, or the plain mean where there is no volume. */
  function Vwap(xs: seq<Bar>): real
    requires xs != []
  {
    if SumVolume(xs) > 0 then SumWeightedClose(xs) / SumVolume(xs) as real
    else SumClose(xs) / |xs| as real
  }

  /** `s` is a sum of values between `lo` and `hi` of total weight `v`. */
  ghost predicate Between(lo: real, hi: real, v: real, s: real) { lo * v <= s && s <= hi * v }

  lemma {:induction false} WeightedSumBounded(xs: seq<Bar>, lo: real, hi: real)
    requires forall x :: x in xs ==> lo <= x.close <= hi && x.volume >= 0
    ensures Between(lo, hi, SumVolume(xs) as real, SumWeightedClose(xs))
  {
    if xs != [] {
      var ys, x := xs[..|xs| - 1], xs[|xs| - 1];
      WeightedSumBounded(ys, lo, hi);
      assert x in xs;
      WeightedStep(lo, x.close, hi, x.volume as real, SumVolume(ys) as real, SumWeightedClose(ys));
    }
  }

  lemma {:induction false} PlainSumBounded(xs: seq<Bar>, lo: real, hi: real)
    requires forall x :: x in xs ==> lo <= x.close <= hi
    ensures Between(lo, hi, |xs| as real, SumClose(xs))
  {
    if xs != [] {
      var ys, x := xs[..|xs| - 1], xs[|xs| - 1];
      PlainSumBounded(ys, lo, hi);
      assert x in xs;
      WeightedStep(lo, x.close, hi, 1.0, |ys| as real, SumClose(ys));
    }
  }

  lemma WeightedStep(lo: real, c: real, hi: real, f: real, v: real, s: real)
    requires lo <= c <= hi && f >= 0.0 && Between(lo, hi, v, s)
    ensures Between(lo, hi, v + f, s + c * f)
  {
    Scale(lo, c, f);
    Scale(c, hi, f);
    assert lo * (v + f) == lo * v + lo * f && hi * (v + f) == hi * v + hi * f;
  }

  lemma Scale(x: real, y: real, f: real)
    requires x <= y && f >= 0.0
    ensures x * f <= y * f
  {}

  lemma Positive(x: real, f: real)
    requires f > 0.0
    ensures x > 0.0 ==> x * f > 0.0
  {}

  lemma DivBounds(s: real, n: real, lo: real, hi: real)
    requires n > 0.0 && Between(lo, hi, n, s)
    ensures lo <= s / n <= hi
  {
    var q := s / n;
    assert q * n == s;
    Positive(lo - q, n);
    Positive(q - hi, n);
  }

  lemma {:induction false} ClosesWithin(xs: seq<Bar>)
    requires xs != [] && forall x :: x in xs ==> Enveloped(x)
    ensures forall x :: x in xs ==> MinLow(xs) <= x.low && x.high <= MaxHigh(xs)
  {
    if |xs| > 1 {
      var ys := xs[..|xs| - 1];
      assert forall y :: y in ys ==> y in xs;
      ClosesWithin(ys);
      assert xs == ys + [xs[|xs| - 1]];
    }
  }

  /** With volumes that are not negative, the vwap of a bucket lies between its low and its high. */
  lemma VwapWithinRange(xs: seq<Bar>)
    requires xs != [] && forall x :: x in xs ==> Enveloped(x) && x.volume >= 0
    ensures MinLow(xs) <= Vwap(xs) <= MaxHigh(xs)
  {
    ClosesWithin(xs);
    var lo, hi := MinLow(xs), MaxHigh(xs);
    forall x | x in xs ensures lo <= x.close <= hi && x.volume >= 0 {
      assert Enveloped(x);
    }
    VwapBetween(xs, lo, hi);
  }

  lemma VwapBetween(xs: seq<Bar>, lo: real, hi: real)
    requires xs != [] && forall x :: x in xs ==> lo <= x.close <= hi && x.volume >= 0
    ensures lo <= Vwap(xs) <= hi
  {
    WeightedSumBounded(xs, lo, hi);
    PlainSumBounded(xs, lo, hi);
    if SumVolume(xs) > 0 {
      DivBounds(SumWeightedClose(xs), SumVolume(xs) as real, lo, hi);
    } else {
      DivBounds(SumClose(xs), |xs| as real, lo, hi);
    }
  }

  /** The sum of the distances of the closes from `c`, weighted by volume. */
  function WeightedDistance(xs: seq<Bar>, c: real): real {
    if xs == [] then 0.0
    else WeightedDistance(xs[..|xs| - 1], c) + (xs[|xs| - 1].close - c) * xs[|xs| - 1].volume as real
  }

  lemma {:induction false} WeightedDistanceIs(xs: seq<Bar>, c: real)
    ensures WeightedDistance(xs, c) == SumWeightedClose(xs) - c * SumVolume(xs) as real
  {
    if xs != [] {
      var ys, x := xs[..|xs| - 1], xs[|xs| - 1];
      WeightedDistanceIs(ys, c);
      DistanceStep(c, x.close, x.volume as real, SumVolume(ys) as real);
    }
  }

  lemma DistanceStep(c: real, close: real, f: real, v: real)
    ensures (close - c) * f - c * v == close * f - c * (v + f)
  {}

  lemma QuotientAgainst(s: real, n: real, c: real)
    requires n > 0.0
    ensures s / n < c <==> s - c * n < 0.0
    ensures s / n > c <==> s - c * n > 0.0
  {
    var q := s / n;
    assert q * n == s;
    assert s - c * n == (q - c) * n;
    Positive(q - c, n);
    Positive(c - q, n);
  }

  /**
   * Whatever the volumes: where they add up to more than 0, the vwap lies below the bucket's low (above
   * its high) exactly if the distances of the closes from it, weighted by volume, add up to less (more) than 0.
   */
  lemma VwapEscapesIff(xs: seq<Bar>)
    requires xs != [] && SumVolume(xs) > 0
    ensures Vwap(xs) < MinLow(xs) <==> WeightedDistance(xs, MinLow(xs)) < 0.0
    ensures Vwap(xs) > MaxHigh(xs) <==> WeightedDistance(xs, MaxHigh(xs)) > 0.0
  {
    WeightedDistanceIs(xs, MinLow(xs));
    WeightedDistanceIs(xs, MaxHigh(xs));
    QuotientAgainst(SumWeightedClose(xs), SumVolume(xs) as real, MinLow(xs));
    QuotientAgainst(SumWeightedClose(xs), SumVolume(xs) as real, MaxHigh(xs));
  }

  /** A negative volume can take the vwap out of the range of the bucket. */
  lemma NegativeVolumeEscapes()
    ensures var xs := [Bar(0, 10.0, 10.0, 10.0, 10.0, 3, 1), Bar(1, 20.0, 20.0, 20.0, 20.0, -1, 1)];
            Vwap(xs) < MinLow(xs)
  {
    var x, y := Bar(0, 10.0, 10.0, 10.0, 10.0, 3, 1), Bar(1, 20.0, 20.0, 20.0, 20.0, -1, 1);
    var xs := [x, y];
    assert xs[..1] == [x] && [x][..0] == [];
    assert SumVolume([x]) == 3 && SumWeightedClose([x]) == 30.0;
    assert SumVolume(xs) == 2 && SumWeightedClose(xs) == 10.0;
  }
}
