/** What an aggregated row says of the rows of its bucket. */
module BarMeanings {
  import opened Division
  import opened OhlcBars
  import opened OhlcPrices

  // ------------------------------------------------------------------------------------------
  // The rows of a bucket

  /** The row's time lies in the `w` units from `b` on. */
  predicate Inside(w: int, b: int, x: Bar) { b <= x.time < b + w }

  ghost predicate FirstInside(w: int, b: int, xs: seq<Bar>, i: nat) {
    i < |xs| && Inside(w, b, xs[i]) && forall j :: 0 <= j < i ==> !Inside(w, b, xs[j])
  }

  ghost predicate LastInside(w: int, b: int, xs: seq<Bar>, i: nat) {
    i < |xs| && Inside(w, b, xs[i]) && forall j :: i < j < |xs| ==> !Inside(w, b, xs[j])
  }

  function VolumeInside(w: int, b: int, xs: seq<Bar>): int {
    if xs == [] then 0 else VolumeInside(w, b, xs[..|xs| - 1])
                            + if Inside(w, b, xs[|xs| - 1]) then xs[|xs| - 1].volume else 0
  }

  function TradesInside(w: int, b: int, xs: seq<Bar>): int {
    if xs == [] then 0 else TradesInside(w, b, xs[..|xs| - 1])
                            + if Inside(w, b, xs[|xs| - 1]) then xs[|xs| - 1].trades else 0
  }

  /** The bar spans the rows: their first open, greatest high, least low, last close, and sums. */
  ghost predicate Spans(w: int, b: int, xs: seq<Bar>, bar: Bar) {
    && bar.time == b && bar.volume == VolumeInside(w, b, xs) && bar.trades == TradesInside(w, b, xs)
    && (exists i: nat :: FirstInside(w, b, xs, i) && bar.open == xs[i].open)
    && (exists i: nat :: LastInside(w, b, xs, i) && bar.close == xs[i].close)
    && (exists x :: x in xs && Inside(w, b, x) && bar.high == x.high)
    && (exists x :: x in xs && Inside(w, b, x) && bar.low == x.low)
    && (forall x :: x in xs && Inside(w, b, x) ==> bar.low <= x.low && x.high <= bar.high)
  }

  /** `b` is a multiple of the width, and `t` lies in the bucket it starts. */
  lemma BucketIs(w: int, t: int, b: int)
    requires w > 0
    ensures Bucket(w, t) == b <==> b % w == 0 && b <= t < b + w
  {
    BucketMonotone(w, t, t);
    BucketAfterBoundary(w, 0, t);
    Multiple(w, t);
    if b % w == 0 && b <= t < b + w {
      SameMultiple(w, Bucket(w, t), b);
    }
  }

  lemma Multiple(w: int, t: int)
    requires w > 0
    ensures Bucket(w, t) % w == 0
  {
    DivUnique(Bucket(w, t), w, t / w, 0);
  }

  lemma SameMultiple(w: int, a: int, b: int)
    requires w > 0 && a % w == 0 && b % w == 0 && -w < a - b < w
    ensures a == b
  {
    MulStep(w, a / w, b / w);
    MulStep(w, b / w, a / w);
  }

  lemma {:induction false} GroupIs(w: int, b: int, xs: seq<Bar>)
    requires w > 0 && b % w == 0
    ensures forall x :: x in Group(w, b, xs) <==> x in xs && Inside(w, b, x)
  {
    if xs != [] {
      var ys, x := xs[..|xs| - 1], xs[|xs| - 1];
      GroupIs(w, b, ys);
      BucketIs(w, x.time, b);
      GroupSnoc(w, b, ys, x);
      MembersSnoc(ys, x, xs);
    }
  }

  lemma MembersSnoc(ys: seq<Bar>, x: Bar, xs: seq<Bar>)
    requires xs != [] && ys == xs[..|xs| - 1] && x == xs[|xs| - 1]
    ensures xs == ys + [x] && forall y :: y in xs <==> y in ys || y == x
  {
    assert xs == ys + [x];
  }

  lemma {:induction false} GroupAddsUp(w: int, b: int, xs: seq<Bar>)
    requires w > 0 && b % w == 0
    ensures SumVolume(Group(w, b, xs)) == VolumeInside(w, b, xs)
    ensures SumTrades(Group(w, b, xs)) == TradesInside(w, b, xs)
  {
    if xs != [] {
      var ys, x := xs[..|xs| - 1], xs[|xs| - 1];
      GroupAddsUp(w, b, ys);
      BucketIs(w, x.time, b);
      MembersSnoc(ys, x, xs);
      GroupSnoc(w, b, ys, x);
      SumsSnoc(Group(w, b, ys), x);
    }
  }

  lemma {:induction false} GroupStarts(w: int, b: int, xs: seq<Bar>) returns (i: nat)
    requires w > 0 && b % w == 0 && Group(w, b, xs) != []
    ensures FirstInside(w, b, xs, i) && Group(w, b, xs)[0] == xs[i]
  {
    var ys, x := xs[..|xs| - 1], xs[|xs| - 1];
    BucketIs(w, x.time, b);
    if Group(w, b, ys) != [] {
      i := GroupStarts(w, b, ys);
    } else {
      i := |xs| - 1;
      GroupIs(w, b, ys);
      assert forall j :: 0 <= j < i ==> xs[j] in ys;
    }
  }

  lemma {:induction false} GroupStops(w: int, b: int, xs: seq<Bar>) returns (i: nat)
    requires w > 0 && b % w == 0 && Group(w, b, xs) != []
    ensures LastInside(w, b, xs, i) && Group(w, b, xs)[|Group(w, b, xs)| - 1] == xs[i]
  {
    var ys, x := xs[..|xs| - 1], xs[|xs| - 1];
    BucketIs(w, x.time, b);
    if Inside(w, b, x) {
      i := |xs| - 1;
    } else {
      i := GroupStops(w, b, ys);
    }
  }

  lemma {:induction false} ExtremesAre(g: seq<Bar>)
    requires g != []
    ensures exists x :: x in g && MaxHigh(g) == x.high
    ensures exists x :: x in g && MinLow(g) == x.low
    ensures forall x :: x in g ==> MinLow(g) <= x.low && x.high <= MaxHigh(g)
  {
    if |g| > 1 {
      var h := g[..|g| - 1];
      ExtremesAre(h);
      assert g == h + [g[|g| - 1]];
      assert forall x :: x in h ==> x in g;
      assert g[|g| - 1] in g;
    } else {
      assert g[0] in g;
    }
  }

  /** A bucket has a row exactly if rows lie in it, and that row spans them. */
  lemma GroupRowSpans(w: int, b: int, xs: seq<Bar>)
    requires w > 0
    ensures b in Buckets(w, xs) <==> b % w == 0 && exists x :: x in xs && Inside(w, b, x)
    ensures b in Buckets(w, xs) ==> Spans(w, b, xs, GroupRow(w, b, xs))
  {
    forall x: Bar ensures Bucket(w, x.time) == b <==> b % w == 0 && Inside(w, b, x) { BucketIs(w, x.time, b); }
    if b in Buckets(w, xs) {
      GroupNonEmpty(w, b, xs);
      GroupIs(w, b, xs);
      GroupAddsUp(w, b, xs);
      var i := GroupStarts(w, b, xs);
      var j := GroupStops(w, b, xs);
      ExtremesAre(Group(w, b, xs));
    }
  }

  // ------------------------------------------------------------------------------------------
  // The weighted mean

  /** The sum of `f` over the rows in a bucket. */
  function SumInside(f: Bar -> real, w: int, b: int, xs: seq<Bar>): real {
    if xs == [] then 0.0 else SumInside(f, w, b, xs[..|xs| - 1])
                              + if Inside(w, b, xs[|xs| - 1]) then f(xs[|xs| - 1]) else 0.0
  }

  function SumOf(f: Bar -> real, xs: seq<Bar>): real {
    if xs == [] then 0.0 else SumOf(f, xs[..|xs| - 1]) + f(xs[|xs| - 1])
  }

  function CloseOf(x: Bar): real { x.close }

  function ValueOf(x: Bar): real { x.close * x.volume as real }

  function CountInside(w: int, b: int, xs: seq<Bar>): nat {
    if xs == [] then 0 else CountInside(w, b, xs[..|xs| - 1]) + if Inside(w, b, xs[|xs| - 1]) then 1 else 0
  }

  predicate IsQuotient(q: real, x: real, n: int) { n != 0 && q * n as real == x }

  /** The mean close of the rows in a bucket, weighted by volume where there is any. */
  predicate IsMeanInside(w: int, b: int, xs: seq<Bar>, mean: real) {
    if VolumeInside(w, b, xs) > 0 then IsQuotient(mean, SumInside(ValueOf, w, b, xs), VolumeInside(w, b, xs))
    else IsQuotient(mean, SumInside(CloseOf, w, b, xs), CountInside(w, b, xs))
  }

  lemma {:induction false} GroupSums(f: Bar -> real, w: int, b: int, xs: seq<Bar>)
    requires w > 0 && b % w == 0
    ensures SumOf(f, Group(w, b, xs)) == SumInside(f, w, b, xs)
    ensures |Group(w, b, xs)| == CountInside(w, b, xs)
  {
    if xs != [] {
      var ys, x := xs[..|xs| - 1], xs[|xs| - 1];
      GroupSums(f, w, b, ys);
      assert xs == ys + [x];
      BucketIs(w, x.time, b);
      GroupSnoc(w, b, ys, x);
      SumOfSnoc(f, Group(w, b, ys), x);
    }
  }

  lemma SumOfSnoc(f: Bar -> real, g: seq<Bar>, x: Bar)
    ensures SumOf(f, g + [x]) == SumOf(f, g) + f(x)
  {
    assert (g + [x])[..|g + [x]| - 1] == g;
  }

  lemma {:induction false} ClosesAre(g: seq<Bar>)
    ensures SumWeightedClose(g) == SumOf(ValueOf, g) && SumClose(g) == SumOf(CloseOf, g)
  {
    if g != [] { ClosesAre(g[..|g| - 1]); }
  }

  lemma VwapIsMean(w: int, b: int, xs: seq<Bar>)
    requires w > 0 && b in Buckets(w, xs)
    ensures Group(w, b, xs) != [] && IsMeanInside(w, b, xs, Vwap(Group(w, b, xs)))
  {
    GroupRowSpans(w, b, xs);
    GroupNonEmpty(w, b, xs);
    GroupAddsUp(w, b, xs);
    GroupSums(ValueOf, w, b, xs);
    GroupSums(CloseOf, w, b, xs);
    ClosesAre(Group(w, b, xs));
    VwapIs(Group(w, b, xs));
  }

  lemma VwapIs(g: seq<Bar>)
    requires g != []
    ensures if SumVolume(g) > 0 then IsQuotient(Vwap(g), SumWeightedClose(g), SumVolume(g))
            else IsQuotient(Vwap(g), SumClose(g), |g|)
  {
    if SumVolume(g) > 0 { QuotientIs(SumWeightedClose(g), SumVolume(g)); } else { QuotientIs(SumClose(g), |g|); }
  }

  lemma QuotientIs(x: real, n: int)
    requires n != 0
    ensures IsQuotient(x / n as real, x, n)
  {}
}
