/**
 * One run's pages over a year listed by day: which rows they fetch, when every answer may list the
 * rows of a day in another order. A row is known by its place in the list.
 */
module MigrationPaging {
  import opened Migration

  // ------------------------------------------------------------------------------------------
  // Answers list every row, each where its day stands

  function SetOf(xs: seq<nat>): set<nat> { set x | x in xs }

  lemma {:induction false} DistinctCount(xs: seq<nat>)
    requires Distinct(xs)
    ensures |SetOf(xs)| == |xs|
  {
    if xs != [] {
      var init, last := xs[..|xs| - 1], xs[|xs| - 1];
      DistinctCount(init);
      assert SetOf(xs) == SetOf(init) + {last};
      assert last !in SetOf(init);
    }
  }

  lemma {:induction false} RangeCount(s: set<nat>, lo: nat, hi: nat)
    requires lo <= hi && forall x :: x in s ==> lo <= x < hi
    ensures |s| <= hi - lo
    decreases hi - lo
  {
    if lo == hi {
      assert s == {};
    } else {
      var t := s - {hi - 1};
      RangeCount(t, lo, hi - 1);
      assert s <= t + {hi - 1};
      assert |s| <= |t| + 1;
    }
  }

  /** Distinct places of a range are no more than the range. */
  lemma Pigeonhole(xs: seq<nat>, lo: nat, hi: nat)
    requires lo <= hi && Distinct(xs) && forall i :: 0 <= i < |xs| ==> lo <= xs[i] < hi
    ensures |xs| <= hi - lo
  {
    DistinctCount(xs);
    RangeCount(SetOf(xs), lo, hi);
  }

  /** Every place is in the answer. */
  lemma FindPlace(n: nat, order: seq<nat>, p: nat) returns (i: nat)
    requires |order| == n && Within(order, n) && Distinct(order) && p < n
    ensures i < n && order[i] == p
  {
    if forall k :: 0 <= k < n ==> order[k] != p {
      var moved := seq(n, k requires 0 <= k < n => if order[k] == n - 1 then p else order[k]);
      forall j, k | 0 <= j < k < n ensures moved[j] != moved[k] {
        assert order[j] != order[k];
      }
      Pigeonhole(moved, 0, n - 1);
    }
    i :| 0 <= i < n && order[i] == p;
  }

  /** A place of the answer is taken by a row of the day that stands there in the list. */
  lemma DayAt(rest: seq<Row>, order: seq<nat>, i: nat)
    requires ByDay(rest) && DayOrder(rest, order) && i < |rest|
    ensures rest[order[i]].day == rest[i].day
  {
    if rest[order[i]].day < rest[i].day {
      forall k | 0 <= k <= i ensures order[k] < i {
        assert rest[order[k]].day <= rest[order[i]].day;
      }
      Pigeonhole(order[..i + 1], 0, i);
    } else if rest[order[i]].day > rest[i].day {
      forall k | i <= k < |order| ensures order[k] > i {
        assert rest[order[k]].day >= rest[order[i]].day;
      }
      Pigeonhole(order[i..], i + 1, |rest|);
    }
  }

  // ------------------------------------------------------------------------------------------
  // Page boundaries

  /** From `from` on, the run fetches a page at offset `o`. */
  predicate FetchesAt(length: nat, pending: nat, batch: nat, pages: nat, from: nat, o: nat)
    decreases pages
  {
    pages > 0 && from < pending && from < length &&
    (o == from || FetchesAt(length, pending, batch, pages - 1, PageEnd(length, batch, from), o))
  }

  /** The offset falls between two rows of one day. */
  predicate SplitsDay(rest: seq<Row>, o: nat) {
    0 < o < |rest| && rest[o - 1].day == rest[o].day
  }

  /** Some page after the first begins inside a day. */
  ghost predicate PageSplitsDay(rest: seq<Row>, pending: nat, batch: nat, pages: nat) {
    exists o :: FetchesAt(|rest|, pending, batch, pages, 0, o) && SplitsDay(rest, o)
  }

  lemma {:induction false} FetchesBeyond(length: nat, pending: nat, batch: nat, pages: nat, from: nat, o: nat)
    requires batch > 0 && FetchesAt(length, pending, batch, pages, from, o)
    ensures from <= o < StopAt(length, pending, batch, pages, from)
    decreases pages
  {
    var end := PageEnd(length, batch, from);
    if o == from {
      StopsBeyond(length, pending, batch, pages - 1, end);
    } else {
      FetchesBeyond(length, pending, batch, pages - 1, end, o);
    }
  }

  lemma {:induction false} StopsBeyond(length: nat, pending: nat, batch: nat, pages: nat, from: nat)
    requires from <= length
    ensures from <= StopAt(length, pending, batch, pages, from) <= length
    decreases pages
  {
    if pages > 0 && from < pending && from < length {
      StopsBeyond(length, pending, batch, pages - 1, PageEnd(length, batch, from));
    }
  }

  /** No page after `from` begins inside a day, nor does the page at `from`. */
  ghost predicate Clean(rest: seq<Row>, pending: nat, batch: nat, pages: nat, from: nat) {
    forall o :: FetchesAt(|rest|, pending, batch, pages, from, o) ==> !SplitsDay(rest, o)
  }

  /** A page that begins and ends between days fetches the rows of its stretch; a last one, rows not before it. */
  lemma PageStays(rest: seq<Row>, order: seq<nat>, from: nat, end: nat, i: nat)
    requires ByDay(rest) && DayOrder(rest, order) && from <= i < end <= |rest|
    ensures !SplitsDay(rest, from) ==> from <= order[i]
    ensures !SplitsDay(rest, end) ==> order[i] < end
  {
    DayAt(rest, order, i);
    assert from <= i ==> rest[from].day <= rest[i].day;
  }

  /** Where no page begins inside a day, whatever the answers, no row is fetched twice. */
  lemma {:induction false} CleanFetchesOnce(rest: seq<Row>, orders: Orders, pending: nat, batch: nat, pages: nat,
                                            from: nat)
    requires ByDay(rest) && Answers(rest, orders) && batch > 0 && from <= |rest|
    requires Clean(rest, pending, batch, pages, from)
    ensures var places := Gather(orders, |rest|, pending, batch, pages, from);
            Distinct(places) && forall k :: 0 <= k < |places| ==> from <= places[k]
    decreases pages
  {
    if pages > 0 && from < pending && from < |rest| {
      var end := PageEnd(|rest|, batch, from);
      assert FetchesAt(|rest|, pending, batch, pages, from, from) && DayOrder(rest, orders(from));
      assert forall o :: FetchesAt(|rest|, pending, batch, pages - 1, end, o)
                         ==> FetchesAt(|rest|, pending, batch, pages, from, o);
      CleanFetchesOnce(rest, orders, pending, batch, pages - 1, end);
      var page, more := orders(from)[from..end], Gather(orders, |rest|, pending, batch, pages - 1, end);
      if more != [] { assert FetchesAt(|rest|, pending, batch, pages - 1, end, end); }
      forall k | 0 <= k < |page| ensures from <= page[k] && (more != [] ==> page[k] < end) {
        PageStays(rest, orders(from), from, end, from + k);
      }
      JoinDistinct(page, more, end);
    }
  }

  lemma JoinDistinct(a: seq<nat>, b: seq<nat>, m: nat)
    requires Distinct(a) && Distinct(b) && forall k :: 0 <= k < |b| ==> m <= b[k]
    requires b != [] ==> forall k :: 0 <= k < |a| ==> a[k] < m
    ensures Distinct(a + b)
  {
    var c := a + b;
    forall i, j | 0 <= i < j < |c| ensures c[i] != c[j] {
      if j >= |a| { assert c[j] == b[j - |a|]; }
    }
  }

  // ------------------------------------------------------------------------------------------
  // Where a page begins inside a day

  /** The list's own order. */
  function InListOrder(n: nat): seq<nat> { seq(n, i => i) }

  /** The list's order with the two places at the offset exchanged. */
  function Exchanged(n: nat, o: nat): seq<nat> {
    seq(n, i => if i + 1 == o then o else if i == o && o > 0 then o - 1 else i)
  }

  /** Every answer in the list's order, but for that at `o`. */
  function ExchangedAt(n: nat, o: nat): Orders {
    (offset: nat) => if offset == o then Exchanged(n, o) else InListOrder(n)
  }

  lemma ListOrderAnswers(rest: seq<Row>)
    requires ByDay(rest)
    ensures DayOrder(rest, InListOrder(|rest|))
  {}

  lemma ExchangedAnswers(rest: seq<Row>, o: nat)
    requires ByDay(rest) && SplitsDay(rest, o)
    ensures Answers(rest, ExchangedAt(|rest|, o))
  {
    ListOrderAnswers(rest);
    ExchangedIsDayOrder(rest, o);
  }

  lemma ExchangedIsDayOrder(rest: seq<Row>, o: nat)
    requires ByDay(rest) && SplitsDay(rest, o)
    ensures DayOrder(rest, Exchanged(|rest|, o))
  {
    var x := Exchanged(|rest|, o);
    forall i | 0 <= i < |x| ensures x[i] < |rest| && rest[x[i]].day == rest[i].day {}
    forall i, j | 0 <= i < j < |x| ensures x[i] != x[j] && rest[x[i]].day <= rest[x[j]].day {
      assert rest[i].day <= rest[j].day;
    }
  }

  /** The row before the boundary is fetched on both sides of it. */
  lemma {:induction false} FetchedOnBothSides(n: nat, pending: nat, batch: nat, pages: nat, from: nat, o: nat)
    requires batch > 0 && from < o < n && FetchesAt(n, pending, batch, pages, from, o)
    ensures !Distinct(Gather(ExchangedAt(n, o), n, pending, batch, pages, from))
    decreases pages
  {
    var orders, end := ExchangedAt(n, o), PageEnd(n, batch, from);
    assert orders(from) == InListOrder(n) && |orders(from)| == n;
    var page, more := orders(from)[from..end], Gather(orders, n, pending, batch, pages - 1, end);
    assert Gather(orders, n, pending, batch, pages, from) == page + more;
    assert FetchesAt(n, pending, batch, pages - 1, end, o);
    FetchesBeyond(n, pending, batch, pages - 1, end, o);
    if o == end {
      FirstOfPage(n, pending, batch, pages - 1, o);
      assert page[|page| - 1] == o - 1;
    } else {
      FetchedOnBothSides(n, pending, batch, pages - 1, end, o);
    }
    RepeatedJoin(page, more);
  }

  lemma RepeatedJoin(a: seq<nat>, b: seq<nat>)
    requires !Distinct(b) || (a != [] && b != [] && a[|a| - 1] == b[0])
    ensures !Distinct(a + b)
  {
    var c := a + b;
    if !Distinct(b) {
      var i, j :| 0 <= i < j < |b| && b[i] == b[j];
      assert c[|a| + i] == c[|a| + j];
    } else {
      assert c[|a| - 1] == c[|a|];
    }
  }

  lemma FirstOfPage(n: nat, pending: nat, batch: nat, pages: nat, o: nat)
    requires batch > 0 && 0 < o < n && pages > 0 && o < pending
    ensures var places := Gather(ExchangedAt(n, o), n, pending, batch, pages, o); places != [] && places[0] == o - 1
  {
    var orders, end := ExchangedAt(n, o), PageEnd(n, batch, o);
    assert orders(o) == Exchanged(n, o) && |orders(o)| == n && orders(o)[o] == o - 1;
    var page := orders(o)[o..end];
    assert Gather(orders, n, pending, batch, pages, o) == page + Gather(orders, n, pending, batch, pages - 1, end);
  }

  /**
   * The pages fetch each row at most once, whatever order each answer lists the rows of a day in,
   * exactly if no page after the first begins inside a day.
   */
  lemma FetchedOnceIff(rest: seq<Row>, pending: nat, batch: nat, pages: nat)
    requires ByDay(rest) && batch > 0
    ensures (forall orders :: Answers(rest, orders) ==> Distinct(Gather(orders, |rest|, pending, batch, pages, 0)))
            <==> !PageSplitsDay(rest, pending, batch, pages)
  {
    if PageSplitsDay(rest, pending, batch, pages) {
      var o :| FetchesAt(|rest|, pending, batch, pages, 0, o) && SplitsDay(rest, o);
      ExchangedAnswers(rest, o);
      FetchedOnBothSides(|rest|, pending, batch, pages, 0, o);
    } else {
      forall orders | Answers(rest, orders) ensures Distinct(Gather(orders, |rest|, pending, batch, pages, 0)) {
        CleanFetchesOnce(rest, orders, pending, batch, pages, 0);
      }
    }
  }

  // ------------------------------------------------------------------------------------------
  // What is left out

  /** A page of the run begins, or the run stops, inside this day. */
  ghost predicate DayIsSplit(rest: seq<Row>, pending: nat, batch: nat, pages: nat, from: nat, day: int) {
    exists o: nat :: (FetchesAt(|rest|, pending, batch, pages, from, o)
                      || o == StopAt(|rest|, pending, batch, pages, from))
                     && SplitsDay(rest, o) && rest[o].day == day
  }

  /** A row before the stop is fetched, unless a page begins or the run stops inside its day. */
  lemma {:induction false} FetchedUnlessSplit(rest: seq<Row>, orders: Orders, pending: nat, batch: nat, pages: nat,
                                              from: nat, p: nat)
    requires ByDay(rest) && Answers(rest, orders) && batch > 0
    requires from <= p < StopAt(|rest|, pending, batch, pages, from) <= |rest|
    ensures p in Gather(orders, |rest|, pending, batch, pages, from)
            || DayIsSplit(rest, pending, batch, pages, from, rest[p].day)
    decreases pages
  {
    var end := PageEnd(|rest|, batch, from);
    assert FetchesAt(|rest|, pending, batch, pages, from, from) && DayOrder(rest, orders(from));
    if p < end {
      var i := FindPlace(|rest|, orders(from), p);
      DayAt(rest, orders(from), i);
      if from <= i < end {
        assert orders(from)[from..end][i - from] == p;
      } else if i < from {
        SameDayBetween(rest, i, from, p);
      } else {
        SameDayBetween(rest, p, end, i);
        if end != StopAt(|rest|, pending, batch, pages, from) {
          assert FetchesAt(|rest|, pending, batch, pages - 1, end, end);
          assert FetchesAt(|rest|, pending, batch, pages, from, end);
        }
      }
    } else {
      FetchedUnlessSplit(rest, orders, pending, batch, pages - 1, end, p);
      if DayIsSplit(rest, pending, batch, pages - 1, end, rest[p].day) {
        var o: nat :| (FetchesAt(|rest|, pending, batch, pages - 1, end, o)
                       || o == StopAt(|rest|, pending, batch, pages - 1, end))
                      && SplitsDay(rest, o) && rest[o].day == rest[p].day;
        assert FetchesAt(|rest|, pending, batch, pages, from, o) || o == StopAt(|rest|, pending, batch, pages, from);
      }
    }
  }

  lemma SameDayBetween(rest: seq<Row>, i: nat, o: nat, j: nat)
    requires ByDay(rest) && i < o <= j < |rest| && rest[i].day == rest[j].day
    ensures SplitsDay(rest, o) && rest[o].day == rest[i].day
  {
    assert rest[i].day <= rest[o - 1].day <= rest[o].day <= rest[j].day;
  }
}
