/** What one run copies of a year, row by row. */
module MigrationSteps {
  import opened Division
  import opened Migration

  // ------------------------------------------------------------------------------------------
  // How far the pages come

  /**
   * `s` rows came in `n` pages: full ones but for the last, none empty, none begun at or past `pending`;
   * and they are at most `pages`, fewer only where the list or what was looked for is exhausted.
   */
  predicate ComesTo(length: nat, pending: nat, batch: nat, pages: nat, n: nat, s: nat) {
    && n <= pages && s == (if n * batch <= length then n * batch else length)
    && (n > 0 ==> (n - 1) * batch < length && (n - 1) * batch < pending)
    && (n == pages || s >= pending || s == length)
  }

  lemma MadeIs(length: nat, batch: nat, n: nat, s: nat)
    ensures PagesMade(length, batch, n, s) <==>
              (n > 0 ==> (n - 1) * batch < length) && s == if n * batch <= length then n * batch else length
  {
    FullIs(n, batch);
    if n > 0 { FullIs(n - 1, batch); }
  }

  lemma {:induction false} StopComesTo(length: nat, pending: nat, batch: nat, pages: nat, n: nat, offset: nat)
    returns (m: nat)
    requires batch > 0 && PagesMade(length, batch, n, offset) && (n > 0 ==> Full(n - 1, batch) < pending)
    ensures var s := StopAt(length, pending, batch, pages, offset);
            && n <= m <= n + pages && PagesMade(length, batch, m, s) && (m > 0 ==> Full(m - 1, batch) < pending)
            && (m == n + pages || s >= pending || s == length)
    decreases pages
  {
    m := n;
    if pages > 0 && offset < pending && offset < length {
      OnePageMore(length, batch, n, offset);
      m := StopComesTo(length, pending, batch, pages - 1, n + 1, PageEnd(length, batch, offset));
    }
  }

  /** The pages come just that far. */
  lemma StopIs(length: nat, pending: nat, batch: nat, pages: nat) returns (n: nat)
    requires batch > 0
    ensures ComesTo(length, pending, batch, pages, n, StopAt(length, pending, batch, pages, 0))
  {
    n := StopComesTo(length, pending, batch, pages, 0, 0);
    MadeIs(length, batch, n, StopAt(length, pending, batch, pages, 0));
    if n > 0 { FullIs(n - 1, batch); }
  }

  // ------------------------------------------------------------------------------------------
  // Which places they fetch

  /** The page at offset `o`, a multiple of the page size, holds position `i`, and its answer lists place `p` there. */
  predicate OnPage(orders: Orders, batch: nat, o: nat, i: nat, p: nat)
    requires batch > 0
  {
    o % batch == 0 && o <= i < o + batch && i < |orders(o)| && orders(o)[i] == p
  }

  lemma {:induction false} GatherFrom(rest: seq<Row>, orders: Orders, pending: nat, batch: nat, pages: nat, n: nat,
                                      offset: nat, i: nat, at: nat) returns (o: nat)
    requires batch > 0 && Answers(rest, orders) && PagesMade(|rest|, batch, n, offset)
    requires i < |Gather(orders, |rest|, pending, batch, pages, offset)| && at == offset + i
    ensures OnPage(orders, batch, o, at, Gather(orders, |rest|, pending, batch, pages, offset)[i])
    decreases pages
  {
    var end := PageEnd(|rest|, batch, offset);
    OnePageMore(|rest|, batch, n, offset);
    assert DayOrder(rest, orders(offset));
    var page, more := orders(offset)[offset..end], Gather(orders, |rest|, pending, batch, pages - 1, end);
    assert Gather(orders, |rest|, pending, batch, pages, offset) == page + more;
    if i < |page| {
      o := offset;
      FullDivides(n, batch);
      assert (page + more)[i] == orders(offset)[at];
    } else {
      o := GatherFrom(rest, orders, pending, batch, pages - 1, n + 1, end, i - |page|, at);
      assert (page + more)[i] == more[i - |page|];
    }
  }

  lemma FullDivides(n: nat, batch: nat)
    requires batch > 0
    ensures Full(n, batch) % batch == 0
  {
    FullIs(n, batch);
    DivUnique(Full(n, batch), batch, n, 0);
  }

  // ------------------------------------------------------------------------------------------
  // The year

  /** The rows of the source of a day after all days in the destination. */
  function Rest(source: seq<Row>, dest: seq<Row>): seq<Row> {
    if source == [] then []
    else
      (if forall r :: r in dest ==> r.day < source[0].day then [source[0]] else []) + Rest(source[1..], dest)
  }

  lemma {:induction false} RestIs(source: seq<Row>, dest: seq<Row>)
    ensures Rest(source, dest) == Remaining(source, dest)
  {
    if source != [] {
      RestIs(source[1..], dest);
      if dest == [] { assert source == [source[0]] + source[1..]; }
    }
  }

  ghost predicate WholePages(length: nat, pending: nat, batch: nat, pages: nat, k: nat) {
    exists n :: ComesTo(length, pending, batch, pages, n, k)
  }

  /** The row is the one that the page at position `i` lists there. */
  ghost predicate Lists(rest: seq<Row>, orders: Orders, batch: nat, i: nat, r: Row)
    requires batch > 0
  {
    exists o, p: nat :: OnPage(orders, batch, o, i, p) && p < |rest| && rest[p] == r
  }

  /**
   * Where the destination counts fewer rows than the source, it gains rows of the rest: as many as whole pages
   * come to, each the one that the page it is on lists at its position.
   */
  ghost predicate Gains(source: seq<Row>, dest: seq<Row>, orders: Orders, batch: nat, pages: nat, after: seq<Row>)
    requires batch > 0
  {
    var rest, d := Rest(source, dest), |dest|;
    && dest <= after
    && (if d >= |source| then after == dest else WholePages(|rest|, |source| - d, batch, pages, |after| - d))
    && forall i :: d <= i < |after| ==> Lists(rest, orders, batch, i - d, after[i])
  }

  lemma GatherLists(rest: seq<Row>, orders: Orders, pending: nat, batch: nat, pages: nat, i: nat)
    requires batch > 0 && Answers(rest, orders) && i < |Gather(orders, |rest|, pending, batch, pages, 0)|
    ensures var p := Gather(orders, |rest|, pending, batch, pages, 0)[i];
            p < |rest| && Lists(rest, orders, batch, i, rest[p])
  {
    GatherBounds(rest, orders, pending, batch, pages, 0);
    var o := GatherFrom(rest, orders, pending, batch, pages, 0, 0, i, i);
  }

  lemma PagesList(dest: seq<Row>, rest: seq<Row>, orders: Orders, pending: nat, batch: nat, pages: nat,
                  places: seq<nat>, i: int)
    requires batch > 0 && Answers(rest, orders) && places == Gather(orders, |rest|, pending, batch, pages, 0)
    requires Within(places, |rest|) && |dest| <= i < |dest| + |places|
    ensures Lists(rest, orders, batch, i - |dest|, (dest + Pick(rest, places))[i])
  {
    GatherLists(rest, orders, pending, batch, pages, i - |dest|);
  }

  lemma PagesAreWhole(rest: seq<Row>, orders: Orders, pending: nat, batch: nat, pages: nat, k: int)
    requires batch > 0 && Answers(rest, orders) && k == |Gather(orders, |rest|, pending, batch, pages, 0)|
    ensures WholePages(|rest|, pending, batch, pages, k)
  {
    GatherBounds(rest, orders, pending, batch, pages, 0);
    var n := StopIs(|rest|, pending, batch, pages);
  }

  /** So does the model's run. */
  lemma RunYearGains(source: seq<Row>, dest: seq<Row>, orders: Orders, batch: nat, pages: nat)
    requires batch > 0 && Answers(Remaining(source, dest), orders)
    ensures Gains(source, dest, orders, batch, pages, RunYear(source, dest, orders, batch, pages))
  {
    var rest, pending := Rest(source, dest), |source| - |dest|;
    RestIs(source, dest);
    FetchedBounds(rest, |source|, |dest|, orders, batch, pages);
    if |dest| < |source| {
      var places := Gather(orders, |rest|, pending, batch, pages, 0);
      var after := dest + Pick(rest, places);
      PagesAreWhole(rest, orders, pending, batch, pages, |after| - |dest|);
      forall i | |dest| <= i < |after| ensures Lists(rest, orders, batch, i - |dest|, after[i]) {
        PagesList(dest, rest, orders, pending, batch, pages, places, i);
      }
    }
  }
}
