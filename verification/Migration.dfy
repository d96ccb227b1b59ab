/** The paged copy of a table, year by year, that resumes after the last day it finds copied. */
module Migration {

  datatype Row = Row(year: int, day: int, content: string)

  /** The rows of one year, in table order. */
  function OfYear(rows: seq<Row>, year: int): seq<Row> {
    if rows == [] then []
    else
      var init, r := rows[..|rows| - 1], rows[|rows| - 1];
      if r.year == year then OfYear(init, year) + [r] else OfYear(init, year)
  }

  ghost predicate ByDay(rows: seq<Row>) {
    forall i, j :: 0 <= i < j < |rows| ==> rows[i].day <= rows[j].day
  }

  function LastDay(rows: seq<Row>): (d: int)
    requires rows != []
    ensures exists r :: r in rows && r.day == d
    ensures forall r :: r in rows ==> r.day <= d
  {
    var init, r := rows[..|rows| - 1], rows[|rows| - 1];
    assert rows == init + [r];
    if init == [] || LastDay(init) <= r.day then r.day else LastDay(init)
  }

  function Later(rows: seq<Row>, day: int): seq<Row> {
    if rows == [] then []
    else if rows[0].day > day then [rows[0]] + Later(rows[1..], day)
    else Later(rows[1..], day)
  }

  /** What a run still has to fetch of a year, given what the destination holds of it. */
  function Remaining(source: seq<Row>, dest: seq<Row>): seq<Row> {
    if dest == [] then source else Later(source, LastDay(dest))
  }

  // ------------------------------------------------------------------------------------------
  // Pages

  ghost predicate Distinct(xs: seq<nat>) {
    forall i, j :: 0 <= i < j < |xs| ==> xs[i] != xs[j]
  }

  predicate Within(xs: seq<nat>, n: nat) { forall i :: 0 <= i < |xs| ==> xs[i] < n }

  /**
   * An answer to ORDER BY day, as the places of the rows it lists: every row once, by day, the rows
   * of one day in any order.
   */
  ghost predicate DayOrder(rest: seq<Row>, order: seq<nat>) {
    && |order| == |rest| && Within(order, |rest|) && Distinct(order)
    && forall i, j :: 0 <= i < j < |order| ==> rest[order[i]].day <= rest[order[j]].day
  }

  /** What the database answers to the query of the page at each offset: each time in an order of its own. */
  type Orders = nat -> seq<nat>

  ghost predicate Answers(rest: seq<Row>, orders: Orders) {
    forall o: nat :: DayOrder(rest, orders(o))
  }

  function PageEnd(length: nat, batch: nat, offset: nat): nat {
    if offset + batch <= length then offset + batch else length
  }

  /** The offset at which the paging stops: at the expected count, at an empty page, or at a crash. */
  function StopAt(length: nat, pending: nat, batch: nat, pages: nat, offset: nat): nat
    decreases pages
  {
    if pages == 0 || offset >= pending || offset >= length then offset
    else StopAt(length, pending, batch, pages - 1, PageEnd(length, batch, offset))
  }

  /** What `n` full pages hold. */
  function Full(n: nat, batch: nat): nat { if n == 0 then 0 else Full(n - 1, batch) + batch }

  lemma {:induction false} FullIs(n: nat, batch: nat)
    ensures Full(n, batch) == n * batch
  {
    if n > 0 { FullIs(n - 1, batch); }
  }

  /** `n` pages were made, none of them empty, and they came to `offset`. */
  predicate PagesMade(length: nat, batch: nat, n: nat, offset: nat) {
    && (n > 0 ==> Full(n - 1, batch) < length)
    && offset == if Full(n, batch) <= length then Full(n, batch) else length
  }

  lemma OnePageMore(length: nat, batch: nat, n: nat, offset: nat)
    requires batch > 0 && PagesMade(length, batch, n, offset) && offset < length
    ensures offset == Full(n, batch) && PagesMade(length, batch, n + 1, PageEnd(length, batch, offset))
  {}

  /** The number of pages can be told from where they came to. */
  lemma FewerPages(length: nat, batch: nat, m: nat, n: nat, offset: nat)
    requires batch > 0 && PagesMade(length, batch, m, offset) && m < n
    ensures !PagesMade(length, batch, n, offset)
  {
    FullGrows(m, n - 1, batch);
  }

  lemma {:induction false} FullGrows(m: nat, n: nat, batch: nat)
    requires m <= n
    ensures Full(m, batch) <= Full(n, batch)
  {
    if m < n { FullGrows(m, n - 1, batch); }
  }

  /** The places fetched from `offset` on: of each page's answer the stretch that LIMIT and OFFSET cut out. */
  function Gather(orders: Orders, length: nat, pending: nat, batch: nat, pages: nat, offset: nat): seq<nat>
    decreases pages
  {
    if pages == 0 || offset >= pending || offset >= length then []
    else
      var end := PageEnd(length, batch, offset);
      (if offset <= end <= |orders(offset)| then orders(offset)[offset..end] else [])
      + Gather(orders, length, pending, batch, pages - 1, end)
  }

  lemma {:induction false} GatherBounds(rest: seq<Row>, orders: Orders, pending: nat, batch: nat, pages: nat,
                                        offset: nat)
    requires Answers(rest, orders) && offset <= |rest|
    ensures var places := Gather(orders, |rest|, pending, batch, pages, offset);
            && offset + |places| == StopAt(|rest|, pending, batch, pages, offset) <= |rest|
            && Within(places, |rest|)
    decreases pages
  {
    if pages > 0 && offset < pending && offset < |rest| {
      assert DayOrder(rest, orders(offset));
      GatherBounds(rest, orders, pending, batch, pages - 1, PageEnd(|rest|, batch, offset));
    }
  }

  function Pick(rows: seq<Row>, places: seq<nat>): seq<Row>
    requires Within(places, |rows|)
  {
    seq(|places|, i requires 0 <= i < |places| => rows[places[i]])
  }

  /**
   * The places a run fetches of what remains, `rest`, when it crashes after `pages` pages: none if
   * the destination already counts as many rows as the source.
   */
  function FetchedOf(rest: seq<Row>, total: nat, already: nat, orders: Orders, batch: nat, pages: nat): seq<nat> {
    if already >= total then [] else Gather(orders, |rest|, total - already, batch, pages, 0)
  }

  function CopiedOf(length: nat, total: nat, already: nat, batch: nat, pages: nat): nat {
    if already >= total then 0 else StopAt(length, total - already, batch, pages, 0)
  }

  lemma FetchedBounds(rest: seq<Row>, total: nat, already: nat, orders: Orders, batch: nat, pages: nat)
    requires Answers(rest, orders)
    ensures var places := FetchedOf(rest, total, already, orders, batch, pages);
            |places| == CopiedOf(|rest|, total, already, batch, pages) <= |rest| && Within(places, |rest|)
  {
    if already < total { GatherBounds(rest, orders, total - already, batch, pages, 0); }
  }

  function Copied(source: seq<Row>, dest: seq<Row>, batch: nat, pages: nat): nat {
    CopiedOf(|Remaining(source, dest)|, |source|, |dest|, batch, pages)
  }

  function Fetched(source: seq<Row>, dest: seq<Row>, orders: Orders, batch: nat, pages: nat): seq<nat> {
    FetchedOf(Remaining(source, dest), |source|, |dest|, orders, batch, pages)
  }

  /** The run gets to the end of the year's loop. */
  predicate Finishes(source: seq<Row>, dest: seq<Row>, batch: nat, pages: nat) {
    var k := Copied(source, dest, batch, pages);
    |dest| >= |source| || k == |Remaining(source, dest)| || |dest| + k >= |source|
  }

  /** The run crashes in the year: the pages it has before the crash do not bring the count to that of the source. */
  predicate CrashesIn(source: seq<Row>, dest: seq<Row>, batch: nat, pages: nat) {
    var k := Copied(source, dest, batch, pages);
    |dest| + k < |source| && PagesMade(|Remaining(source, dest)|, batch, pages, k)
  }

  lemma YearEnds(source: seq<Row>, dest: seq<Row>, rest: seq<Row>, batch: nat, pages: nat, k: nat, crashed: bool)
    requires |dest| < |source| && rest == Remaining(source, dest)
    requires k == StopAt(|rest|, |source| - |dest|, batch, pages, 0)
    requires !crashed ==> k == |rest| || |dest| + k >= |source|
    requires crashed <==> |dest| + k < |source| && PagesMade(|rest|, batch, pages, k)
    ensures k == Copied(source, dest, batch, pages)
    ensures crashed <==> CrashesIn(source, dest, batch, pages)
    ensures !crashed ==> Finishes(source, dest, batch, pages)
  {}

  /** What a run reports as being there already: no more than the source has. */
  function SkippedIn(source: seq<Row>, dest: seq<Row>): nat {
    if |dest| >= |source| then |source| else |dest|
  }

  /** One run over one year: the destination grows by what the run fetches. */
  ghost function RunYear(source: seq<Row>, dest: seq<Row>, orders: Orders, batch: nat, pages: nat): seq<Row>
    requires Answers(Remaining(source, dest), orders)
  {
    FetchedBounds(Remaining(source, dest), |source|, |dest|, orders, batch, pages);
    dest + Pick(Remaining(source, dest), Fetched(source, dest, orders, batch, pages))
  }

  // ------------------------------------------------------------------------------------------
  // Years

  lemma {:induction false} OfYearJoin(a: seq<Row>, b: seq<Row>, year: int)
    ensures OfYear(a + b, year) == OfYear(a, year) + OfYear(b, year)
  {
    if b == [] {
      assert a + b == a;
    } else {
      var init := b[..|b| - 1];
      assert (a + b)[..|a + b| - 1] == a + init;
      OfYearJoin(a, init, year);
    }
  }

  lemma {:induction false} OfYearIsOfYear(rows: seq<Row>, year: int)
    ensures forall r :: r in OfYear(rows, year) ==> r.year == year && r in rows
  {
    if rows != [] { OfYearIsOfYear(rows[..|rows| - 1], year); }
  }

  /** Rows of one year are all of it and nothing of another. */
  lemma {:induction false} OneYear(rows: seq<Row>, year: int, z: int)
    requires forall r :: r in rows ==> r.year == year
    ensures OfYear(rows, z) == if z == year then rows else []
  {
    if rows != [] {
      var init, r := rows[..|rows| - 1], rows[|rows| - 1];
      assert rows == init + [r];
      OneYear(init, year, z);
    }
  }

  lemma {:induction false} LaterIsAmong(rows: seq<Row>, day: int)
    ensures forall r :: r in Later(rows, day) ==> r in rows && r.day > day
  {
    if rows != [] {
      LaterIsAmong(rows[1..], day);
      assert rows == [rows[0]] + rows[1..];
    }
  }

  lemma RemainingIsOfYear(source: seq<Row>, dest: seq<Row>, year: int)
    ensures var rest := Remaining(OfYear(source, year), dest); forall r :: r in rest ==> r.year == year
  {
    OfYearIsOfYear(source, year);
    if dest != [] { LaterIsAmong(OfYear(source, year), LastDay(dest)); }
  }

  /** A stretch of the year's rows appended: the year grows by it and no other year changes. */
  lemma AppendPage(rows: seq<Row>, page: seq<Row>, year: int, z: int)
    requires forall r :: r in page ==> r.year == year
    ensures OfYear(rows + page, z) == if z == year then OfYear(rows, z) + page else OfYear(rows, z)
  {
    OfYearJoin(rows, page, z);
    OneYear(page, year, z);
  }

  class Destination {
    var rows: seq<Row>

    constructor ()
      ensures rows == []
    {
      rows := [];
    }

    /**
     * The paging loop: pages of what remains, each from an answer of its own, until `pending` rows are
     * copied, a page is empty, or the crash.
     */
    method CopyPages(rest: seq<Row>, orders: Orders, pending: nat, batch: nat, pages: nat)
      returns (offset: nat, crashed: bool)
      requires batch > 0 && Answers(rest, orders)
      modifies this
      ensures offset == StopAt(|rest|, pending, batch, pages, 0) <= |rest|
      ensures Within(Gather(orders, |rest|, pending, batch, pages, 0), |rest|)
      ensures rows == old(rows) + Pick(rest, Gather(orders, |rest|, pending, batch, pages, 0))
      ensures |rows| == |old(rows)| + offset
      ensures !crashed ==> offset == |rest| || offset >= pending
      ensures crashed <==> offset < pending && PagesMade(|rest|, batch, pages, offset)
    {
      offset, crashed := 0, false;
      var left: nat := pages;
      ghost var made, got: seq<nat> := 0, [];
      PagingStarts(rest, orders, pending, batch, pages);
      while offset < pending
        invariant Paging(rest, orders, pending, batch, pages, left, made, offset, got) && !crashed
        invariant rows == old(rows) + Pick(rest, got)
        decreases left
      {
        if left == 0 {
          crashed := true;
          break;
        }
        var end := PageEnd(|rest|, batch, offset);
        if offset == end { break; }
        PageIsThere(rest, orders, batch, offset, end);
        var page := orders(offset)[offset..end];
        PagingGoesOn(rest, orders, pending, batch, pages, left, made, offset, got, end, page);
        rows := rows + Pick(rest, page);
        made, got := made + 1, got + page;
        offset := end;
        left := left - 1;
      }
      PagingEnds(rest, orders, pending, batch, pages, left, made, offset, got);
    }

    /**
     * One year of one run, which crashes after `pages` pages. The year gains exactly the rows its
     * pages fetched; other years are untouched. The counts are what the run reports.
     */
    method MigrateYear(source: seq<Row>, year: int, orders: Orders, batch: nat, pages: nat)
      returns (migrated: nat, skipped: nat, crashed: bool)
      requires batch > 0 && Answers(Remaining(OfYear(source, year), OfYear(rows, year)), orders)
      modifies this
      ensures OfYear(rows, year) == RunYear(OfYear(source, year), OfYear(old(rows), year), orders, batch, pages)
      ensures forall z :: z != year ==> OfYear(rows, z) == OfYear(old(rows), z)
      ensures migrated == Copied(OfYear(source, year), OfYear(old(rows), year), batch, pages)
      ensures skipped == SkippedIn(OfYear(source, year), OfYear(old(rows), year))
      ensures skipped <= |OfYear(source, year)| && skipped <= |OfYear(old(rows), year)|
      ensures skipped == |OfYear(source, year)| || skipped == |OfYear(old(rows), year)|
      ensures |rows| == |old(rows)| + migrated
      ensures crashed <==> CrashesIn(OfYear(source, year), OfYear(old(rows), year), batch, pages)
      ensures !crashed ==> Finishes(OfYear(source, year), OfYear(old(rows), year), batch, pages)
    {
      var mine, held := OfYear(source, year), OfYear(rows, year);
      var total := |mine|;
      if total == 0 {
        return 0, 0, false;
      }
      var already := |held|;
      if already >= total {
        return 0, total, false;
      }
      var rest := Remaining(mine, held);
      RemainingIsOfYear(source, held, year);
      migrated, crashed := CopyPages(rest, orders, total - already, batch, pages);
      AppendPicked(old(rows), rest, FetchedOf(rest, total, already, orders, batch, pages), year);
      skipped := already;
      YearEnds(mine, held, rest, batch, pages, migrated, crashed);
    }

    /** The years of one batch, the next after the first `started`; `held` is what each reports as already there. */
    method MigrateBatch(source: seq<Row>, years: seq<int>, first: int, last: int, started: nat, ghost lo: int,
                        ghost was: seq<Row>, orders: int -> Orders, batch: nat, pages: int -> nat)
      returns (migrated: nat, held: seq<nat>, crashed: bool)
      requires batch > 0 && AllAnswered(source, was, first, last, orders)
      requires lo == first + started && lo + |years| <= last + 1 && forall k :: 0 <= k < |years| ==> years[k] == lo + k
      requires Progress(source, was, rows, first, started, orders, batch, pages)
      modifies this
      ensures Progress(source, was, rows, first, started + |years|, orders, batch, pages)
      ensures crashed <==> SomeCrash(Crashing(source, was, batch, pages), lo, lo + |years|)
      ensures |rows| == |old(rows)| + migrated
      ensures |held| == |years| && Lists(Skipping(source, was), lo, held)
    {
      migrated, held, crashed := 0, [], false;
      for k := 0 to |years|
        invariant crashed <==> SomeCrash(Crashing(source, was, batch, pages), lo, lo + k)
        invariant |held| == k && Lists(Skipping(source, was), lo, held)
        invariant |rows| == |old(rows)| + migrated
        invariant Progress(source, was, rows, first, started + k, orders, batch, pages)
      {
        var y := years[k];
        assert OfYear(rows, y) == OfYear(was, y) && Answers(Remaining(OfYear(source, y), OfYear(was, y)), orders(y));
        ghost var before := rows;
        var m, s, failed := MigrateYear(source, y, orders(y), batch, pages(y));
        OneYearMore(source, was, before, rows, first, started + k, y, orders, batch, pages);
        ListsOn(Skipping(source, was), lo, held, y);
        CrashedYear(Crashing(source, was, batch, pages), lo, y);
        migrated, held := migrated + m, held + [s];
        crashed := crashed || failed;
      }
    }

    /** The batches one after another, until a year of one has crashed. */
    method MigrateBatches(source: seq<Row>, first: int, last: int, years: seq<int>, parallel: nat,
                          orders: int -> Orders, batch: nat, pages: int -> nat)
      returns (migrated: nat, held: seq<nat>, rounds: nat, started: nat, crashed: bool)
      requires batch > 0 && parallel > 0 && AllAnswered(source, rows, first, last, orders)
      requires years == Years(first, last)
      modifies this
      ensures crashed || started == |years|
      ensures PagesMade(|years|, parallel, rounds, started)
      ensures Ended(Crashing(source, old(rows), batch, pages), first, parallel, rounds, started, crashed)
      ensures Progress(source, old(rows), rows, first, started, orders, batch, pages)
      ensures |rows| == |old(rows)| + migrated
      ensures |held| == started && Lists(Skipping(source, old(rows)), first, held)
    {
      migrated, held, rounds, started, crashed := 0, [], 0, 0, false;
      var batches := Batches(years, parallel);
      ghost var was, crashing, skipping := rows, Crashing(source, rows, batch, pages), Skipping(source, rows);
      RoundsStart(crashing, skipping, first, years, parallel);
      while rounds < |batches| && !crashed
        invariant Rounds(crashing, skipping, first, years, batches, parallel, rounds, started, held, crashed)
        invariant Progress(source, was, rows, first, started, orders, batch, pages)
        invariant |rows| == |was| + migrated
      {
        FirstBatch(years, started, parallel, batches, rounds);
        var m, s;
        ghost var lo := first + started;
        m, s, crashed := MigrateBatch(source, batches[rounds], first, last, started, lo, was, orders, batch, pages);
        var size := |batches[rounds]|;
        RoundsOn(crashing, skipping, first, years, batches, parallel, rounds, started, held, lo, s, crashed);
        migrated, held := migrated + m, held + s;
        started, rounds := started + size, rounds + 1;
      }
      if !crashed {
        AllTodo(years, batches, parallel, rounds, started);
      }
    }

    /**
     * One run of a table over the years `first..last`, `parallel` years at a time; a crash in any
     * year ends the run after that batch, a step of 0 raises, a negative one runs nothing. The first
     * `started` years were run, no other year changed; `held` lists what they reported as already there.
     */
    method MigrateTable(source: seq<Row>, first: int, last: int, parallel: int, orders: int -> Orders, batch: nat,
                        pages: int -> nat)
      returns (migrated: nat, held: seq<nat>, skipped: nat, rounds: nat, started: nat, crashed: bool)
      requires batch > 0 && AllAnswered(source, rows, first, last, orders)
      modifies this
      ensures started <= |Years(first, last)| && (parallel > 0 && !crashed ==> started == |Years(first, last)|)
      ensures parallel <= 0 ==> started == 0 && (crashed <==> parallel == 0)
      ensures Progress(source, old(rows), rows, first, started, orders, batch, pages)
      ensures !crashed ==> AllFinish(source, old(rows), first, started, batch, pages)
      ensures |rows| == |old(rows)| + migrated
      ensures |held| == started && Lists(Skipping(source, old(rows)), first, held) && skipped == Total(held)
      ensures parallel > 0 ==>
                && PagesMade(|Years(first, last)|, parallel, rounds, started)
                && Ended(Crashing(source, old(rows), batch, pages), first, parallel, rounds, started, crashed)
    {
      if parallel <= 0 {
        return 0, [], 0, 0, 0, parallel == 0;
      }
      migrated, held, rounds, started, crashed :=
        MigrateBatches(source, first, last, Years(first, last), parallel, orders, batch, pages);
      skipped := Total(held);
      if !crashed { NoneCrashes(source, old(rows), first, started, batch, pages); }
    }
  }

  /** With `left` pages to go at `offset`, what the `made` pages have got is what the run fetches up to there. */
  ghost predicate Paging(rest: seq<Row>, orders: Orders, pending: nat, batch: nat, pages: nat, left: nat, made: nat,
                         offset: nat, got: seq<nat>)
  {
    && left + made == pages && PagesMade(|rest|, batch, made, offset)
    && |got| == offset <= |rest| && Within(got, |rest|)
    && got + Gather(orders, |rest|, pending, batch, left, offset) == Gather(orders, |rest|, pending, batch, pages, 0)
    && StopAt(|rest|, pending, batch, left, offset) == StopAt(|rest|, pending, batch, pages, 0)
  }

  lemma PagingStarts(rest: seq<Row>, orders: Orders, pending: nat, batch: nat, pages: nat)
    ensures Paging(rest, orders, pending, batch, pages, pages, 0, 0, [])
  {}

  lemma PageIsThere(rest: seq<Row>, orders: Orders, batch: nat, offset: nat, end: nat)
    requires Answers(rest, orders) && offset < end == PageEnd(|rest|, batch, offset)
    ensures end <= |rest| == |orders(offset)| && Within(orders(offset)[offset..end], |rest|)
  {
    assert DayOrder(rest, orders(offset));
  }

  lemma PagingGoesOn(rest: seq<Row>, orders: Orders, pending: nat, batch: nat, pages: nat, left: nat, made: nat,
                     offset: nat, got: seq<nat>, end: nat, page: seq<nat>)
    requires batch > 0 && Paging(rest, orders, pending, batch, pages, left, made, offset, got)
    requires left > 0 && offset < pending && offset < end == PageEnd(|rest|, batch, offset)
    requires end <= |orders(offset)| && page == orders(offset)[offset..end] && Within(page, |rest|)
    ensures Paging(rest, orders, pending, batch, pages, left - 1, made + 1, end, got + page)
    ensures Pick(rest, got + page) == Pick(rest, got) + Pick(rest, page)
  {
    OnePageMore(|rest|, batch, made, offset);
    assert got + (page + Gather(orders, |rest|, pending, batch, left - 1, end))
        == (got + page) + Gather(orders, |rest|, pending, batch, left - 1, end);
  }

  lemma PagingEnds(rest: seq<Row>, orders: Orders, pending: nat, batch: nat, pages: nat, left: nat, made: nat,
                   offset: nat, got: seq<nat>)
    requires batch > 0 && Paging(rest, orders, pending, batch, pages, left, made, offset, got)
    requires left == 0 || offset >= pending || offset >= |rest|
    ensures got == Gather(orders, |rest|, pending, batch, pages, 0)
    ensures offset == StopAt(|rest|, pending, batch, pages, 0)
    ensures left == 0 <==> PagesMade(|rest|, batch, pages, offset)
  {
    if made < pages { FewerPages(|rest|, batch, made, pages, offset); }
  }

  lemma AppendPicked(was: seq<Row>, rest: seq<Row>, places: seq<nat>, year: int)
    requires Within(places, |rest|) && forall r :: r in rest ==> r.year == year
    ensures forall z :: OfYear(was + Pick(rest, places), z)
                        == if z == year then OfYear(was, z) + Pick(rest, places) else OfYear(was, z)
  {
    forall z ensures OfYear(was + Pick(rest, places), z)
                     == if z == year then OfYear(was, z) + Pick(rest, places) else OfYear(was, z)
    {
      AppendPage(was, Pick(rest, places), year, z);
    }
  }

  ghost predicate AllAnswered(source: seq<Row>, rows: seq<Row>, first: int, last: int, orders: int -> Orders) {
    forall y :: first <= y <= last ==> Answers(Remaining(OfYear(source, y), OfYear(rows, y)), orders(y))
  }

  ghost predicate RanYear(source: seq<Row>, was: seq<Row>, now: seq<Row>, y: int, orders: Orders, batch: nat,
                          pages: nat) {
    && Answers(Remaining(OfYear(source, y), OfYear(was, y)), orders)
    && OfYear(now, y) == RunYear(OfYear(source, y), OfYear(was, y), orders, batch, pages)
  }

  /** The first `started` years have been run and the rest are as before. */
  ghost predicate Progress(source: seq<Row>, was: seq<Row>, now: seq<Row>, first: int, started: nat,
                           orders: int -> Orders, batch: nat, pages: int -> nat)
  {
    && (forall y {:trigger RanYear(source, was, now, y, orders(y), batch, pages(y))} ::
          first <= y < first + started ==> RanYear(source, was, now, y, orders(y), batch, pages(y)))
    && (forall y {:trigger OfYear(now, y)} :: !(first <= y < first + started) ==> OfYear(now, y) == OfYear(was, y))
  }

  ghost predicate AllFinish(source: seq<Row>, was: seq<Row>, first: int, started: nat, batch: nat, pages: int -> nat) {
    forall y :: first <= y < first + started ==> Finishes(OfYear(source, y), OfYear(was, y), batch, pages(y))
  }

  /** The years in which a run crashes. */
  ghost function Crashing(source: seq<Row>, was: seq<Row>, batch: nat, pages: int -> nat): int -> bool {
    (y: int) => CrashesIn(OfYear(source, y), OfYear(was, y), batch, pages(y))
  }

  ghost predicate SomeCrash(crashing: int -> bool, lo: int, hi: int) { exists y :: lo <= y < hi && crashing(y) }

  function Total(xs: seq<nat>): nat {
    if xs == [] then 0 else Total(xs[..|xs| - 1]) + xs[|xs| - 1]
  }

  /** What each year reports as already there. */
  ghost function Skipping(source: seq<Row>, was: seq<Row>): int -> nat {
    (y: int) => SkippedIn(OfYear(source, y), OfYear(was, y))
  }

  /** The values of `f` from `lo` on. */
  ghost predicate Lists(f: int -> nat, lo: int, held: seq<nat>) {
    forall k :: 0 <= k < |held| ==> held[k] == f(lo + k)
  }

  lemma ListsOn(f: int -> nat, lo: int, held: seq<nat>, y: int)
    requires Lists(f, lo, held) && y == lo + |held|
    ensures Lists(f, lo, held + [f(y)])
  {}

  lemma ListsJoin(f: int -> nat, lo: int, a: seq<nat>, mid: int, b: seq<nat>)
    requires Lists(f, lo, a) && mid == lo + |a| && Lists(f, mid, b)
    ensures Lists(f, lo, a + b)
  {
    forall k | 0 <= k < |a + b| ensures (a + b)[k] == f(lo + k) {
      if k >= |a| { assert (a + b)[k] == b[k - |a|]; }
    }
  }

  lemma OneYearMore(source: seq<Row>, was: seq<Row>, before: seq<Row>, now: seq<Row>, first: int, n: nat, year: int,
                    orders: int -> Orders, batch: nat, pages: int -> nat)
    requires Progress(source, was, before, first, n, orders, batch, pages) && year == first + n
    requires RanYear(source, was, now, year, orders(year), batch, pages(year))
    requires forall z :: z != year ==> OfYear(now, z) == OfYear(before, z)
    ensures Progress(source, was, now, first, n + 1, orders, batch, pages)
  {
    forall y | first <= y < first + n ensures RanYear(source, was, now, y, orders(y), batch, pages(y)) {
      assert RanYear(source, was, before, y, orders(y), batch, pages(y));
    }
  }

  lemma CrashedYear(crashing: int -> bool, lo: int, y: int)
    requires lo <= y
    ensures SomeCrash(crashing, lo, y + 1) <==> SomeCrash(crashing, lo, y) || crashing(y)
  {}

  /** A run that does not crash in a year gets to the end of its loop. */
  lemma NoCrashFinishes(source: seq<Row>, dest: seq<Row>, batch: nat, pages: nat)
    requires batch > 0 && !CrashesIn(source, dest, batch, pages)
    ensures Finishes(source, dest, batch, pages)
  {
    if |dest| < |source| { StopMade(|Remaining(source, dest)|, |source| - |dest|, batch, pages, 0, 0); }
  }

  /** Where the paging stops short of what it looks for, it has used up its pages. */
  lemma {:induction false} StopMade(length: nat, pending: nat, batch: nat, pages: nat, n: nat, offset: nat)
    requires batch > 0 && PagesMade(length, batch, n, offset)
    ensures var s := StopAt(length, pending, batch, pages, offset);
            s <= length && (s >= pending || s == length || PagesMade(length, batch, n + pages, s))
    decreases pages
  {
    if pages > 0 && offset < pending && offset < length {
      OnePageMore(length, batch, n, offset);
      StopMade(length, pending, batch, pages - 1, n + 1, PageEnd(length, batch, offset));
    }
  }

  lemma NoneCrashes(source: seq<Row>, was: seq<Row>, first: int, n: nat, batch: nat, pages: int -> nat)
    requires batch > 0 && !SomeCrash(Crashing(source, was, batch, pages), first, first + n)
    ensures AllFinish(source, was, first, n, batch, pages)
  {
    forall y | first <= y < first + n ensures Finishes(OfYear(source, y), OfYear(was, y), batch, pages(y)) {
      assert !Crashing(source, was, batch, pages)(y);
      NoCrashFinishes(OfYear(source, y), OfYear(was, y), batch, pages(y));
    }
  }

  /** After `n` batches: no year before the last batch crashed, and `crashed` says whether one of that did. */
  ghost predicate Ended(crashing: int -> bool, first: int, parallel: nat, n: nat, started: nat, crashed: bool) {
    && (n > 0 ==> !SomeCrash(crashing, first, first + Full(n - 1, parallel)))
    && (crashed <==> SomeCrash(crashing, first, first + started))
  }

  lemma EndedOn(crashing: int -> bool, first: int, parallel: nat, n: nat, started: nat, lo: int, size: nat,
                crashed: bool)
    requires Ended(crashing, first, parallel, n, started, false)
    requires started == Full(n, parallel) && lo == first + started
    requires crashed <==> SomeCrash(crashing, lo, lo + size)
    ensures Ended(crashing, first, parallel, n + 1, started + size, crashed)
  {}

  function Years(first: int, last: int): (years: seq<int>)
    ensures |years| == if last < first then 0 else last - first + 1
    ensures forall i :: 0 <= i < |years| ==> years[i] == first + i
    decreases last - first
  {
    if last < first then [] else Years(first, last - 1) + [last]
  }

  // ------------------------------------------------------------------------------------------
  // Batches of years

  /** `years[i : i + parallel]` for each `i` of a range in steps of `parallel`, which may be given negative. */
  function Batches(years: seq<int>, parallel: int): seq<seq<int>>
    decreases |years|
  {
    if parallel <= 0 || years == [] then []
    else if |years| <= parallel then [years]
    else [years[..parallel]] + Batches(years[parallel..], parallel)
  }

  function Flatten(batches: seq<seq<int>>): seq<int> {
    if batches == [] then [] else batches[0] + Flatten(batches[1..])
  }

  /** The batches hold every year once and in order exactly if the step is positive; else nothing is run. */
  lemma {:induction false} BatchesPartitionTheYears(years: seq<int>, parallel: int)
    requires years != []
    ensures Flatten(Batches(years, parallel)) == years <==> parallel > 0
    ensures forall b :: b in Batches(years, parallel) ==> 0 < |b| <= parallel
    decreases |years|
  {
    if parallel > 0 {
      if |years| <= parallel {
        assert Flatten([years]) == years + Flatten([]);
      } else {
        var rest := years[parallel..];
        BatchesPartitionTheYears(rest, parallel);
        assert Batches(years, parallel)[1..] == Batches(rest, parallel);
      }
    }
  }

  /** The batches from `b` on hold the years from `started` on, to which `b` batches have come. */
  ghost predicate Todo(years: seq<int>, batches: seq<seq<int>>, parallel: nat, b: nat, started: nat) {
    && b <= |batches| && started <= |years| && PagesMade(|years|, parallel, b, started)
    && batches[b..] == Batches(years[started..], parallel)
  }

  lemma FirstBatch(years: seq<int>, started: nat, parallel: nat, batches: seq<seq<int>>, b: nat)
    requires parallel > 0 && b < |batches| && Todo(years, batches, parallel, b, started)
    ensures var n := |batches[b]|;
            && 0 < n && started + n <= |years| && batches[b] == years[started..started + n]
            && started == Full(b, parallel)
            && Todo(years, batches, parallel, b + 1, started + n)
  {
    var left := years[started..];
    assert left != [];
    assert batches[b] == batches[b..][0] && batches[b + 1..] == batches[b..][1..];
    OnePageMore(|years|, parallel, b, started);
    if |left| <= parallel {
      assert batches[b] == left && years[started + |left|..] == [];
    } else {
      assert batches[b] == left[..parallel] && left[parallel..] == years[started + parallel..];
    }
  }

  /** The batches up to `b` have been run: `held` is what their years reported. */
  ghost predicate Rounds(crashing: int -> bool, skipping: int -> nat, first: int, years: seq<int>,
                         batches: seq<seq<int>>, parallel: nat, b: nat, started: nat, held: seq<nat>, crashed: bool)
  {
    && Todo(years, batches, parallel, b, started) && Ended(crashing, first, parallel, b, started, crashed)
    && |held| == started && Lists(skipping, first, held)
  }

  lemma RoundsStart(crashing: int -> bool, skipping: int -> nat, first: int, years: seq<int>, parallel: nat)
    requires parallel > 0
    ensures Rounds(crashing, skipping, first, years, Batches(years, parallel), parallel, 0, 0, [], false)
  {
    assert years[0..] == years;
  }

  lemma RoundsOn(crashing: int -> bool, skipping: int -> nat, first: int, years: seq<int>, batches: seq<seq<int>>,
                 parallel: nat, b: nat, started: nat, held: seq<nat>, lo: int, more: seq<nat>, crashed: bool)
    requires parallel > 0 && b < |batches| && lo == first + started && |more| == |batches[b]|
    requires Rounds(crashing, skipping, first, years, batches, parallel, b, started, held, false)
    requires Lists(skipping, lo, more) && (crashed <==> SomeCrash(crashing, lo, lo + |batches[b]|))
    ensures Rounds(crashing, skipping, first, years, batches, parallel, b + 1, started + |batches[b]|, held + more,
                   crashed)
  {
    FirstBatch(years, started, parallel, batches, b);
    ListsJoin(skipping, first, held, lo, more);
    EndedOn(crashing, first, parallel, b, started, lo, |batches[b]|, crashed);
  }

  lemma AllTodo(years: seq<int>, batches: seq<seq<int>>, parallel: nat, b: nat, started: nat)
    requires parallel > 0 && b == |batches| && Todo(years, batches, parallel, b, started)
    ensures started == |years|
  {
    assert batches[b..] == [];
  }
}
