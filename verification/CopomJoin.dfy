/** Attaching the policy rate, and its change since the previous document, to dated documents: an as-of join. */
module CopomJoin {
  import opened Options

  /** An entry of the rate series; what cannot be parsed is missing. */
  datatype Entry = Entry(date: Option<int>, value: Option<real>)

  class Doc {
    const date: int
    var target: Option<real>
    var change: Option<real>

    constructor (date: int)
      ensures this.date == date && target == None && change == None
    {
      this.date, target, change := date, None, None;
    }
  }

  /** The rates by date: an entry that cannot be parsed is skipped, a later one of the same date wins. */
  function ByDate(series: seq<Entry>): map<int, real> {
    if series == [] then map[]
    else
      var before, e := ByDate(series[..|series| - 1]), series[|series| - 1];
      if e.date.Some? && e.value.Some? then before[e.date.value := e.value.value] else before
  }

  /** The entry at `k` gives the rate of its date. */
  predicate Gives(series: seq<Entry>, k: nat, date: int) {
    k < |series| && series[k].date == Some(date) && series[k].value.Some?
  }

  /** A date has a rate exactly if some entry gives it one, and then the last such entry's. */
  lemma {:induction false} ByDateExact(series: seq<Entry>, date: int, k: nat)
    ensures Gives(series, k, date) ==> date in ByDate(series)
    ensures Gives(series, k, date) && (forall i :: i > k ==> !Gives(series, i, date))
            ==> ByDate(series)[date] == series[k].value.value
    ensures date in ByDate(series) ==> exists i :: Gives(series, i, date)
  {
    if series != [] {
      var init, last := series[..|series| - 1], |series| - 1;
      ByDateExact(init, date, k);
      assert forall i: nat :: i < last ==> (Gives(init, i, date) <==> Gives(series, i, date));
      assert Gives(series, last, date) ==> ByDate(series)[date] == series[last].value.value;
    }
  }

  /** `d` is the greatest date of the series not after `on`. */
  ghost predicate Nearest(rates: map<int, real>, on: int, d: int) {
    d in rates && d <= on && forall x :: x in rates && x <= on ==> x <= d
  }

  ghost predicate Starts(rates: map<int, real>, on: int) {
    exists d :: Nearest(rates, on, d)
  }

  ghost function RateOn(rates: map<int, real>, on: int): Option<real> {
    if Starts(rates, on) then (var d :| Nearest(rates, on, d); Some(rates[d])) else None
  }

  ghost predicate Increasing(dates: seq<int>) {
    forall i, j :: 0 <= i < j < |dates| ==> dates[i] < dates[j]
  }

  function InsertDate(dates: seq<int>, d: int): seq<int> {
    if dates == [] || dates[|dates| - 1] < d then dates + [d]
    else if dates[|dates| - 1] == d then dates
    else InsertDate(dates[..|dates| - 1], d) + [dates[|dates| - 1]]
  }

  /** The dates of the series in order, each once. */
  function SortedDates(series: seq<Entry>): seq<int> {
    if series == [] then []
    else
      var before, e := SortedDates(series[..|series| - 1]), series[|series| - 1];
      if e.date.Some? && e.value.Some? then InsertDate(before, e.date.value) else before
  }

  lemma {:induction false} InsertDateExact(dates: seq<int>, d: int)
    requires Increasing(dates)
    ensures Increasing(InsertDate(dates, d))
    ensures forall x :: x in InsertDate(dates, d) <==> x in dates || x == d
  {
    if dates != [] && dates[|dates| - 1] > d {
      var init, last := dates[..|dates| - 1], dates[|dates| - 1];
      assert dates == init + [last];
      forall i | 0 <= i < |init| ensures init[i] < last { assert dates[i] < dates[|init|]; }
      InsertDateExact(init, d);
      var r := InsertDate(init, d);
      forall i | 0 <= i < |r| ensures r[i] < last { assert r[i] in r; }
    } else if dates != [] && dates[|dates| - 1] == d {
      assert dates[|dates| - 1] in dates;
    } else {
      forall i | 0 <= i < |dates| ensures dates[i] < d { assert dates[i] <= dates[|dates| - 1]; }
    }
  }

  lemma {:induction false} SortedDatesExact(series: seq<Entry>)
    ensures Increasing(SortedDates(series))
    ensures forall d :: d in SortedDates(series) <==> d in ByDate(series)
  {
    if series != [] {
      var init, e := series[..|series| - 1], series[|series| - 1];
      SortedDatesExact(init);
      if e.date.Some? && e.value.Some? { InsertDateExact(SortedDates(init), e.date.value); }
    }
  }

  /** The scan of the sorted dates, which stops at the first date after the document's. */
  method FindNearest(rates: map<int, real>, dates: seq<int>, on: int) returns (nearest: Option<int>)
    requires Increasing(dates) && forall d :: d in dates <==> d in rates
    ensures nearest.Some? ==> Nearest(rates, on, nearest.value)
    ensures nearest == None ==> forall d :: d in rates ==> d > on
  {
    nearest := None;
    var i := 0;
    while i < |dates| && dates[i] <= on
      invariant i <= |dates|
      invariant nearest == if i == 0 then None else Some(dates[i - 1])
      invariant i > 0 ==> dates[i - 1] <= on
    {
      nearest := Some(dates[i]);
      i := i + 1;
    }
    forall d | d in rates ensures if d <= on then i > 0 && d <= dates[i - 1] else true {
      var k :| 0 <= k < |dates| && dates[k] == d;
    }
  }

  /** Documents in date order; those of one date stay in the order given. */
  ghost predicate ByDocDate(docs: seq<Doc>) {
    forall i, j :: 0 <= i < j < |docs| ==> docs[i].date <= docs[j].date
  }

  function InsertDoc(docs: seq<Doc>, d: Doc): seq<Doc> {
    if docs == [] || docs[|docs| - 1].date <= d.date then docs + [d]
    else InsertDoc(docs[..|docs| - 1], d) + [docs[|docs| - 1]]
  }

  function SortDocs(docs: seq<Doc>): seq<Doc> {
    if docs == [] then [] else InsertDoc(SortDocs(docs[..|docs| - 1]), docs[|docs| - 1])
  }

  function OfDate(docs: seq<Doc>, date: int): seq<Doc> {
    if docs == [] then []
    else
      var init, d := docs[..|docs| - 1], docs[|docs| - 1];
      if d.date == date then OfDate(init, date) + [d] else OfDate(init, date)
  }

  lemma {:induction false} InsertSorted(docs: seq<Doc>, d: Doc)
    requires ByDocDate(docs)
    ensures ByDocDate(InsertDoc(docs, d))
    ensures forall x :: x in InsertDoc(docs, d) <==> x in docs || x == d
  {
    if docs != [] && docs[|docs| - 1].date > d.date {
      var init, last := docs[..|docs| - 1], docs[|docs| - 1];
      assert docs == init + [last];
      forall x | x in init ensures x.date <= last.date {
        var i :| 0 <= i < |init| && init[i] == x;
        assert docs[i] == x;
      }
      assert ByDocDate(init);
      InsertSorted(init, d);
      var r := InsertDoc(init, d);
      assert r != [] ==> r[|r| - 1] in r;
      SortedOn(r, last);
    } else {
      SortedOn(docs, d);
    }
  }

  lemma SortedOn(docs: seq<Doc>, last: Doc)
    requires ByDocDate(docs) && (docs != [] ==> docs[|docs| - 1].date <= last.date)
    ensures ByDocDate(docs + [last])
    ensures forall x :: x in docs + [last] <==> x in docs || x == last
  {
    forall i | 0 <= i < |docs| ensures docs[i].date <= last.date {}
  }

  lemma {:induction false} InsertKeeps(docs: seq<Doc>, d: Doc, date: int)
    requires ByDocDate(docs)
    ensures multiset(InsertDoc(docs, d)) == multiset(docs) + multiset{d}
    ensures OfDate(InsertDoc(docs, d), date) == OfDate(docs + [d], date)
  {
    if docs != [] && docs[|docs| - 1].date > d.date {
      var init, last := docs[..|docs| - 1], docs[|docs| - 1];
      assert docs == init + [last];
      InsertKeeps(init, d, date);
      if last.date == date { NoneAfter(init, date, d); }
    }
  }

  lemma NoneAfter(init: seq<Doc>, date: int, d: Doc)
    ensures d.date < date ==> OfDate(init + [d], date) == OfDate(init, date)
  {}

  lemma {:induction false} SortSorts(docs: seq<Doc>)
    ensures ByDocDate(SortDocs(docs))
  {
    if docs != [] {
      SortSorts(docs[..|docs| - 1]);
      InsertSorted(SortDocs(docs[..|docs| - 1]), docs[|docs| - 1]);
    }
  }

  lemma OfDateOn(a: seq<Doc>, b: seq<Doc>, d: Doc, date: int)
    requires OfDate(a, date) == OfDate(b, date)
    ensures OfDate(a + [d], date) == OfDate(b + [d], date)
  {}

  /** The sort is by date, keeps every document, and keeps the order within a date. */
  lemma {:induction false} SortKeeps(docs: seq<Doc>, date: int)
    ensures ByDocDate(SortDocs(docs)) && multiset(SortDocs(docs)) == multiset(docs)
    ensures OfDate(SortDocs(docs), date) == OfDate(docs, date)
  {
    SortSorts(docs);
    if docs != [] {
      var init, d := docs[..|docs| - 1], docs[|docs| - 1];
      assert docs == init + [d];
      SortKeeps(init, date);
      InsertKeeps(SortDocs(init), d, date);
      OfDateOn(SortDocs(init), init, d, date);
    }
  }

  // ------------------------------------------------------------------------------------------
  // The join

  function DatesOf(docs: seq<Doc>): (dates: seq<int>)
    ensures |dates| == |docs| && forall i :: 0 <= i < |docs| ==> dates[i] == docs[i].date
  {
    seq(|docs|, i requires 0 <= i < |docs| => docs[i].date)
  }

  /** The rate carried over to the document at `i`. */
  ghost function Carried(rates: map<int, real>, dates: seq<int>, i: nat): Option<real>
    requires i <= |dates|
  {
    if i == 0 then None else RateOn(rates, dates[i - 1])
  }

  /** The change of a rate, if there is one to compare with. */
  function Change(rate: real, prev: Option<real>): Option<real> {
    if prev.Some? then Some(rate - prev.value) else None
  }

  /** What a document holds of the join. */
  datatype Held = Held(target: Option<real>, change: Option<real>)

  /** What the document at `i` is to hold, given what it held: nothing new before the series starts. */
  ghost function Joined(rates: map<int, real>, dates: seq<int>, i: nat, was: Held): Held
    requires i < |dates|
  {
    var rate := RateOn(rates, dates[i]);
    if rate == None then was else Held(rate, Change(rate.value, Carried(rates, dates, i)))
  }

  /** Once the series has started it has started for every later date. */
  lemma StartsOnce(rates: map<int, real>, on: int, later: int)
    requires on <= later && RateOn(rates, on).Some?
    ensures RateOn(rates, later).Some?
  {
    var d :| Nearest(rates, on, d);
    NearestFrom(rates, later, d);
  }

  lemma {:induction false} NearestFrom(rates: map<int, real>, on: int, d: int)
    requires d in rates && d <= on
    ensures RateOn(rates, on).Some?
    decreases on - d
  {
    if x :| x in rates && d < x <= on {
      NearestFrom(rates, on, x);
    } else {
      assert Nearest(rates, on, d);
    }
  }

  /** The last place of `d` among the first `n` documents. */
  function PlaceIn(docs: seq<Doc>, n: nat, d: Doc): nat
    requires n <= |docs|
  {
    if n == 0 then 0 else if docs[n - 1] == d then n - 1 else PlaceIn(docs, n - 1, d)
  }

  lemma {:induction false} PlaceExact(docs: seq<Doc>, n: nat, d: Doc)
    requires n <= |docs| && d in docs[..n]
    ensures var k := PlaceIn(docs, n, d); k < n && docs[k] == d && forall i :: k < i < n ==> docs[i] != d
  {
    if docs[n - 1] != d {
      assert docs[..n] == docs[..n - 1] + [docs[n - 1]];
      PlaceExact(docs, n - 1, d);
    }
  }

  function Now(d: Doc): Held
    reads d
  {
    Held(d.target, d.change)
  }

  /** After the first `n` places: a document already met holds what its last place gives, another what it held. */
  ghost predicate Written(rates: map<int, real>, sorted: seq<Doc>, n: nat, d: Doc, now: Held, was: Held)
    requires n <= |sorted|
  {
    if d in sorted[..n]
    then PlaceIn(sorted, n, d) < |sorted| && now == Joined(rates, DatesOf(sorted), PlaceIn(sorted, n, d), was)
    else now == was
  }

  ghost predicate AllWritten(rates: map<int, real>, sorted: seq<Doc>, n: nat, was: map<Doc, Held>)
    requires n <= |sorted|
    reads was.Keys
  {
    forall d :: d in was.Keys ==> Written(rates, sorted, n, d, Now(d), was[d])
  }

  /**
   * Writes into the documents, in date order. A document given more than once is written more than
   * once, and the last write is the one that stays.
   */
  method JoinSelic(docs: seq<Doc>, series: seq<Entry>)
    modifies docs
    ensures var rates, sorted := ByDate(series), SortDocs(docs);
            forall d :: d in docs ==>
              && d in sorted && PlaceIn(sorted, |sorted|, d) < |sorted|
              && Now(d) == Joined(rates, DatesOf(sorted), PlaceIn(sorted, |sorted|, d), old(Now(d)))
  {
    var rates := ByDate(series);
    var dates := SortedDates(series);
    var sorted := SortDocs(docs);
    SortedDatesExact(series);
    SameDocs(docs, sorted);
    ghost var was := map d | d in docs :: Now(d);
    JoinSorted(rates, dates, sorted, was);
    WrittenAtTheEnd(rates, sorted, was);
  }

  method JoinSorted(rates: map<int, real>, dates: seq<int>, sorted: seq<Doc>, ghost was: map<Doc, Held>)
    requires Increasing(dates) && forall x :: x in dates <==> x in rates
    requires ByDocDate(sorted) && forall d :: d in was.Keys ==> Now(d) == was[d]
    modifies sorted
    ensures AllWritten(rates, sorted, |sorted|, was)
  {
    var prev: Option<real> := None;
    for i := 0 to |sorted|
      invariant prev == Carried(rates, DatesOf(sorted), i)
      invariant AllWritten(rates, sorted, i, was)
    {
      prev := JoinOne(rates, dates, sorted, i, prev, was);
    }
  }

  lemma WrittenAtTheEnd(rates: map<int, real>, sorted: seq<Doc>, was: map<Doc, Held>)
    requires AllWritten(rates, sorted, |sorted|, was)
    ensures forall d :: d in was.Keys && d in sorted ==>
              && PlaceIn(sorted, |sorted|, d) < |sorted|
              && Now(d) == Joined(rates, DatesOf(sorted), PlaceIn(sorted, |sorted|, d), was[d])
  {
    assert sorted[..|sorted|] == sorted;
    forall d | d in was.Keys && d in sorted
      ensures PlaceIn(sorted, |sorted|, d) < |sorted|
      ensures Now(d) == Joined(rates, DatesOf(sorted), PlaceIn(sorted, |sorted|, d), was[d])
    {
      assert Written(rates, sorted, |sorted|, d, Now(d), was[d]);
    }
  }

  /** What is carried to a document comes from one of an earlier or the same date. */
  lemma CarriedStarts(rates: map<int, real>, docs: seq<Doc>, i: nat)
    requires ByDocDate(docs) && i < |docs| && RateOn(rates, docs[i].date) == None
    ensures Carried(rates, DatesOf(docs), i) == None
  {
    if Carried(rates, DatesOf(docs), i).Some? { StartsOnce(rates, docs[i - 1].date, docs[i].date); }
  }

  lemma SameDocs(docs: seq<Doc>, sorted: seq<Doc>)
    requires sorted == SortDocs(docs)
    ensures ByDocDate(sorted)
    ensures forall d :: d in docs ==> d in sorted
    ensures forall i :: 0 <= i < |sorted| ==> sorted[i] in docs
  {
    SortKeeps(docs, 0);
    forall d | d in docs ensures d in sorted { assert d in multiset(docs); }
    forall i | 0 <= i < |sorted| ensures sorted[i] in docs { assert sorted[i] in multiset(sorted); }
  }

  /** One place further: the document there is written, or left as it was before the series starts. */
  lemma WrittenOn(rates: map<int, real>, sorted: seq<Doc>, i: nat, d: Doc, before: Held, now: Held, was: Held)
    requires i < |sorted| && Written(rates, sorted, i, d, before, was)
    requires d != sorted[i] ==> now == before
    requires d == sorted[i] ==> now == Joined(rates, DatesOf(sorted), i, before)
    ensures Written(rates, sorted, i + 1, d, now, was)
  {
    assert sorted[..i + 1] == sorted[..i] + [sorted[i]];
    if d == sorted[i] && d in sorted[..i] { PlaceExact(sorted, i, d); }
  }

  /** One document: the rate on its date, if the series has started, and the change from the last one. */
  method JoinOne(rates: map<int, real>, dates: seq<int>, sorted: seq<Doc>, i: nat, prev: Option<real>,
                 ghost was: map<Doc, Held>)
    returns (next: Option<real>)
    requires Increasing(dates) && forall x :: x in dates <==> x in rates
    requires ByDocDate(sorted) && i < |sorted| && prev == Carried(rates, DatesOf(sorted), i)
    requires AllWritten(rates, sorted, i, was)
    modifies sorted[i]
    ensures next == Carried(rates, DatesOf(sorted), i + 1)
    ensures AllWritten(rates, sorted, i + 1, was)
  {
    var d := sorted[i];
    ghost var before := Now(d);
    next := prev;
    var nearest := FindNearest(rates, dates, d.date);
    if nearest.Some? {
      var target := rates[nearest.value];
      d.target := Some(target);
      d.change := Change(target, prev);
      next := Some(target);
    } else {
      CarriedStarts(rates, sorted, i);
    }
    assert Now(d) == Joined(rates, DatesOf(sorted), i, before);
    forall e | e in was.Keys ensures Written(rates, sorted, i + 1, e, Now(e), was[e]) {
      assert Written(rates, sorted, i, e, old(Now(e)), was[e]);
      WrittenOn(rates, sorted, i, e, old(Now(e)), Now(e), was[e]);
    }
  }

  // ------------------------------------------------------------------------------------------
  // The changes add up

  /** The sum of the changes of the first `n` documents. */
  ghost function TotalChange(rates: map<int, real>, dates: seq<int>, n: nat): real
    requires n <= |dates|
  {
    if n == 0 then 0.0
    else
      var c := Joined(rates, dates, n - 1, Held(None, None)).change;
      TotalChange(rates, dates, n - 1) + if c.Some? then c.value else 0.0
  }

  /** The changes add up to the last target less the first. */
  lemma {:induction false} ChangesTelescope(rates: map<int, real>, dates: seq<int>, first: nat, n: nat)
    requires forall i, j :: 0 <= i < j < |dates| ==> dates[i] <= dates[j]
    requires first < n <= |dates| && RateOn(rates, dates[first]).Some?
    requires forall i :: 0 <= i < first ==> RateOn(rates, dates[i]) == None
    ensures RateOn(rates, dates[n - 1]).Some?
    ensures TotalChange(rates, dates, n) == RateOn(rates, dates[n - 1]).value - RateOn(rates, dates[first]).value
  {
    if n == first + 1 {
      NothingYet(rates, dates, first);
    } else {
      ChangesTelescope(rates, dates, first, n - 1);
      StartsOnce(rates, dates[n - 2], dates[n - 1]);
    }
  }

  lemma {:induction false} NothingYet(rates: map<int, real>, dates: seq<int>, n: nat)
    requires n <= |dates| && forall i :: 0 <= i < n ==> RateOn(rates, dates[i]) == None
    ensures TotalChange(rates, dates, n) == 0.0
  {
    if n > 0 { NothingYet(rates, dates, n - 1); }
  }

  /** The sum of the changes the documents from `first` to `n` hold. */
  ghost function ChangesHeld(docs: seq<Doc>, first: nat, n: nat): real
    requires n <= |docs|
    reads docs
  {
    if n <= first then 0.0
    else ChangesHeld(docs, first, n - 1) + if docs[n - 1].change.Some? then docs[n - 1].change.value else 0.0
  }

  /** A document given once is at its only place. */
  lemma {:induction false} OnlyPlace(docs: seq<Doc>, n: nat, i: nat)
    requires i < n <= |docs| && forall j :: 0 <= j < |docs| && j != i ==> docs[j] != docs[i]
    ensures PlaceIn(docs, n, docs[i]) == i
  {
    if n - 1 != i { OnlyPlace(docs, n - 1, i); }
  }

  ghost predicate Distinct(docs: seq<Doc>) { forall i, j :: 0 <= i < j < |docs| ==> docs[i] != docs[j] }

  lemma SortedOnce(docs: seq<Doc>)
    requires Distinct(docs)
    ensures Distinct(SortDocs(docs))
  {
    var sorted := SortDocs(docs);
    SortKeeps(docs, 0);
    forall i, j | 0 <= i < j < |sorted| ensures sorted[i] != sorted[j] {
      OnceIsOne(docs, sorted[i]);
      if sorted[i] == sorted[j] { TwiceIsTwo(sorted, i, j); }
    }
  }

  lemma TwiceIsTwo<T>(s: seq<T>, i: nat, j: nat)
    requires i < j < |s| && s[i] == s[j]
    ensures multiset(s)[s[i]] >= 2
  {
    assert s == s[..j] + s[j..];
    assert s[i] == s[..j][i] && s[j] == s[j..][0];
    assert s[i] in s[..j] && s[i] in s[j..];
    assert multiset(s) == multiset(s[..j]) + multiset(s[j..]);
  }

  lemma {:induction false} OnceIsOne(docs: seq<Doc>, d: Doc)
    requires Distinct(docs)
    ensures multiset(docs)[d] <= 1
  {
    if docs != [] {
      var init, last := docs[..|docs| - 1], docs[|docs| - 1];
      assert docs == init + [last];
      OnceIsOne(init, d);
      assert last !in init;
    }
  }

  /**
   * After `JoinSelic` over documents each given once: the changes the documents hold, from the first
   * one with a rate on, add up to the last target less the first.
   */
  lemma HeldChangesTelescope(docs: seq<Doc>, series: seq<Entry>, was: map<Doc, Held>, first: nat, n: nat)
    requires Distinct(docs) && forall d :: d in docs ==> d in was
    requires var rates, sorted := ByDate(series), SortDocs(docs);
             forall d :: d in docs ==>
               && d in sorted && PlaceIn(sorted, |sorted|, d) < |sorted|
               && Now(d) == Joined(rates, DatesOf(sorted), PlaceIn(sorted, |sorted|, d), was[d])
    requires first < n <= |SortDocs(docs)| && RateOn(ByDate(series), SortDocs(docs)[first].date).Some?
    requires first > 0 ==> RateOn(ByDate(series), SortDocs(docs)[first - 1].date) == None
    ensures var sorted := SortDocs(docs);
            && sorted[first].target.Some? && sorted[n - 1].target.Some?
            && ChangesHeld(sorted, first, n) == sorted[n - 1].target.value - sorted[first].target.value
  {
    var sorted := SortDocs(docs);
    SortedOnce(docs);
    SameDocs(docs, sorted);
    forall i | 0 <= i < |sorted| ensures Holds(ByDate(series), sorted, i) {
      OnlyPlace(sorted, |sorted|, i);
      assert Now(sorted[i]) == Joined(ByDate(series), DatesOf(sorted), i, was[sorted[i]]);
    }
    HeldFrom(ByDate(series), sorted, first, n);
  }

  /** What a document holds, by the rates on its date and on the date before it. */
  ghost predicate Holds(rates: map<int, real>, sorted: seq<Doc>, i: nat)
    requires i < |sorted|
    reads sorted
  {
    var rate, prev := RateOn(rates, sorted[i].date), if i == 0 then None else RateOn(rates, sorted[i - 1].date);
    rate.Some? ==> sorted[i].target == rate && sorted[i].change == Change(rate.value, prev)
  }

  lemma {:induction false} HeldFrom(rates: map<int, real>, sorted: seq<Doc>, first: nat, n: nat)
    requires ByDocDate(sorted) && forall i :: 0 <= i < |sorted| ==> Holds(rates, sorted, i)
    requires first < n <= |sorted| && RateOn(rates, sorted[first].date).Some?
    requires first > 0 ==> RateOn(rates, sorted[first - 1].date) == None
    ensures sorted[first].target.Some? && RateOn(rates, sorted[n - 1].date).Some? && sorted[n - 1].target.Some?
    ensures ChangesHeld(sorted, first, n) == sorted[n - 1].target.value - sorted[first].target.value
  {
    assert Holds(rates, sorted, n - 1) && Holds(rates, sorted, first);
    if n == first + 1 {
      assert ChangesHeld(sorted, first, first) == 0.0;
    } else {
      HeldFrom(rates, sorted, first, n - 1);
      assert Holds(rates, sorted, n - 2);
      StartsOnce(rates, sorted[n - 2].date, sorted[n - 1].date);
    }
  }
}
