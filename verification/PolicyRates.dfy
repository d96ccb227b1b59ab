/** What the join writes, told from the entries of the series. */
module PolicyRates {
  import opened Options
  import opened CopomJoin

  /** The entry could be parsed and is not later than the date. */
  predicate Counts(series: seq<Entry>, k: nat, on: int) {
    k < |series| && series[k].date.Some? && series[k].value.Some? && series[k].date.value <= on
  }

  /** Of the entries that count it has the greatest date, and of those with this date it comes last. */
  ghost predicate Rules(series: seq<Entry>, k: nat, on: int) {
    Counts(series, k, on) && forall i: nat :: Counts(series, i, on) ==>
                                       series[i].date.value < series[k].date.value
                                       || (series[i].date.value == series[k].date.value && i <= k)
  }

  /** The series has not started. */
  ghost predicate NoneYet(series: seq<Entry>, on: int) { forall k: nat :: !Counts(series, k, on) }

  /** The policy rate in force on the date. */
  ghost predicate IsRate(series: seq<Entry>, on: int, v: real) {
    exists k: nat :: Rules(series, k, on) && series[k].value.value == v
  }

  lemma GivesCounts(series: seq<Entry>, k: nat, on: int)
    requires Counts(series, k, on)
    ensures Gives(series, k, series[k].date.value) && series[k].date.value in ByDate(series)
  {
    ByDateExact(series, series[k].date.value, k);
  }

  lemma RulesIsRate(series: seq<Entry>, k: nat, on: int)
    requires Rules(series, k, on)
    ensures RateOn(ByDate(series), on) == Some(series[k].value.value)
  {
    var rates, d := ByDate(series), series[k].date.value;
    GivesCounts(series, k, on);
    forall i: nat | i > k ensures !Gives(series, i, d) {
      assert Counts(series, i, on) ==> i <= k || series[i].date.value < d;
    }
    ByDateExact(series, d, k);
    forall x | x in rates && x <= on ensures x <= d {
      ByDateExact(series, x, k);
      var i :| Gives(series, i, x);
      assert Counts(series, i, on);
    }
    assert Nearest(rates, on, d);
    forall e | Nearest(rates, on, e) ensures e == d {}
  }

  /** Where some entry counts, one rules. */
  lemma {:induction false} SomeRules(series: seq<Entry>, on: int, n: nat) returns (k: nat)
    requires n <= |series| && exists i: nat :: i < n && Counts(series, i, on)
    ensures k < n && Counts(series, k, on)
    ensures forall i: nat :: i < n && Counts(series, i, on) ==>
              series[i].date.value < series[k].date.value || (series[i].date.value == series[k].date.value && i <= k)
  {
    if exists i: nat :: i < n - 1 && Counts(series, i, on) {
      k := SomeRules(series, on, n - 1);
      if Counts(series, n - 1, on) && series[n - 1].date.value >= series[k].date.value { k := n - 1; }
    } else {
      k := n - 1;
    }
  }

  /** The rate that the join finds is that, and it finds none exactly if no entry counts. */
  lemma RateIs(series: seq<Entry>, on: int)
    ensures forall v :: RateOn(ByDate(series), on) == Some(v) <==> IsRate(series, on, v)
    ensures RateOn(ByDate(series), on) == None <==> NoneYet(series, on)
  {
    if exists i: nat :: i < |series| && Counts(series, i, on) {
      var k := SomeRules(series, on, |series|);
      assert Rules(series, k, on);
      RulesIsRate(series, k, on);
    } else {
      forall d | d in ByDate(series) ensures d > on {
        ByDateExact(series, d, 0);
        var i :| Gives(series, i, d);
        assert !Counts(series, i, on);
      }
    }
    forall k: nat | Rules(series, k, on) ensures RateOn(ByDate(series), on) == Some(series[k].value.value) {
      RulesIsRate(series, k, on);
    }
  }

  /** A document before the series is left alone; another gets the rate of its date, and the change since the last. */
  ghost predicate IsJoined(series: seq<Entry>, dates: seq<int>, i: nat, was: Held, now: Held)
    requires i < |dates|
  {
    if NoneYet(series, dates[i]) then now == was
    else
      && now.target.Some? && IsRate(series, dates[i], now.target.value)
      && (if i == 0 || NoneYet(series, dates[i - 1]) then now.change == None
          else now.change.Some? && IsRate(series, dates[i - 1], now.target.value - now.change.value))
  }

  /** So does the join. */
  lemma JoinedIs(series: seq<Entry>, dates: seq<int>, i: nat, was: Held)
    requires i < |dates|
    ensures IsJoined(series, dates, i, was, Joined(ByDate(series), dates, i, was))
  {
    RateIs(series, dates[i]);
    if i > 0 { RateIs(series, dates[i - 1]); }
  }
}
