/** Rows that cannot be converted, and what they hold up. */
module Di1Stalls {
  import opened Di1Worker
  import opened Di1Loop

  // ------------------------------------------------------------------------------------------
  // The contracts after it

  /** A turn ends the poll exactly if the row after those it published cannot be converted. */
  lemma VisitRaisesIff(s: State, start: int, contract: string, source: seq<Tick>, turn: Turn)
    ensures Visit(s, start, contract, source, turn).raised <==> Raises(source, Cursor(s, start, contract), turn)
  {}

  /** The contract at `i` is reached and its turn raises. */
  predicate RaisesAt(s: State, start: int, contracts: seq<string>, db: string -> seq<Tick>, turns: seq<Turn>, i: nat)
    requires i < |contracts| == |turns|
  {
    var v := VisitAll(s, start, contracts, db, turns, i);
    !v.raised && Raises(db(contracts[i]), Cursor(v.state, start, contracts[i]), turns[i])
  }

  /** A round reaches a contract exactly if no contract before it raises at its turn. */
  lemma {:induction false} ReachedIffNoneRaises(s: State, start: int, contracts: seq<string>, db: string -> seq<Tick>,
                                                turns: seq<Turn>, n: nat)
    requires n <= |contracts| == |turns|
    ensures !VisitAll(s, start, contracts, db, turns, n).raised
            <==> forall i :: 0 <= i < n ==> !RaisesAt(s, start, contracts, db, turns, i)
  {
    if n > 0 {
      ReachedIffNoneRaises(s, start, contracts, db, turns, n - 1);
      var v := VisitAll(s, start, contracts, db, turns, n - 1);
      VisitRaisesIff(v.state, start, contracts[n - 1], db(contracts[n - 1]), turns[n - 1]);
      assert RaisesAt(s, start, contracts, db, turns, n - 1)
        <==> !v.raised && VisitAll(s, start, contracts, db, turns, n).raised;
    }
  }

  /**
   * A contract that raises at its turn, after any rows it could publish, ends the round: what its
   * own turn leaves, with one poll error more, is what the round leaves.
   */
  lemma BadRowStarvesTheRest(s: State, start: int, contracts: seq<string>, db: string -> seq<Tick>, turns: seq<Turn>,
                             i: nat)
    requires i < |contracts| == |turns| && RaisesAt(s, start, contracts, db, turns, i)
    ensures var v := VisitAll(s, start, contracts, db, turns, i + 1).state;
            Round(s, start, contracts, db, turns) == v.(pollErrors := v.pollErrors + 1)
  {
    var v := VisitAll(s, start, contracts, db, turns, i);
    VisitRaisesIff(v.state, start, contracts[i], db(contracts[i]), turns[i]);
    RaisedEndsThePoll(s, start, contracts, db, turns, i + 1, |contracts|);
  }

  // ------------------------------------------------------------------------------------------
  // Its own contract

  ghost predicate AllConvertible(log: seq<Tick>) { forall t :: t in log ==> t.convertible }

  lemma PublishedConvertible(source: seq<Tick>, cursor: int, turn: Turn)
    ensures AllConvertible(Published(source, cursor, turn))
  {
    var published := Published(source, cursor, turn);
    forall j | 0 <= j < |published| ensures published[j].convertible {
      assert published[j] == Page(source, cursor)[j];
    }
  }

  lemma {:induction false} RunsPublishConvertible(source: seq<Tick>, start: int, events: seq<Event>)
    ensures AllConvertible(Exec(Feed(source, start, start, []), events).log)
  {
    if events != [] {
      var init, e := events[..|events| - 1], events[|events| - 1];
      RunsPublishConvertible(source, start, init);
      var f := Exec(Feed(source, start, start, []), init);
      if e.Turn? { PublishedConvertible(f.source, f.cursor, e.turn); }
    }
  }

  /**
   * After any polls, and arrivals not behind the cursor: a row that cannot be converted has not been
   * published, and the cursor is before its time exactly as long as no other row of that time has been.
   */
  lemma BadRowHoldsTheCursorIff(source: seq<Tick>, start: int, events: seq<Event>, bad: Tick)
    requires Ordered(source) && !bad.convertible && start < bad.time
    requires NoneBehind(Feed(source, start, start, []), events)
    requires bad in Exec(Feed(source, start, start, []), events).source
    ensures var f := Exec(Feed(source, start, start, []), events);
            bad !in f.log && (f.cursor < bad.time <==> !SharesTime(f.log, bad))
  {
    RunsAreSound(source, start, events);
    RunsPublishConvertible(source, start, events);
  }

  const BAD := Tick(5, 7, 0, false)
  const LATE := Tick(5, 3, 1, true)

  /** A row that holds the cursor is passed once a row of its time arrives and is published. */
  lemma LateTieReleasesTheCursor()
    ensures var all := Turn(Sends([]));
            && Exec(Feed([BAD], 0, 0, []), [all]) == Feed([BAD], 0, 0, [])
            && Exec(Feed([BAD], 0, 0, []), [all, Arrive([LATE, BAD]), all]) == Feed([LATE, BAD], 0, 5, [LATE])
  {
    var all, f0, f1 := Turn(Sends([])), Feed([BAD], 0, 0, []), Feed([LATE, BAD], 0, 0, []);
    assert [BAD][1..] == [] && [LATE, BAD][1..] == [BAD];
    assert Pending([BAD], 0) == [BAD];
    assert Pending([LATE, BAD], 0) == [LATE] + Pending([BAD], 0);
    assert Pending([LATE, BAD], 0) == [LATE, BAD];
    assert PublishedCount([BAD], [], 0) == 0;
    assert PublishedCount([LATE, BAD], [], 1) == 1;
    assert PublishedCount([LATE, BAD], [], 0) == 1;
    assert [LATE, BAD][..1] == [LATE] && [BAD][..0] == [];
    assert Poll(f0, Sends([])) == f0 && Poll(f1, Sends([])) == Feed([LATE, BAD], 0, 5, [LATE]);
    assert Ordered([LATE, BAD]) && Grows(f0, [LATE, BAD]);
    var es := [all, Arrive([LATE, BAD]), all];
    assert es[..2] == [all, Arrive([LATE, BAD])] && es[..2][..1] == [all] && [all][..0] == [];
    assert Exec(f0, [all]) == f0;
    assert Exec(f0, es[..2]) == f1;
  }
}
