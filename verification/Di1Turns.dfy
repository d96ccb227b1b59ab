/** What a poll publishes and counts, row by row. */
module Di1Turns {
  import opened Di1Worker
  import opened Di1Loop

  // ------------------------------------------------------------------------------------------
  // Which rows a turn publishes

  /** By time, then by trade number, none twice. */
  ghost predicate InTimeOrder(rows: seq<Tick>) {
    forall i, j :: 0 <= i < j < |rows| ==>
      && rows[i] != rows[j]
      && (rows[i].time < rows[j].time || (rows[i].time == rows[j].time && rows[i].number <= rows[j].number))
  }

  /** The `pending` are the rows later than the cursor, in order; the first `k` of them are published. */
  ghost predicate Publishes(source: seq<Tick>, cursor: int, acks: seq<bool>, pending: seq<Tick>, k: nat) {
    && InTimeOrder(pending) && (forall t :: t in pending <==> t in source && t.time > cursor)
    && k <= 500 && k <= |pending|
    && (forall j :: 0 <= j < k ==> pending[j].convertible && (j < |acks| ==> acks[j]))
    && (k < 500 && k < |pending| ==> !pending[k].convertible || (k < |acks| && !acks[k]))
  }

  lemma PageIs(source: seq<Tick>, cursor: int, acks: seq<bool>)
    requires Ordered(source)
    ensures var rows, pending := Page(source, cursor), Pending(source, cursor);
            && rows <= pending && |rows| == (if |pending| <= 500 then |pending| else 500)
            && PublishedCount(rows, acks, 0) <= |rows|
            && Publishes(source, cursor, acks, pending, PublishedCount(rows, acks, 0))
  {
    PendingExact(source, cursor);
    var rows, pending := Page(source, cursor), Pending(source, cursor);
    var k := PublishedCount(rows, acks, 0);
    forall i, j | 0 <= i < j < |pending| ensures Before(pending[i], pending[j]) {}
    assert forall j :: 0 <= j < |rows| ==> rows[j] == pending[j];
    assert forall j :: 0 <= j < k ==> rows[j].convertible && Acked(acks, j);
  }

  // ------------------------------------------------------------------------------------------
  // What that changes

  function Messages(contract: string, rows: seq<Tick>): seq<Message> {
    seq(|rows|, j requires 0 <= j < |rows| => Message(contract, rows[j]))
  }

  /** The rows of the contract went out, and all counts but those of errors follow. */
  ghost predicate GoesOut(s: State, r: State, contract: string, rows: seq<Tick>) {
    && r.topic == s.topic + Messages(contract, rows)
    && r.ticks == s.ticks + |rows| && r.published == s.published + |rows|
    && r.perContract - {contract} == s.perContract - {contract}
    && r.cursors - {contract} == s.cursors - {contract} && r.numbers - {contract} == s.numbers - {contract}
    && (if rows == [] then r.perContract == s.perContract && r.cursors == s.cursors && r.numbers == s.numbers
        else
          && contract in r.perContract && contract in r.cursors && contract in r.numbers
          && r.perContract[contract] == |rows| + (if contract in s.perContract then s.perContract[contract] else 0)
          && r.cursors[contract] == rows[|rows| - 1].time && r.numbers[contract] == rows[|rows| - 1].number)
  }

  lemma {:induction false} SendAllGoesOut(s: State, contract: string, rows: seq<Tick>)
    ensures var r := SendAll(s, contract, rows);
            GoesOut(s, r, contract, rows) && r.kafkaErrors == s.kafkaErrors && r.pollErrors == s.pollErrors
  {
    if rows == [] {
      assert s.topic + Messages(contract, rows) == s.topic;
    } else {
      var init, t := rows[..|rows| - 1], rows[|rows| - 1];
      SendAllGoesOut(s, contract, init);
      assert Messages(contract, rows) == Messages(contract, init) + [Message(contract, t)];
      SendGoesOut(s, SendAll(s, contract, init), contract, init, t, rows);
    }
  }

  lemma SendGoesOut(s: State, m: State, contract: string, init: seq<Tick>, t: Tick, rows: seq<Tick>)
    requires GoesOut(s, m, contract, init) && rows == init + [t]
    ensures GoesOut(s, Send(m, contract, t), contract, rows)
  {
    var r := Send(m, contract, t);
    assert Messages(contract, rows) == Messages(contract, init) + [Message(contract, t)];
    assert r.perContract - {contract} == m.perContract - {contract};
    assert r.cursors - {contract} == m.cursors - {contract} && r.numbers - {contract} == m.numbers - {contract};
  }

  /** The first `k` pending rows went out; what stopped there, before the limit, raised or counts as a broker error. */
  ghost predicate Serves(s: State, r: State, contract: string, pending: seq<Tick>, k: nat, raised: bool) {
    && k <= |pending| && GoesOut(s, r, contract, pending[..k]) && r.pollErrors == s.pollErrors
    && (raised <==> k < 500 && k < |pending| && !pending[k].convertible)
    && r.kafkaErrors == s.kafkaErrors + if k < 500 && k < |pending| && pending[k].convertible then 1 else 0
  }

  /** One contract's turn; a failed fetch counts as a poll error. */
  ghost predicate TurnDone(s: State, start: int, contract: string, source: seq<Tick>, turn: Turn, r: State,
                           raised: bool)
  {
    match turn
    case FetchFails => r == s.(pollErrors := s.pollErrors + 1) && !raised
    case Sends(acks) =>
      var cursor := if contract in s.cursors then s.cursors[contract] else start;
      exists pending, k :: Publishes(source, cursor, acks, pending, k) && Serves(s, r, contract, pending, k, raised)
  }

  lemma VisitServes(s: State, start: int, contract: string, source: seq<Tick>, turn: Turn, pending: seq<Tick>, k: nat)
    requires turn.Sends?
    requires var rows := Page(source, Cursor(s, start, contract));
             && k == PublishedCount(rows, turn.acks, 0) && rows <= pending
             && |rows| == if |pending| <= 500 then |pending| else 500
    ensures var v := Visit(s, start, contract, source, turn); Serves(s, v.state, contract, pending, k, v.raised)
  {
    var rows := Page(source, Cursor(s, start, contract));
    assert rows[..k] == pending[..k] && (k < |rows| ==> rows[k] == pending[k]);
    SendAllGoesOut(s, contract, rows[..k]);
  }

  lemma VisitDone(s: State, start: int, contract: string, source: seq<Tick>, turn: Turn)
    requires Ordered(source)
    ensures var v := Visit(s, start, contract, source, turn);
            TurnDone(s, start, contract, source, turn, v.state, v.raised)
  {
    if turn.Sends? {
      var cursor := Cursor(s, start, contract);
      var rows, pending := Page(source, cursor), Pending(source, cursor);
      PageIs(source, cursor, turn.acks);
      VisitServes(s, start, contract, source, turn, pending, PublishedCount(rows, turn.acks, 0));
    }
  }

  // ------------------------------------------------------------------------------------------
  // The poll

  /** From the state before contract `i` to the one after it; if a turn raises, it is the last. */
  ghost predicate TurnAt(states: seq<State>, start: int, contracts: seq<string>, db: string -> seq<Tick>,
                         turns: seq<Turn>, i: nat, raised: bool)
    requires i < |contracts| == |turns| && i + 1 < |states|
  {
    TurnDone(states[i], start, contracts[i], db(contracts[i]), turns[i], states[i + 1], raised && i + 2 == |states|)
  }

  /** The states between the turns of the first `n` contracts, one after the other; only the last of these may raise. */
  ghost predicate PollDone(states: seq<State>, start: int, contracts: seq<string>, db: string -> seq<Tick>,
                           turns: seq<Turn>, n: nat, raised: bool)
    requires n <= |contracts| == |turns|
  {
    && 1 <= |states| <= n + 1 && (if raised then |states| > 1 else |states| == n + 1)
    && forall i: nat :: i < |states| - 1 ==> TurnAt(states, start, contracts, db, turns, i, raised)
  }

  lemma PollOn(states: seq<State>, next: State, start: int, contracts: seq<string>, db: string -> seq<Tick>,
               turns: seq<Turn>, n: nat, raised: bool)
    requires n < |contracts| == |turns| && PollDone(states, start, contracts, db, turns, n, false)
    requires TurnDone(states[n], start, contracts[n], db(contracts[n]), turns[n], next, raised)
    ensures PollDone(states + [next], start, contracts, db, turns, n + 1, raised)
  {
    var more := states + [next];
    forall i: nat | i < |more| - 1 ensures TurnAt(more, start, contracts, db, turns, i, raised) {
      if i < n { assert TurnAt(states, start, contracts, db, turns, i, false); }
    }
  }

  lemma {:induction false} VisitAllDone(s: State, start: int, contracts: seq<string>, db: string -> seq<Tick>,
                                        turns: seq<Turn>, n: nat) returns (states: seq<State>)
    requires n <= |contracts| == |turns| && forall c: string :: Ordered(db(c))
    ensures var v := VisitAll(s, start, contracts, db, turns, n);
            && PollDone(states, start, contracts, db, turns, n, v.raised)
            && states[0] == s && states[|states| - 1] == v.state
  {
    states := [s];
    if n > 0 {
      states := VisitAllDone(s, start, contracts, db, turns, n - 1);
      var v := VisitAll(s, start, contracts, db, turns, n - 1);
      if !v.raised {
        var next := Visit(v.state, start, contracts[n - 1], db(contracts[n - 1]), turns[n - 1]);
        VisitDone(v.state, start, contracts[n - 1], db(contracts[n - 1]), turns[n - 1]);
        PollOn(states, next.state, start, contracts, db, turns, n - 1, next.raised);
        states := states + [next.state];
      }
    }
  }

  /**
   * A round of the loop: the turns of the contracts one after the other, up to the first that raises, and one
   * poll error more if one did.
   */
  lemma RoundDone(s: State, start: int, contracts: seq<string>, db: string -> seq<Tick>, turns: seq<Turn>)
    returns (states: seq<State>, raised: bool)
    requires |contracts| == |turns| && forall c: string :: Ordered(db(c))
    ensures PollDone(states, start, contracts, db, turns, |contracts|, raised) && states[0] == s
    ensures var last := states[|states| - 1];
            Round(s, start, contracts, db, turns) == last.(pollErrors := last.pollErrors + if raised then 1 else 0)
  {
    states := VisitAllDone(s, start, contracts, db, turns, |contracts|);
    raised := VisitAll(s, start, contracts, db, turns, |contracts|).raised;
  }
}
