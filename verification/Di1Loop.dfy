/** The publisher's poll loop: every contract in turn, its cursors and its counters. */
module Di1Loop {
  import opened Di1Worker

  datatype Message = Message(contract: string, tick: Tick)

  /** What a poll changes: cursors, the last trade numbers, the topic and the counters. */
  datatype State = State(
    cursors: map<string, int>,
    numbers: map<string, int>,
    topic: seq<Message>,
    ticks: nat,
    perContract: map<string, nat>,
    published: nat,
    kafkaErrors: nat,
    pollErrors: nat)

  function Cursor(s: State, start: int, contract: string): int {
    if contract in s.cursors then s.cursors[contract] else start
  }

  function CountOf(counts: map<string, nat>, contract: string): nat {
    if contract in counts then counts[contract] else 0
  }

  function Of(topic: seq<Message>, contract: string): seq<Tick> {
    if topic == [] then []
    else
      var init, m := topic[..|topic| - 1], topic[|topic| - 1];
      if m.contract == contract then Of(init, contract) + [m.tick] else Of(init, contract)
  }

  function Send(s: State, contract: string, t: Tick): State {
    s.(cursors := s.cursors[contract := t.time],
    numbers := s.numbers[contract := t.number],
    topic := s.topic + [Message(contract, t)],
    ticks := s.ticks + 1,
    perContract := s.perContract[contract := CountOf(s.perContract, contract) + 1],
    published := s.published + 1)
  }

  function SendAll(s: State, contract: string, ticks: seq<Tick>): State {
    if ticks == [] then s
    else Send(SendAll(s, contract, ticks[..|ticks| - 1]), contract, ticks[|ticks| - 1])
  }

  datatype Visited = Visited(state: State, raised: bool)

  /** One contract's turn. */
  function Visit(s: State, start: int, contract: string, source: seq<Tick>, turn: Turn): Visited {
    match turn
    case FetchFails => Visited(s.(pollErrors := s.pollErrors + 1), false)
    case Sends(acks) =>
      var rows := Page(source, Cursor(s, start, contract));
      var k := PublishedCount(rows, acks, 0);
      var sent := SendAll(s, contract, rows[..k]);
      if k < |rows| && rows[k].convertible then Visited(sent.(kafkaErrors := sent.kafkaErrors + 1), false)
      else Visited(sent, k < |rows|)
  }

  /** The first `n` contracts in turn; one that raises ends the poll. */
  function VisitAll(s: State, start: int, contracts: seq<string>, db: string -> seq<Tick>, turns: seq<Turn>,
                    n: nat): Visited
    requires n <= |contracts| == |turns|
  {
    if n == 0 then Visited(s, false)
    else
      var v := VisitAll(s, start, contracts, db, turns, n - 1);
      if v.raised then v else Visit(v.state, start, contracts[n - 1], db(contracts[n - 1]), turns[n - 1])
  }

  /** One round of the loop: a poll that raised counts as a poll error. */
  function Round(s: State, start: int, contracts: seq<string>, db: string -> seq<Tick>, turns: seq<Turn>): State
    requires |contracts| == |turns|
  {
    var v := VisitAll(s, start, contracts, db, turns, |contracts|);
    if v.raised then v.state.(pollErrors := v.state.pollErrors + 1) else v.state
  }

  lemma SendAllStep(s: State, contract: string, rows: seq<Tick>, i: nat)
    requires i < |rows|
    ensures SendAll(s, contract, rows[..i + 1]) == Send(SendAll(s, contract, rows[..i]), contract, rows[i])
  {
    assert rows[..i + 1][..i] == rows[..i];
  }

  class Worker {
    var startTs: int
    var lastTickTs: map<string, int>
    var lastTradeNumber: map<string, int>
    var topic: seq<Message>
    var ticksTotal: nat
    var ticksPerContract: map<string, nat>
    var kafkaPublishedTotal: nat
    var kafkaErrorsTotal: nat
    var pollErrorsTotal: nat

    ghost function Now(): State
      reads this
    {
      State(lastTickTs, lastTradeNumber, topic, ticksTotal, ticksPerContract, kafkaPublishedTotal, kafkaErrorsTotal,
            pollErrorsTotal)
    }

    /** The worker as it enters its loop. */
    constructor (now: int, contracts: seq<string>)
      ensures startTs == now && Now() == Init(now, contracts)
    {
      startTs := now;
      lastTradeNumber := map[];
      topic := [];
      ticksTotal, kafkaPublishedTotal, kafkaErrorsTotal, pollErrorsTotal := 0, 0, 0, 0;
      ticksPerContract := map[];
      var cursors := map[];
      for i := 0 to |contracts|
        invariant cursors == map c | c in contracts[..i] :: now
      {
        cursors := cursors[contracts[i] := now];
      }
      assert contracts[..|contracts|] == contracts;
      lastTickTs := cursors;
    }

    /** A row the broker acknowledged. */
    method Publish(contract: string, t: Tick)
      modifies this
      ensures startTs == old(startTs)
      ensures Now() == Send(old(Now()), contract, t)
    {
      kafkaPublishedTotal := kafkaPublishedTotal + 1;
      topic := topic + [Message(contract, t)];
      ticksTotal := ticksTotal + 1;
      ticksPerContract := ticksPerContract[contract := CountOf(ticksPerContract, contract) + 1];
      lastTickTs := lastTickTs[contract := t.time];
      lastTradeNumber := lastTradeNumber[contract := t.number];
    }

    method PollContract(contract: string, source: seq<Tick>, turn: Turn) returns (raised: bool)
      modifies this
      ensures startTs == old(startTs)
      ensures Visited(Now(), raised) == Visit(old(Now()), startTs, contract, source, turn)
    {
      if turn.FetchFails? {
        pollErrorsTotal := pollErrorsTotal + 1;
        return false;
      }
      var rows := Page(source, if contract in lastTickTs then lastTickTs[contract] else startTs);
      ghost var k := PublishedCount(rows, turn.acks, 0);
      var i := 0;
      while i < |rows|
        invariant i <= k && startTs == old(startTs)
        invariant Now() == SendAll(old(Now()), contract, rows[..i])
      {
        if !rows[i].convertible {
          return true;
        }
        if !Acked(turn.acks, i) {
          kafkaErrorsTotal := kafkaErrorsTotal + 1;
          return false;
        }
        Publish(contract, rows[i]);
        SendAllStep(old(Now()), contract, rows, i);
        i := i + 1;
      }
      assert i == |rows|;
      return false;
    }

    method PollOnce(contracts: seq<string>, db: string -> seq<Tick>, turns: seq<Turn>) returns (raised: bool)
      requires |contracts| == |turns|
      modifies this
      ensures startTs == old(startTs)
      ensures Visited(Now(), raised) == VisitAll(old(Now()), startTs, contracts, db, turns, |contracts|)
    {
      var i := 0;
      while i < |contracts|
        invariant i <= |contracts| && startTs == old(startTs)
        invariant Visited(Now(), false) == VisitAll(old(Now()), startTs, contracts, db, turns, i)
      {
        raised := PollContract(contracts[i], db(contracts[i]), turns[i]);
        i := i + 1;
        if raised {
          RaisedEndsThePoll(old(Now()), startTs, contracts, db, turns, i, |contracts|);
          return;
        }
      }
      assert i == |contracts|;
      raised := false;
    }

    method LoopBody(contracts: seq<string>, db: string -> seq<Tick>, turns: seq<Turn>)
      requires |contracts| == |turns|
      modifies this
      ensures startTs == old(startTs)
      ensures Now() == Round(old(Now()), startTs, contracts, db, turns)
    {
      var raised := PollOnce(contracts, db, turns);
      if raised {
        pollErrorsTotal := pollErrorsTotal + 1;
      }
    }
  }

  /** A poll that raised leaves every later contract as it was. */
  lemma {:induction false} RaisedEndsThePoll(s: State, start: int, contracts: seq<string>, db: string -> seq<Tick>,
                                             turns: seq<Turn>, i: nat, n: nat)
    requires i <= n <= |contracts| == |turns| && VisitAll(s, start, contracts, db, turns, i).raised
    ensures VisitAll(s, start, contracts, db, turns, n) == VisitAll(s, start, contracts, db, turns, i)
    decreases n
  {
    if i < n { RaisedEndsThePoll(s, start, contracts, db, turns, i, n - 1); }
  }

  // ------------------------------------------------------------------------------------------
  // What one contract sees of the loop

  function View(s: State, start: int, contract: string, source: seq<Tick>): Feed {
    Feed(source, start, Cursor(s, start, contract), Of(s.topic, contract))
  }

  /** The counters and trade numbers say what is on the topic. */
  ghost predicate Counted(s: State) {
    && s.ticks == s.published == |s.topic|
    && forall c: string :: CountedFor(s, c)
  }

  ghost predicate CountedFor(s: State, c: string) {
    var log := Of(s.topic, c);
    && CountOf(s.perContract, c) == |log|
    && (c in s.numbers <==> log != [])
    && (log != [] ==> s.numbers[c] == log[|log| - 1].number)
  }

  lemma {:induction false} SendAllView(s: State, start: int, contract: string, ticks: seq<Tick>, c: string)
    ensures var r := SendAll(s, contract, ticks);
            && Of(r.topic, c) == (if c == contract then Of(s.topic, c) + ticks else Of(s.topic, c))
            && Cursor(r, start, c)
              == (if c == contract then CursorAfter(Cursor(s, start, c), ticks) else Cursor(s, start, c))
  {
    if ticks != [] {
      var init, t := ticks[..|ticks| - 1], ticks[|ticks| - 1];
      SendAllView(s, start, contract, init, c);
      assert (Of(s.topic, c) + init) + [t] == Of(s.topic, c) + ticks;
    }
  }

  lemma {:induction false} SendAllCounts(s: State, contract: string, ticks: seq<Tick>, c: string)
    ensures CountedFor(s, c) ==> CountedFor(SendAll(s, contract, ticks), c)
  {
    if ticks != [] {
      var init, t := ticks[..|ticks| - 1], ticks[|ticks| - 1];
      SendAllCounts(s, contract, init, c);
    }
  }

  lemma {:induction false} SendAllTotals(s: State, contract: string, ticks: seq<Tick>)
    ensures var r := SendAll(s, contract, ticks);
            |r.topic| == |s.topic| + |ticks| && r.ticks == s.ticks + |ticks| && r.published == s.published + |ticks|
  {
    if ticks != [] { SendAllTotals(s, contract, ticks[..|ticks| - 1]); }
  }

  /** A contract's turn is one step of its own feed and leaves every other feed alone. */
  lemma VisitIsPoll(s: State, start: int, contract: string, source: seq<Tick>, turn: Turn, c: string, own: seq<Tick>)
    requires c == contract ==> own == source
    ensures var r := Visit(s, start, contract, source, turn);
            View(r.state, start, c, own)
            == if c == contract then Poll(View(s, start, c, own), turn) else View(s, start, c, own)
    ensures CountedFor(s, c) ==> CountedFor(Visit(s, start, contract, source, turn).state, c)
  {
    match turn
    case FetchFails =>
    case Sends(acks) =>
      var published := Published(source, Cursor(s, start, contract), turn);
      SendAllView(s, start, contract, published, c);
      SendAllCounts(s, contract, published, c);
  }

  lemma VisitCounted(s: State, start: int, contract: string, source: seq<Tick>, turn: Turn)
    requires Counted(s)
    ensures Counted(Visit(s, start, contract, source, turn).state)
  {
    var r := Visit(s, start, contract, source, turn).state;
    if turn.Sends? {
      SendAllTotals(s, contract, Published(source, Cursor(s, start, contract), turn));
    }
    forall c: string ensures CountedFor(r, c) {
      VisitIsPoll(s, start, contract, source, turn, c, source);
    }
  }

  ghost predicate AllSound(s: State, start: int, db: string -> seq<Tick>) {
    forall c: string :: Sound(View(s, start, c, db(c)))
  }

  lemma {:induction false} VisitAllSound(s: State, start: int, contracts: seq<string>, db: string -> seq<Tick>,
                                         turns: seq<Turn>, n: nat)
    requires n <= |contracts| == |turns| && AllSound(s, start, db) && Counted(s)
    ensures var v := VisitAll(s, start, contracts, db, turns, n).state; AllSound(v, start, db) && Counted(v)
  {
    if n > 0 {
      VisitAllSound(s, start, contracts, db, turns, n - 1);
      var v := VisitAll(s, start, contracts, db, turns, n - 1);
      if !v.raised {
        var contract, turn := contracts[n - 1], turns[n - 1];
        VisitCounted(v.state, start, contract, db(contract), turn);
        forall c: string
          ensures Sound(View(Visit(v.state, start, contract, db(contract), turn).state, start, c, db(c)))
        {
          VisitIsPoll(v.state, start, contract, db(contract), turn, c, db(c));
          PollSound(View(v.state, start, c, db(c)), turn);
        }
      }
    }
  }

  // ------------------------------------------------------------------------------------------
  // Runs of the worker

  datatype World = World(db: string -> seq<Tick>, state: State)

  /** Rows arrive, for any contracts, or the loop goes round once. */
  datatype Happening = Insert(db: string -> seq<Tick>) | GoRound(turns: seq<Turn>)

  function Init(start: int, contracts: seq<string>): State {
    State(map c | c in contracts :: start, map[], [], 0, map[], 0, 0, 0)
  }

  ghost predicate Inserts(w: World, start: int, db: string -> seq<Tick>) {
    forall c: string :: Arrives(View(w.state, start, c, w.db(c)), db(c))
  }

  ghost function NextWorld(w: World, start: int, contracts: seq<string>, h: Happening): World {
    match h
    case Insert(db) => if Inserts(w, start, db) then w.(db := db) else w
    case GoRound(turns) =>
      if |turns| == |contracts| then w.(state := Round(w.state, start, contracts, w.db, turns)) else w
  }

  ghost function RunWorker(w: World, start: int, contracts: seq<string>, hs: seq<Happening>): World {
    if hs == [] then w
    else NextWorld(RunWorker(w, start, contracts, hs[..|hs| - 1]), start, contracts, hs[|hs| - 1])
  }

  /** `Round` only adds a poll error to the polled state. */
  lemma RoundSound(s: State, start: int, contracts: seq<string>, db: string -> seq<Tick>, turns: seq<Turn>)
    requires |contracts| == |turns| && AllSound(s, start, db) && Counted(s)
    ensures var r := Round(s, start, contracts, db, turns); AllSound(r, start, db) && Counted(r)
  {
    VisitAllSound(s, start, contracts, db, turns, |contracts|);
    var v, r := VisitAll(s, start, contracts, db, turns, |contracts|).state, Round(s, start, contracts, db, turns);
    forall c: string ensures Sound(View(r, start, c, db(c))) && CountedFor(r, c) {
      assert Sound(View(v, start, c, db(c))) && CountedFor(v, c);
      assert View(r, start, c, db(c)) == View(v, start, c, db(c));
    }
  }

  /**
   * Over any run of the worker, with any failed fetches and sends, rows that raise and contracts
   * listed twice: every contract's published rows keep cursor safety, and the counters count the topic.
   */
  lemma {:induction false} WorkerRunsAreSound(db: string -> seq<Tick>, start: int, contracts: seq<string>,
                                              hs: seq<Happening>)
    requires forall c: string :: Ordered(db(c))
    ensures var w := RunWorker(World(db, Init(start, contracts)), start, contracts, hs);
            AllSound(w.state, start, w.db) && Counted(w.state)
  {
    if hs == [] {
      var s := Init(start, contracts);
      forall c: string ensures Sound(View(s, start, c, db(c))) && CountedFor(s, c) {
        assert Of(s.topic, c) == [];
      }
    } else {
      var init, h := hs[..|hs| - 1], hs[|hs| - 1];
      WorkerRunsAreSound(db, start, contracts, init);
      var w := RunWorker(World(db, Init(start, contracts)), start, contracts, init);
      match h
      case Insert(rows) =>
        if Inserts(w, start, rows) {
          forall c: string ensures Sound(View(w.state, start, c, rows(c))) {
          }
        }
      case GoRound(turns) =>
        if |turns| == |contracts| { RoundSound(w.state, start, contracts, w.db, turns); }
    }
  }
}
