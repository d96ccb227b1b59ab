/** What the agent is sent, told from the requests. */
module DispatchFields {
  import opened Options
  import opened OrderIds
  import opened IdTexts
  import opened Dispatcher

  // ------------------------------------------------------------------------------------------
  // Ids

  /** The id of a request, before it is hashed for its length. */
  function IdText(r: Request): string {
    Joined(["robot", Decimal(r.strategy), r.ticker, Upper(r.side), IsoMinute(r.at)])
  }

  predicate IsId(digest: string -> string, r: Request, id: string) {
    id == if |IdText(r)| <= 64 then IdText(r) else "robot:" + digest(IdText(r))
  }

  lemma IdTextIs(r: Request)
    ensures IdText(r) == RawId(Signal(r.strategy, r.ticker, Upper(r.side), r.at))
  {
    JoinedFive("robot", Decimal(r.strategy), r.ticker, Upper(r.side), IsoMinute(r.at));
    Flattened("robot", Decimal(r.strategy), r.ticker, Upper(r.side), IsoMinute(r.at));
    assert "robot" + ":" == "robot:";
  }

  lemma ClOrdIdIs(digest: string -> string, r: Request)
    ensures IsId(digest, r, ClOrdIdOf(digest, r))
  {
    IdTextIs(r);
  }

  /** The requests ask for one thing in one minute. */
  predicate SameOrder(r: Request, q: Request) {
    r.strategy == q.strategy && r.ticker == q.ticker && SameWord(r.side, q.side) && SameMinute(r.at, q.at)
  }

  lemma IdsEqualIff(digest: string -> string, r: Request, q: Request, a: string, b: string)
    requires (forall s :: DigestLike(digest(s))) && IsId(digest, r, a) && IsId(digest, q, b)
    requires ColonFree(r.ticker) && ColonFree(r.side) && ColonFree(q.ticker) && ColonFree(q.side)
    ensures a == b <==> SameOrder(r, q)
                        || (|IdText(r)| > 64 && |IdText(q)| > 64 && digest(IdText(r)) == digest(IdText(q)))
  {
    var x, y := Signal(r.strategy, r.ticker, Upper(r.side), r.at), Signal(q.strategy, q.ticker, Upper(q.side), q.at);
    UpperEqualIff(r.side, q.side);
    UpperEqualIff(q.side, r.side);
    IdTextIs(r);
    IdTextIs(q);
    OrderIdsEqual(digest, x, y);
    OrderIdsEqual(digest, y, x);
    assert SameSignal(x, y) <==> SameOrder(r, q);
    if SameOrder(r, q) { OrderIdIdempotent(digest, x, y); }
  }

  // ------------------------------------------------------------------------------------------
  // Rows, orders and exits

  /** The intent row says what the request asks for. */
  predicate Records(digest: string -> string, row: Intent, r: Request) {
    && row.signalId == r.signalId && row.strategy == r.strategy && row.ticker == r.ticker && row.side == r.side
    && row.orderType == r.orderType && row.quantity == r.quantity && row.price == r.price
    && row.takeProfit == r.takeProfit && row.stopLoss == r.stopLoss && IsId(digest, r, row.clOrdId)
  }

  /** The order is the one the request asks for; a market order has price -1. */
  predicate Carries(digest: string -> string, o: AgentOrder, r: Request) {
    && o.signalId == r.signalId && o.ticker == r.ticker && SameWord(r.side, o.side) && NoCapital(o.side)
    && o.orderType == r.orderType && o.quantity == r.quantity && o.daytrade == r.daytrade && o.env == r.env
    && (match r.price case Some(p) => o.price == p case None => o.price == -1.0)
    && IsId(digest, r, o.clOrdId)
  }

  /** The exits close the order of the request; the limit lies one percent past the stop. */
  predicate Exits(c: AgentOco, r: Request) {
    && c.ticker == r.ticker && c.quantity == r.quantity && c.daytrade == r.daytrade && c.env == r.env
    && r.takeProfit == Some(c.takeProfit) && r.stopLoss == Some(c.stopLoss)
    && (if SameWord(r.side, "buy") then c.side == "sell" && c.stopLimit * 100.0 == c.stopLoss * 99.0
        else c.side == "buy" && c.stopLimit * 100.0 == c.stopLoss * 101.0)
  }

  lemma OrderCarries(digest: string -> string, i: nat, r: Request, id: string, reply: Reply, confirmed: bool)
    requires IsId(digest, r, id)
    ensures Carries(digest, OrderFor(i, r, id, reply, confirmed), r)
  {
    LowerIs(r.side, Lower(r.side));
  }

  lemma OcoExits(i: nat, r: Request)
    requires r.takeProfit.Some? && r.stopLoss.Some?
    ensures Exits(OcoFor(i, r), r)
  {
    LowerIs(r.side, "buy");
    assert NoCapital("buy");
  }

  // ------------------------------------------------------------------------------------------
  // Over every run

  ghost predicate Started(w: World, i: nat) { i in w.store.intents && w.store.intents[i].dispatch in w.procs }

  /** The request of the dispatch that inserted intent `i`. */
  ghost function RequestOf(w: World, i: nat): Request
    requires Started(w, i)
  {
    w.procs[w.store.intents[i].dispatch].req
  }

  ghost function IdOf(w: World, i: nat): string
    requires Started(w, i)
  {
    w.procs[w.store.intents[i].dispatch].clOrdId
  }

  ghost predicate RowsMade(w: World) {
    forall i :: i in w.store.intents ==>
      Started(w, i)
        && SameInserted(NewIntent(w.store.intents[i].dispatch, RequestOf(w, i), IdOf(w, i)), w.store.intents[i])
  }

  ghost predicate OrdersMade(w: World) {
    forall o :: o in w.store.orders ==>
      Started(w, o.intent)
        && o == OrderFor(o.intent, RequestOf(w, o.intent), IdOf(w, o.intent), o.reply, o.confirmed)
  }

  ghost predicate OcosMade(w: World) {
    forall c :: c in w.store.ocos ==>
      && Started(w, c.intent) && RequestOf(w, c.intent).takeProfit.Some? && RequestOf(w, c.intent).stopLoss.Some?
      && c == OcoFor(c.intent, RequestOf(w, c.intent))
  }

  ghost predicate ProcsNamed(digest: string -> string, w: World) {
    forall p :: p in w.procs ==> w.procs[p].clOrdId == ClOrdIdOf(digest, w.procs[p].req)
  }

  /** What a step does to the intents: rows keep what they were inserted with, a new one is of this dispatch. */
  lemma RowsStep(s: Store, pid: nat, p: Proc, o: Outcome)
    requires StoreSound(s)
    ensures var s2 := NextStore(s, pid, p.req, p.clOrdId, p.phase, o);
            && (forall i :: i in s.intents ==> i in s2.intents && SameInserted(s.intents[i], s2.intents[i]))
            && (forall i :: i in s2.intents && i !in s.intents ==> s2.intents[i] == NewIntent(pid, p.req, p.clOrdId))
  {}

  lemma OrdersStep(s: Store, pid: nat, p: Proc, o: Outcome)
    ensures var s2 := NextStore(s, pid, p.req, p.clOrdId, p.phase, o);
            forall x :: x in s2.orders ==>
              || x in s.orders
              || (p.phase.Posting? && x == OrderFor(p.phase.intent, p.req, p.clOrdId, x.reply, x.confirmed))
  {}

  lemma OcosStep(s: Store, pid: nat, p: Proc, o: Outcome)
    ensures var s2 := NextStore(s, pid, p.req, p.clOrdId, p.phase, o);
            forall c :: c in s2.ocos ==>
              || c in s.ocos
              || (p.phase.AttachingOco? && p.req.takeProfit.Some? && p.req.stopLoss.Some?
                  && c == OcoFor(p.phase.intent, p.req))
  {}

  /** Intents stay with their dispatch, and dispatches with their request and id. */
  ghost predicate Extends(w: World, w2: World) {
    && (forall i :: i in w.store.intents ==>
          i in w2.store.intents && SameInserted(w.store.intents[i], w2.store.intents[i]))
    && (forall p :: p in w.procs ==>
          p in w2.procs && w2.procs[p].req == w.procs[p].req && w2.procs[p].clOrdId == w.procs[p].clOrdId)
  }

  lemma NextExtends(digest: string -> string, w: World, e: Event)
    requires Sound(w)
    ensures Extends(w, Next(digest, w, e))
  {
    if e.Step? && e.pid in w.procs { RowsStep(w.store, e.pid, w.procs[e.pid], e.outcome); }
  }

  lemma NextRowsMade(digest: string -> string, w: World, e: Event)
    requires Sound(w) && RowsMade(w)
    ensures RowsMade(Next(digest, w, e))
  {
    NextExtends(digest, w, e);
    if e.Step? && e.pid in w.procs { RowsStep(w.store, e.pid, w.procs[e.pid], e.outcome); }
  }

  lemma NextOrdersMade(digest: string -> string, w: World, e: Event)
    requires Sound(w) && OrdersMade(w)
    ensures OrdersMade(Next(digest, w, e))
  {
    NextExtends(digest, w, e);
    if e.Step? && e.pid in w.procs {
      assert ProcSound(w.store, e.pid, w.procs[e.pid]);
      OrdersStep(w.store, e.pid, w.procs[e.pid], e.outcome);
    }
  }

  lemma NextOcosMade(digest: string -> string, w: World, e: Event)
    requires Sound(w) && OcosMade(w)
    ensures OcosMade(Next(digest, w, e))
  {
    NextExtends(digest, w, e);
    if e.Step? && e.pid in w.procs {
      assert ProcSound(w.store, e.pid, w.procs[e.pid]);
      OcosStep(w.store, e.pid, w.procs[e.pid], e.outcome);
    }
  }

  lemma {:induction false} RunsMake(digest: string -> string, signals: set<int>, events: seq<Event>)
    ensures var w := Exec(digest, Initial(signals), events);
            RowsMade(w) && OrdersMade(w) && OcosMade(w) && ProcsNamed(digest, w)
  {
    if events != [] {
      var init, e := events[..|events| - 1], events[|events| - 1];
      var w := Exec(digest, Initial(signals), init);
      RunsMake(digest, signals, init);
      RunsAreSound(digest, signals, init);
      NextRowsMade(digest, w, e);
      NextOrdersMade(digest, w, e);
      NextOcosMade(digest, w, e);
    }
  }

  /**
   * After every run, each intent row, order and pair of exits is of a dispatch that has started, and
   * says field by field what its request asks for.
   */
  lemma RunsCarryRequests(digest: string -> string, signals: set<int>, events: seq<Event>)
    ensures var w := Exec(digest, Initial(signals), events);
            && (forall i :: i in w.store.intents ==>
                  Started(w, i) && Records(digest, w.store.intents[i], RequestOf(w, i)))
            && (forall o :: o in w.store.orders ==> Started(w, o.intent) && Carries(digest, o, RequestOf(w, o.intent)))
            && (forall c :: c in w.store.ocos ==> Started(w, c.intent) && Exits(c, RequestOf(w, c.intent)))
  {
    var w := Exec(digest, Initial(signals), events);
    RunsMake(digest, signals, events);
    forall i | i in w.store.intents ensures Started(w, i) && Records(digest, w.store.intents[i], RequestOf(w, i)) {
      ClOrdIdIs(digest, RequestOf(w, i));
    }
    forall o | o in w.store.orders ensures Started(w, o.intent) && Carries(digest, o, RequestOf(w, o.intent)) {
      ClOrdIdIs(digest, RequestOf(w, o.intent));
      OrderCarries(digest, o.intent, RequestOf(w, o.intent), IdOf(w, o.intent), o.reply, o.confirmed);
    }
    forall c | c in w.store.ocos ensures Started(w, c.intent) && Exits(c, RequestOf(w, c.intent)) {
      OcoExits(c.intent, RequestOf(w, c.intent));
    }
  }

  /**
   * Two orders have one id exactly if their requests have one strategy, ticker, side and minute, or both
   * ids were hashed, to one digest.
   */
  lemma OrdersShareIdIff(digest: string -> string, signals: set<int>, events: seq<Event>, o: AgentOrder, x: AgentOrder)
    requires forall s :: DigestLike(digest(s))
    requires var s := Exec(digest, Initial(signals), events).store; o in s.orders && x in s.orders
    ensures var w := Exec(digest, Initial(signals), events);
            && Started(w, o.intent) && Started(w, x.intent)
            && var a, b := RequestOf(w, o.intent), RequestOf(w, x.intent);
            ColonFree(a.ticker) && ColonFree(a.side) && ColonFree(b.ticker) && ColonFree(b.side) ==>
              (o.clOrdId == x.clOrdId <==>
                SameOrder(a, b) || (|IdText(a)| > 64 && |IdText(b)| > 64 && digest(IdText(a)) == digest(IdText(b))))
  {
    var w := Exec(digest, Initial(signals), events);
    RunsCarryRequests(digest, signals, events);
    var a, b := RequestOf(w, o.intent), RequestOf(w, x.intent);
    if ColonFree(a.ticker) && ColonFree(a.side) && ColonFree(b.ticker) && ColonFree(b.side) {
      IdsEqualIff(digest, a, b, o.clOrdId, x.clOrdId);
    }
  }
}
