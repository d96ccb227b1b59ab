/** The order dispatcher as a step machine. */
module Dispatcher {
  import opened Options
  import opened OrderIds

  // Any number of dispatches work over one database and one agent, where any database call or POST may
  // fail and any dispatch may stop between two steps.

  /** The arguments of `dispatch_order`. */
  datatype Request = Request(
    signalId: int, strategy: int, ticker: string, side: string, quantity: real, price: Option<real>, orderType: string,
    takeProfit: Option<real>, stopLoss: Option<real>, daytrade: bool, env: string, at: Instant)

  /** A row of `robot_orders_intent`; `dispatch` records which dispatch inserted it. */
  datatype Intent = Intent(
    dispatch: nat, signalId: int, strategy: int, ticker: string, side: string, orderType: string, quantity: real,
    price: Option<real>, takeProfit: Option<real>, stopLoss: Option<real>, clOrdId: string,
    sent: bool, localOrderId: Option<int>, errorMsg: Option<string>)

  /** The columns of `robot_signals_log` the dispatcher writes. */
  datatype SignalRow = SignalRow(sent: bool, localOrderId: Option<int>)

  /** The ids in the agent's reply to an accepted order. */
  datatype Reply = Reply(localOrderId: Option<int>, localId: Option<int>)

  /** `local_order_id`, or `local_id` where that is null; zero counts as an id. */
  function ReplyId(r: Reply): Option<int> { if r.localOrderId.Some? then r.localOrderId else r.localId }

  /**
   * An order the agent accepted; `intent` records the intent it was sent for, and `confirmed` whether
   * the dispatcher got a reply with an id.
   */
  datatype AgentOrder = AgentOrder(
    intent: nat, signalId: int, clOrdId: string, ticker: string, side: string, orderType: string, quantity: real,
    price: real,
    daytrade: bool, env: string, reply: Reply, confirmed: bool)

  /** A take-profit and stop-loss pair the agent accepted. */
  datatype AgentOco = AgentOco(
    intent: nat, ticker: string, side: string, quantity: real, takeProfit: real, stopLoss: real, stopLimit: real,
    daytrade: bool, env: string)

  datatype Store = Store(
    intents: map<nat, Intent>, nextIntent: nat, signals: map<int, SignalRow>, orders: seq<AgentOrder>,
    ocos: seq<AgentOco>)

  // ------------------------------------------------------------------------------------------
  // Single operations on the store

  function NewIntent(pid: nat, req: Request, clOrdId: string): Intent {
    Intent(pid, req.signalId, req.strategy, req.ticker, req.side, req.orderType, req.quantity,
           req.price, req.takeProfit, req.stopLoss, clOrdId, false, None, None)
  }

  function SaveIntent(s: Store, row: Intent): Store {
    s.(intents := s.intents[s.nextIntent := row], nextIntent := s.nextIntent + 1)
  }

  /** UPDATE robot_orders_intent: the attempt is over, with a local id or an error. */
  function MarkIntent(s: Store, i: nat, localOrderId: Option<int>, errorMsg: Option<string>): Store {
    if i in s.intents
    then s.(intents := s.intents[i := s.intents[i].(sent := true, localOrderId := localOrderId, errorMsg := errorMsg)])
    else s
  }

  /** UPDATE robot_signals_log. */
  function MarkSignal(s: Store, id: int, localOrderId: Option<int>, sent: bool): Store {
    if id in s.signals then s.(signals := s.signals[id := SignalRow(sent, localOrderId)]) else s
  }

  /** The order the agent records for a POST. */
  function OrderFor(i: nat, req: Request, clOrdId: string, reply: Reply, confirmed: bool): AgentOrder {
    AgentOrder(i, req.signalId, clOrdId, req.ticker, Lower(req.side), req.orderType, req.quantity,
               if req.price.Some? then req.price.value else -1.0, req.daytrade, req.env, reply, confirmed)
  }

  function ExitSide(side: string): string { if Lower(side) == "buy" then "sell" else "buy" }

  function OcoFor(i: nat, req: Request): AgentOco
    requires req.takeProfit.Some? && req.stopLoss.Some?
  {
    var side := ExitSide(req.side);
    AgentOco(i, req.ticker, side, req.quantity, req.takeProfit.value, req.stopLoss.value,
             req.stopLoss.value * (if side == "sell" then 0.99 else 1.01), req.daytrade, req.env)
  }

  function ClOrdIdOf(digest: string -> string, req: Request): string {
    MakeClOrdId(digest, Signal(req.strategy, req.ticker, Upper(req.side), req.at))
  }

  // ------------------------------------------------------------------------------------------
  // One dispatch, step by step

  datatype Result = NotPersisted | Failed(intent: nat, error: string) | Sent(intent: nat, localOrderId: int)

  /** Where a dispatch stands: the call it makes next. */
  datatype Phase =
    | Inserting
    | Posting(intent: nat)
    | NotingError(intent: nat, error: string)
    | ClearingSignal(intent: nat, error: string)
    | NotingSent(intent: nat, localOrderId: int)
    | MarkingSignal(intent: nat, localOrderId: int)
    | AttachingOco(intent: nat, localOrderId: int)
    | Done(result: Result)
    | Crashed

  /**
   * What the environment makes of the next call. A database call may take effect and still raise,
   * or raise without effect. A POST may be accepted and still raise (`error` set): a timeout.
   */
  datatype Outcome =
    | Database(saved: bool, raised: bool)
    | Post(accepted: bool, reply: Reply, error: Option<string>)
    | Crash

  const REJECTED := "agent_send_rejected"
  const MISSING_ID := "send_response_missing_local_order_id"

  function AfterPost(i: nat, o: Outcome): Phase
    requires o.Post?
  {
    if o.error.Some? then NotingError(i, o.error.value)
    else if !o.accepted then NotingError(i, REJECTED)
    else match ReplyId(o.reply)
      case None => NotingError(i, MISSING_ID)
      case Some(id) => NotingSent(i, id)
  }

  function NextPhase(s: Store, req: Request, p: Phase, o: Outcome): Phase {
    match (p, o)
    case (Done(_), _) => p
    case (Crashed, _) => p
    case (_, Crash) => Crashed
    case (Inserting, Database(saved, raised)) => if saved && !raised then Posting(s.nextIntent) else Done(NotPersisted)
    case (Posting(i), Post(_, _, _)) => AfterPost(i, o)
    case (NotingError(i, e), Database(_, _)) => ClearingSignal(i, e)
    case (ClearingSignal(i, e), Database(_, _)) => Done(Failed(i, e))
    case (NotingSent(i, id), Database(_, _)) => MarkingSignal(i, id)
    case (MarkingSignal(i, id), Database(_, _)) =>
      if req.takeProfit.Some? && req.stopLoss.Some? then AttachingOco(i, id) else Done(Sent(i, id))
    case (AttachingOco(i, id), Post(_, _, _)) => Done(Sent(i, id))
    case (_, _) => p
  }

  function NextStore(s: Store, pid: nat, req: Request, clOrdId: string, p: Phase, o: Outcome): Store {
    match (p, o)
    case (Inserting, Database(saved, _)) => if saved then SaveIntent(s, NewIntent(pid, req, clOrdId)) else s
    case (Posting(i), Post(accepted, reply, error)) =>
      if accepted then s.(orders := s.orders + [OrderFor(i, req, clOrdId, reply, error.None? && ReplyId(reply).Some?)])
      else s
    case (NotingError(i, e), Database(saved, _)) => if saved then MarkIntent(s, i, None, Some(e)) else s
    case (ClearingSignal(i, e), Database(saved, _)) => if saved then MarkSignal(s, req.signalId, None, false) else s
    case (NotingSent(i, id), Database(saved, _)) => if saved then MarkIntent(s, i, Some(id), None) else s
    case (MarkingSignal(i, id), Database(saved, _)) => if saved then MarkSignal(s, req.signalId, Some(id), true) else s
    case (AttachingOco(i, id), Post(accepted, _, _)) =>
      if accepted && req.takeProfit.Some? && req.stopLoss.Some? then s.(ocos := s.ocos + [OcoFor(i, req)]) else s
    case (_, _) => s
  }

  // ------------------------------------------------------------------------------------------
  // Any number of dispatches, interleaved

  datatype Proc = Proc(req: Request, clOrdId: string, phase: Phase)

  datatype World = World(store: Store, procs: map<nat, Proc>)

  /** A new dispatch starts, or a running one makes its next call. */
  datatype Event = Start(pid: nat, req: Request) | Step(pid: nat, outcome: Outcome)

  function Next(digest: string -> string, w: World, e: Event): World {
    match e
    case Start(pid, req) =>
      if pid in w.procs then w else w.(procs := w.procs[pid := Proc(req, ClOrdIdOf(digest, req), Inserting)])
    case Step(pid, o) =>
      if pid !in w.procs then w
      else
        var p := w.procs[pid];
        World(NextStore(w.store, pid, p.req, p.clOrdId, p.phase, o),
              w.procs[pid := p.(phase := NextPhase(w.store, p.req, p.phase, o))])
  }

  function Exec(digest: string -> string, w: World, events: seq<Event>): World {
    if events == [] then w else Next(digest, Exec(digest, w, events[..|events| - 1]), events[|events| - 1])
  }

  /** No intents, no orders, and signal rows not yet sent. */
  function Initial(signals: set<int>): World {
    World(Store(map[], 0, map id | id in signals :: SignalRow(false, None), [], []), map[])
  }

  // ------------------------------------------------------------------------------------------
  // What every run keeps

  /** The intent row carries everything needed to recognise the order. */
  ghost predicate Audited(s: Store, o: AgentOrder) {
    o.intent in s.intents &&
    var row := s.intents[o.intent];
    && row.clOrdId == o.clOrdId && row.ticker == o.ticker && Lower(row.side) == o.side && row.quantity == o.quantity
    && row.orderType == o.orderType && o.price == (if row.price.Some? then row.price.value else -1.0)
    && row.signalId == o.signalId
  }

  ghost predicate OrderedWith(s: Store, i: nat, id: int) {
    exists o :: o in s.orders && o.intent == i && ReplyId(o.reply) == Some(id)
  }

  ghost predicate SignalOrderedWith(s: Store, signalId: int, id: int) {
    exists o :: o in s.orders && o.signalId == signalId && ReplyId(o.reply) == Some(id)
  }

  /** A row is unsent with neither id nor error, or sent with exactly one of them; an id is the agent's. */
  ghost predicate IntentSound(s: Store, i: nat)
    requires i in s.intents
  {
    var row := s.intents[i];
    && (if row.sent then row.localOrderId.Some? != row.errorMsg.Some? else row.localOrderId.None? && row.errorMsg.None?)
    && (row.localOrderId.Some? ==> OrderedWith(s, i, row.localOrderId.value))
  }

  /** A signal is marked sent exactly with an id, which the agent returned for that signal. */
  ghost predicate SignalSound(s: Store, id: int)
    requires id in s.signals
  {
    var row := s.signals[id];
    && row.sent == row.localOrderId.Some?
    && (row.sent ==> SignalOrderedWith(s, id, row.localOrderId.value))
  }

  /** Every OCO closes an accepted order of the same intent: opposite side, same ticker and quantity. */
  ghost predicate OcoSound(s: Store, c: AgentOco) {
    && c.intent in s.intents
    && s.intents[c.intent].takeProfit == Some(c.takeProfit) && s.intents[c.intent].stopLoss == Some(c.stopLoss)
    && exists o :: o in s.orders && o.intent == c.intent && ReplyId(o.reply).Some?
         && c.ticker == o.ticker && c.quantity == o.quantity && c.side == (if o.side == "buy" then "sell" else "buy")
  }

  ghost predicate NoOrderFor(s: Store, i: nat) { forall o :: o in s.orders ==> o.intent != i }

  /** No order of this intent was confirmed to the dispatcher. */
  ghost predicate Unconfirmed(s: Store, i: nat) { forall o :: o in s.orders && o.intent == i ==> !o.confirmed }

  ghost predicate NoOcoFor(s: Store, i: nat) { forall c :: c in s.ocos ==> c.intent != i }

  ghost predicate OneOrderPerIntent(s: Store) {
    forall j, k :: 0 <= j < k < |s.orders| ==> s.orders[j].intent != s.orders[k].intent
  }

  ghost predicate OneOcoPerIntent(s: Store) {
    forall j, k :: 0 <= j < k < |s.ocos| ==> s.ocos[j].intent != s.ocos[k].intent
  }

  ghost predicate StoreSound(s: Store) {
    && (forall i :: i in s.intents ==> i < s.nextIntent && IntentSound(s, i))
    && (forall id :: id in s.signals ==> SignalSound(s, id))
    && (forall o :: o in s.orders ==> Audited(s, o))
    && (forall c :: c in s.ocos ==> OcoSound(s, c))
    && OneOrderPerIntent(s) && OneOcoPerIntent(s)
  }

  /** The row is this dispatch's own, as it was inserted up to the columns a later UPDATE sets. */
  ghost predicate Owns(s: Store, pid: nat, p: Proc, i: nat) {
    i in s.intents &&
    var row := s.intents[i];
    row == NewIntent(pid, p.req, p.clOrdId).(sent := row.sent, localOrderId := row.localOrderId,
                                             errorMsg := row.errorMsg)
  }

  ghost predicate Accepted(s: Store, p: Proc, i: nat, id: int) {
    exists o :: o in s.orders && o == OrderFor(i, p.req, p.clOrdId, o.reply, true) && ReplyId(o.reply) == Some(id)
  }

  ghost predicate ProcSound(s: Store, pid: nat, p: Proc) {
    match p.phase
    case Inserting => true
    case Posting(i) => Owns(s, pid, p, i) && NoOrderFor(s, i) && NoOcoFor(s, i)
    case NotingError(i, e) => Owns(s, pid, p, i) && Unconfirmed(s, i) && NoOcoFor(s, i)
    case ClearingSignal(i, e) => Owns(s, pid, p, i) && Unconfirmed(s, i) && NoOcoFor(s, i)
    case NotingSent(i, id) => Owns(s, pid, p, i) && Accepted(s, p, i, id) && NoOcoFor(s, i)
    case MarkingSignal(i, id) => Owns(s, pid, p, i) && Accepted(s, p, i, id) && NoOcoFor(s, i)
    case AttachingOco(i, id) => Owns(s, pid, p, i) && Accepted(s, p, i, id) && NoOcoFor(s, i)
    case Done(NotPersisted) => true
    case Done(Failed(i, e)) => Owns(s, pid, p, i) && Unconfirmed(s, i) && NoOcoFor(s, i)
    case Done(Sent(i, id)) => Owns(s, pid, p, i) && Accepted(s, p, i, id)
    case Crashed => true
  }

  /** Rows belong to dispatches that have started. */
  ghost predicate Sound(w: World) {
    && StoreSound(w.store)
    && (forall pid :: pid in w.procs ==> ProcSound(w.store, pid, w.procs[pid]))
  }

  // ------------------------------------------------------------------------------------------
  // One step at a time

  /** From `s` to `s2`, only rows and orders of dispatch `pid` were added or changed. */
  ghost predicate Touches(s: Store, s2: Store, pid: nat) {
    && (forall i :: i in s.intents ==> i in s2.intents)
    && (forall i :: i in s.intents && s.intents[i].dispatch != pid ==> i in s2.intents && s2.intents[i] == s.intents[i])
    && (forall o :: o in s.orders ==> o in s2.orders)
    && (forall o :: o in s2.orders && o !in s.orders ==> o.intent in s.intents && s.intents[o.intent].dispatch == pid)
    && (forall c :: c in s2.ocos && c !in s.ocos ==> c.intent in s.intents && s.intents[c.intent].dispatch == pid)
  }

  /** The other dispatches are not disturbed. */
  lemma OthersSound(s: Store, s2: Store, pid: nat, q: nat, p: Proc)
    requires ProcSound(s, q, p) && q != pid && Touches(s, s2, pid)
    ensures ProcSound(s2, q, p)
  {}

  ghost predicate SameInserted(row: Intent, row2: Intent) {
    row2 == row.(sent := row2.sent, localOrderId := row2.localOrderId, errorMsg := row2.errorMsg)
  }

  /** Rows keep the columns they were inserted with, and orders are only added. */
  ghost predicate Grows(s: Store, s2: Store) {
    && (forall i :: i in s.intents ==> i in s2.intents && SameInserted(s.intents[i], s2.intents[i]))
    && (forall o :: o in s.orders ==> o in s2.orders)
  }

  /** What was sound and did not change is still sound. */
  lemma StaysSound(s: Store, s2: Store)
    requires StoreSound(s) && Grows(s, s2)
    ensures forall i :: i in s.intents && s2.intents[i] == s.intents[i] ==> IntentSound(s2, i)
    ensures forall g :: g in s.signals && g in s2.signals && s2.signals[g] == s.signals[g] ==> SignalSound(s2, g)
    ensures forall o :: o in s.orders ==> Audited(s2, o)
    ensures forall c :: c in s.ocos ==> OcoSound(s2, c)
    ensures forall i, id :: OrderedWith(s, i, id) ==> OrderedWith(s2, i, id)
    ensures forall g, id :: SignalOrderedWith(s, g, id) ==> SignalOrderedWith(s2, g, id)
  {
    forall i | i in s.intents && s2.intents[i] == s.intents[i] ensures IntentSound(s2, i) {
      assert IntentSound(s, i);
    }
    forall g | g in s.signals && g in s2.signals && s2.signals[g] == s.signals[g] ensures SignalSound(s2, g) {
      assert SignalSound(s, g);
    }
    forall o | o in s.orders ensures Audited(s2, o) { assert Audited(s, o); }
    forall c | c in s.ocos ensures OcoSound(s2, c) { assert OcoSound(s, c); }
  }

  lemma InsertStep(s: Store, pid: nat, p: Proc)
    requires StoreSound(s)
    ensures var s2 := SaveIntent(s, NewIntent(pid, p.req, p.clOrdId));
            StoreSound(s2) && Touches(s, s2, pid) && Owns(s2, pid, p, s.nextIntent)
            && NoOrderFor(s2, s.nextIntent) && NoOcoFor(s2, s.nextIntent)
  {
    StaysSound(s, SaveIntent(s, NewIntent(pid, p.req, p.clOrdId)));
    assert forall o :: o in s.orders ==> Audited(s, o);
    assert forall c :: c in s.ocos ==> OcoSound(s, c);
  }

  lemma PostStep(s: Store, pid: nat, p: Proc, i: nat, reply: Reply, confirmed: bool)
    requires StoreSound(s) && Owns(s, pid, p, i) && NoOrderFor(s, i) && (confirmed ==> ReplyId(reply).Some?)
    ensures var s2 := s.(orders := s.orders + [OrderFor(i, p.req, p.clOrdId, reply, confirmed)]);
            StoreSound(s2) && Touches(s, s2, pid) && Owns(s2, pid, p, i) && (NoOcoFor(s, i) ==> NoOcoFor(s2, i))
            && if confirmed then Accepted(s2, p, i, ReplyId(reply).value) else Unconfirmed(s2, i)
  {
    var o := OrderFor(i, p.req, p.clOrdId, reply, confirmed);
    var s2 := s.(orders := s.orders + [o]);
    StaysSound(s, s2);
    assert o in s2.orders && Audited(s2, o);
    assert forall k :: 0 <= k < |s.orders| ==> s.orders[k] in s.orders;
  }

  lemma MarkIntentStep(s: Store, pid: nat, p: Proc, i: nat, localOrderId: Option<int>, errorMsg: Option<string>)
    requires StoreSound(s) && Owns(s, pid, p, i) && localOrderId.Some? != errorMsg.Some?
    requires localOrderId.Some? ==> OrderedWith(s, i, localOrderId.value)
    ensures var s2 := MarkIntent(s, i, localOrderId, errorMsg);
            StoreSound(s2) && Touches(s, s2, pid) && Owns(s2, pid, p, i) && s2.orders == s.orders && s2.ocos == s.ocos
  {
    var s2 := MarkIntent(s, i, localOrderId, errorMsg);
    StaysSound(s, s2);
    assert IntentSound(s2, i);
  }

  lemma MarkSignalStep(s: Store, pid: nat, id: int, localOrderId: Option<int>, sent: bool)
    requires StoreSound(s) && sent == localOrderId.Some?
    requires sent ==> SignalOrderedWith(s, id, localOrderId.value)
    ensures var s2 := MarkSignal(s, id, localOrderId, sent);
            StoreSound(s2) && Touches(s, s2, pid) && s2.intents == s.intents && s2.orders == s.orders
              && s2.ocos == s.ocos
  {
    var s2 := MarkSignal(s, id, localOrderId, sent);
    StaysSound(s, s2);
    assert id in s2.signals ==> SignalSound(s2, id);
  }

  lemma OcoStep(s: Store, pid: nat, p: Proc, i: nat, id: int)
    requires StoreSound(s) && Owns(s, pid, p, i) && Accepted(s, p, i, id) && NoOcoFor(s, i)
    requires p.req.takeProfit.Some? && p.req.stopLoss.Some?
    ensures var s2 := s.(ocos := s.ocos + [OcoFor(i, p.req)]);
            StoreSound(s2) && Touches(s, s2, pid) && Owns(s2, pid, p, i) && Accepted(s2, p, i, id)
  {
    OcoClosesOrder(s, pid, p, i, id);
    AddOco(s, OcoFor(i, p.req));
  }

  lemma AddOco(s: Store, c: AgentOco)
    requires StoreSound(s) && OcoSound(s, c) && NoOcoFor(s, c.intent)
    ensures StoreSound(s.(ocos := s.ocos + [c]))
  {
    var s2 := s.(ocos := s.ocos + [c]);
    StaysSound(s, s2);
    assert OcoSound(s2, c);
    assert forall k :: 0 <= k < |s.ocos| ==> s.ocos[k] in s.ocos;
  }

  lemma OcoClosesOrder(s: Store, pid: nat, p: Proc, i: nat, id: int)
    requires Owns(s, pid, p, i) && Accepted(s, p, i, id) && p.req.takeProfit.Some? && p.req.stopLoss.Some?
    ensures OcoSound(s, OcoFor(i, p.req))
  {
    var o :| o in s.orders && o == OrderFor(i, p.req, p.clOrdId, o.reply, true) && ReplyId(o.reply) == Some(id);
    assert o.intent == i;
  }

  // ------------------------------------------------------------------------------------------
  // Every step, every run

  lemma StepSound(s: Store, pid: nat, p: Proc, o: Outcome)
    requires StoreSound(s) && ProcSound(s, pid, p)
    ensures var s2 := NextStore(s, pid, p.req, p.clOrdId, p.phase, o);
            StoreSound(s2) && Touches(s, s2, pid) && ProcSound(s2, pid, p.(phase := NextPhase(s, p.req, p.phase, o)))
  {
    match (p.phase, o)
    case (Inserting, Database(saved, _)) => InsertStep(s, pid, p);
    case (Posting(i), Post(accepted, reply, error)) =>
      PostStep(s, pid, p, i, reply, error.None? && ReplyId(reply).Some?);
    case (NotingError(_, _), _) => UpdateSound(s, pid, p, o);
    case (ClearingSignal(_, _), _) => UpdateSound(s, pid, p, o);
    case (NotingSent(_, _), _) => UpdateSound(s, pid, p, o);
    case (MarkingSignal(_, _), _) => UpdateSound(s, pid, p, o);
    case (AttachingOco(i, id), Post(_, _, _)) =>
      if p.req.takeProfit.Some? && p.req.stopLoss.Some? { OcoStep(s, pid, p, i, id); }
    case (_, _) =>
  }

  lemma UpdateSound(s: Store, pid: nat, p: Proc, o: Outcome)
    requires StoreSound(s) && ProcSound(s, pid, p)
    requires p.phase.NotingError? || p.phase.ClearingSignal? || p.phase.NotingSent? || p.phase.MarkingSignal?
    ensures var s2 := NextStore(s, pid, p.req, p.clOrdId, p.phase, o);
            StoreSound(s2) && Touches(s, s2, pid) && ProcSound(s2, pid, p.(phase := NextPhase(s, p.req, p.phase, o)))
  {
    match (p.phase, o)
    case (NotingError(i, e), Database(_, _)) => MarkIntentStep(s, pid, p, i, None, Some(e));
    case (ClearingSignal(i, e), Database(_, _)) => MarkSignalStep(s, pid, p.req.signalId, None, false);
    case (NotingSent(i, id), Database(_, _)) => MarkIntentStep(s, pid, p, i, Some(id), None);
    case (MarkingSignal(i, id), Database(_, _)) => MarkSignalStep(s, pid, p.req.signalId, Some(id), true);
    case (_, _) =>
  }

  lemma NextSound(digest: string -> string, w: World, e: Event)
    requires Sound(w)
    ensures Sound(Next(digest, w, e))
  {
    if e.Step? && e.pid in w.procs {
      var p := w.procs[e.pid];
      StepSound(w.store, e.pid, p, e.outcome);
      var s2 := NextStore(w.store, e.pid, p.req, p.clOrdId, p.phase, e.outcome);
      forall q | q in w.procs && q != e.pid ensures ProcSound(s2, q, w.procs[q]) {
        OthersSound(w.store, s2, e.pid, q, w.procs[q]);
      }
    }
  }

  /** Whatever happens, in whatever order: the invariant holds after every run. */
  lemma {:induction false} RunsAreSound(digest: string -> string, signals: set<int>, events: seq<Event>)
    ensures Sound(Exec(digest, Initial(signals), events))
  {
    if events != [] {
      RunsAreSound(digest, signals, events[..|events| - 1]);
      NextSound(digest, Exec(digest, Initial(signals), events[..|events| - 1]), events[|events| - 1]);
    }
  }

  /**
   * The audit trail: after every run, every order the agent accepted has an intent row of its own
   * that carries its id, ticker, side, quantity, type, price and signal.
   */
  lemma EveryOrderIsAudited(digest: string -> string, signals: set<int>, events: seq<Event>)
    ensures var s := Exec(digest, Initial(signals), events).store;
            && (forall o :: o in s.orders ==> Audited(s, o))
            && (forall j, k :: 0 <= j < k < |s.orders| ==> s.orders[j].intent != s.orders[k].intent)
  {
    RunsAreSound(digest, signals, events);
  }

  /** A signal is marked sent only with an id the agent returned for one of its orders. */
  lemma SentSignalsWereOrdered(digest: string -> string, signals: set<int>, events: seq<Event>, id: int)
    ensures var s := Exec(digest, Initial(signals), events).store;
            id in s.signals && s.signals[id].sent ==>
              s.signals[id].localOrderId.Some? && SignalOrderedWith(s, id, s.signals[id].localOrderId.value)
  {
    RunsAreSound(digest, signals, events);
  }

  /** An intent with `sent_at` holds exactly one of local id and error, an unsent one neither. */
  lemma SentIntentsHoldOneOutcome(digest: string -> string, signals: set<int>, events: seq<Event>, i: nat)
    ensures var s := Exec(digest, Initial(signals), events).store;
            i in s.intents ==>
              var row := s.intents[i];
              && (row.sent ==> row.localOrderId.Some? != row.errorMsg.Some?)
              && (!row.sent ==> row.localOrderId.None? && row.errorMsg.None?)
              && (row.localOrderId.Some? ==> OrderedWith(s, i, row.localOrderId.value))
  {
    RunsAreSound(digest, signals, events);
  }

  /** No position is closed that was not opened: each OCO reverses one accepted order, at most once. */
  lemma OcosReverseOrders(digest: string -> string, signals: set<int>, events: seq<Event>)
    ensures var s := Exec(digest, Initial(signals), events).store;
            && (forall c :: c in s.ocos ==> OcoSound(s, c))
            && (forall j, k :: 0 <= j < k < |s.ocos| ==> s.ocos[j].intent != s.ocos[k].intent)
  {
    RunsAreSound(digest, signals, events);
  }

  // ------------------------------------------------------------------------------------------
  // One dispatch on its own, as the code runs it

  /** What the environment makes of each call of one dispatch. */
  datatype Script = Script(insert: Outcome, post: Outcome, note: Outcome, signal: Outcome, oco: Outcome)

  ghost predicate ValidScript(c: Script) {
    c.insert.Database? && c.post.Post? && c.note.Database? && c.signal.Database? && c.oco.Post?
  }

  ghost function CallOutcome(p: Phase, c: Script): Outcome {
    match p
    case Inserting => c.insert
    case Posting(_) => c.post
    case NotingError(_, _) => c.note
    case NotingSent(_, _) => c.note
    case AttachingOco(_, _) => c.oco
    case _ => c.signal
  }

  function Remaining(p: Phase): nat {
    match p
    case Inserting => 5
    case Posting(_) => 4
    case NotingError(_, _) => 3
    case NotingSent(_, _) => 3
    case ClearingSignal(_, _) => 2
    case MarkingSignal(_, _) => 2
    case AttachingOco(_, _) => 1
    case _ => 0
  }

  datatype Outlook = Outlook(store: Store, phase: Phase)

  /** The machine above, run to the end for one dispatch with nothing in between. */
  ghost function Alone(s: Store, pid: nat, req: Request, clOrdId: string, p: Phase, c: Script): (r: Outlook)
    requires ValidScript(c)
    decreases Remaining(p)
  {
    if p.Done? || p.Crashed? then Outlook(s, p)
    else
      var o := CallOutcome(p, c);
      Alone(NextStore(s, pid, req, clOrdId, p, o), pid, req, clOrdId, NextPhase(s, req, p, o), c)
  }

  lemma AloneStep(s: Store, pid: nat, req: Request, clOrdId: string, p: Phase, c: Script)
    requires ValidScript(c) && !p.Done? && !p.Crashed?
    ensures Alone(s, pid, req, clOrdId, p, c)
         == Alone(NextStore(s, pid, req, clOrdId, p, CallOutcome(p, c)), pid, req, clOrdId,
                  NextPhase(s, req, p, CallOutcome(p, c)), c)
  {}

  /** The database and the agent as the dispatcher's functions change them. */
  class Desk {
    var intents: map<nat, Intent>
    var nextIntent: nat
    var signals: map<int, SignalRow>
    var orders: seq<AgentOrder>
    var ocos: seq<AgentOco>

    ghost function View(): Store
      reads this
    {
      Store(intents, nextIntent, signals, orders, ocos)
    }

    method InsertIntent(row: Intent, o: Outcome) returns (id: Option<nat>)
      requires o.Database?
      modifies this
      ensures View() == if o.saved then SaveIntent(old(View()), row) else old(View())
      ensures id == if o.saved && !o.raised then Some(old(nextIntent)) else None
    {
      id := if o.saved && !o.raised then Some(nextIntent) else None;
      if o.saved {
        intents := intents[nextIntent := row];
        nextIntent := nextIntent + 1;
      }
    }

    method UpdateIntentSent(i: nat, localOrderId: Option<int>, errorMsg: Option<string>, o: Outcome)
      returns (updated: bool)
      requires o.Database?
      modifies this
      ensures View() == if o.saved then MarkIntent(old(View()), i, localOrderId, errorMsg) else old(View())
      ensures updated == (o.saved && !o.raised && i in old(intents))
    {
      updated := o.saved && !o.raised && i in intents;
      if o.saved && i in intents {
        intents := intents[i := intents[i].(sent := true, localOrderId := localOrderId, errorMsg := errorMsg)];
      }
    }

    method UpdateSignalLogSent(id: int, localOrderId: Option<int>, sent: bool, o: Outcome)
      requires o.Database?
      modifies this
      ensures View() == if o.saved then MarkSignal(old(View()), id, localOrderId, sent) else old(View())
    {
      if o.saved && id in signals {
        signals := signals[id := SignalRow(sent, localOrderId)];
      }
    }

    /** The POST, with the check of the body's `ok` flag: an error, or the reply. */
    method PostOrder(i: nat, req: Request, clOrdId: string, o: Outcome) returns (error: Option<string>)
      requires o.Post?
      modifies this
      ensures View() == NextStore(old(View()), 0, req, clOrdId, Posting(i), o)
      ensures error == if o.error.Some? then o.error else if o.accepted then None else Some(REJECTED)
    {
      if o.accepted {
        orders := orders + [OrderFor(i, req, clOrdId, o.reply, o.error.None? && ReplyId(o.reply).Some?)];
      }
      error := if o.error.Some? then o.error else if o.accepted then None else Some(REJECTED);
    }

    method PostOco(i: nat, req: Request, o: Outcome)
      requires o.Post? && req.takeProfit.Some? && req.stopLoss.Some?
      modifies this
      ensures View() == if o.accepted then old(View()).(ocos := old(ocos) + [OcoFor(i, req)]) else old(View())
    {
      if o.accepted {
        ocos := ocos + [OcoFor(i, req)];
      }
    }

    /** The pipeline: it does to the store what the machine does, and reports what the machine reports. */
    method DispatchOrder(digest: string -> string, pid: nat, req: Request, c: Script) returns (result: Result)
      requires ValidScript(c)
      modifies this
      ensures Outlook(View(), Done(result)) == Alone(old(View()), pid, req, ClOrdIdOf(digest, req), Inserting, c)
    {
      var clOrdId := ClOrdIdOf(digest, req);
      AloneStep(View(), pid, req, clOrdId, Inserting, c);
      var id := InsertIntent(NewIntent(pid, req, clOrdId), c.insert);
      if id.None? {
        return NotPersisted;
      }
      var i := id.value;
      AloneStep(View(), pid, req, clOrdId, Posting(i), c);
      var error := PostOrder(i, req, clOrdId, c.post);
      if error.Some? {
        result := ReportFailure(pid, req, clOrdId, i, error.value, c);
        return;
      }
      var localOrderId := c.post.reply.localOrderId;
      if localOrderId.None? {
        localOrderId := c.post.reply.localId;
      }
      if localOrderId.None? {
        result := ReportFailure(pid, req, clOrdId, i, MISSING_ID, c);
        return;
      }
      result := ReportSuccess(pid, req, clOrdId, i, localOrderId.value, c);
    }

    /** The two updates after a POST that succeeded, and the OCO. */
    method ReportSuccess(pid: nat, req: Request, clOrdId: string, i: nat, localOrderId: int, c: Script)
      returns (result: Result)
      requires ValidScript(c)
      modifies this
      ensures Outlook(View(), Done(result)) == Alone(old(View()), pid, req, clOrdId, NotingSent(i, localOrderId), c)
    {
      AloneStep(View(), pid, req, clOrdId, NotingSent(i, localOrderId), c);
      var updated := UpdateIntentSent(i, Some(localOrderId), None, c.note);
      AloneStep(View(), pid, req, clOrdId, MarkingSignal(i, localOrderId), c);
      UpdateSignalLogSent(req.signalId, Some(localOrderId), true, c.signal);
      if req.takeProfit.Some? && req.stopLoss.Some? {
        AloneStep(View(), pid, req, clOrdId, AttachingOco(i, localOrderId), c);
        PostOco(i, req, c.oco);
      }
      return Sent(i, localOrderId);
    }

    /** The two updates after a POST that failed. */
    method ReportFailure(pid: nat, req: Request, clOrdId: string, i: nat, error: string, c: Script)
      returns (result: Result)
      requires ValidScript(c)
      modifies this
      ensures Outlook(View(), Done(result)) == Alone(old(View()), pid, req, clOrdId, NotingError(i, error), c)
    {
      AloneStep(View(), pid, req, clOrdId, NotingError(i, error), c);
      var updated := UpdateIntentSent(i, None, Some(error), c.note);
      AloneStep(View(), pid, req, clOrdId, ClearingSignal(i, error), c);
      UpdateSignalLogSent(req.signalId, None, false, c.signal);
      return Failed(i, error);
    }
  }
}
