/** What one dispatch leaves. */
module DispatchEnds {
  import opened Options
  import opened OrderIds
  import opened Dispatcher
  import opened DispatchFields

  /** What the dispatcher makes of its POST: an id, or an error. */
  datatype Verdict = Confirmed(id: int) | Refused(error: string)

  /** A reply to an accepted order holds an id under one of two names; the first counts. */
  function VerdictOf(post: Outcome): Verdict
    requires post.Post?
  {
    match post
    case Post(_, _, Some(e)) => Refused(e)
    case Post(false, _, None) => Refused("agent_send_rejected")
    case Post(true, Reply(Some(id), _), None) => Confirmed(id)
    case Post(true, Reply(None, Some(id)), None) => Confirmed(id)
    case Post(true, Reply(None, None), None) => Refused("send_response_missing_local_order_id")
  }

  function Report(known: bool, i: nat, v: Verdict): Result {
    if !known then NotPersisted
    else match v
      case Confirmed(id) => Sent(i, id)
      case Refused(e) => Failed(i, e)
  }

  /** The intent row of the dispatch: what was asked for, and what came of it if that was noted. */
  predicate RowLeft(digest: string -> string, pid: nat, req: Request, row: Intent, v: Verdict, noted: bool) {
    && row.dispatch == pid && Records(digest, row, req) && row.sent == noted
    && row.localOrderId == (if noted && v.Confirmed? then Some(v.id) else None)
    && row.errorMsg == (if noted && v.Refused? then Some(v.error) else None)
  }

  /** The flag and id of the signal, where the update took effect. */
  predicate SignalsLeft(before: map<int, SignalRow>, after: map<int, SignalRow>, id: int, v: Verdict, noted: bool) {
    && after.Keys == before.Keys && before - {id} == after - {id}
    && (id in after ==>
          if noted
          then after[id].sent == v.Confirmed? && after[id].localOrderId == (if v.Confirmed? then Some(v.id) else None)
          else after[id] == before[id])
  }

  predicate OrdersLeft(digest: string -> string, before: seq<AgentOrder>, after: seq<AgentOrder>, i: nat, req: Request,
                       post: Outcome, taken: bool)
    requires post.Post?
  {
    var n := |before|;
    && before <= after && |after| == n + (if taken then 1 else 0)
    && (taken ==>
          && after[n].intent == i && Carries(digest, after[n], req) && after[n].reply == post.reply
          && after[n].confirmed == VerdictOf(post).Confirmed?)
  }

  predicate OcosLeft(before: seq<AgentOco>, after: seq<AgentOco>, i: nat, req: Request, taken: bool) {
    var n := |before|;
    && before <= after && |after| == n + (if taken then 1 else 0)
    && (taken ==> after[n].intent == i && Exits(after[n], req))
  }

  /** All that a dispatch changes, and what it reports; `known` says that it knows its intent was saved. */
  ghost predicate Leaves(digest: string -> string, s: Store, pid: nat, req: Request, c: Script, s2: Store, r: Result)
    requires ValidScript(c)
  {
    var i, known, v := s.nextIntent, c.insert.saved && !c.insert.raised, VerdictOf(c.post);
    && r == Report(known, i, v)
    && s2.nextIntent == (if c.insert.saved then i + 1 else i)
    && (if c.insert.saved
        then s2.intents.Keys == s.intents.Keys + {i} && s2.intents - {i} == s.intents - {i}
             && RowLeft(digest, pid, req, s2.intents[i], v, known && c.note.saved)
        else s2.intents == s.intents)
    && SignalsLeft(s.signals, s2.signals, req.signalId, v, known && c.signal.saved)
    && OrdersLeft(digest, s.orders, s2.orders, i, req, c.post, known && c.post.accepted)
    && OcosLeft(s.ocos, s2.ocos, i, req,
                known && v.Confirmed? && req.takeProfit.Some? && req.stopLoss.Some? && c.oco.accepted)
  }

  // ------------------------------------------------------------------------------------------
  // From the machine

  /** After the POST, where it failed: two updates. */
  lemma AfterRefusal(s: Store, pid: nat, req: Request, clOrdId: string, i: nat, e: string, c: Script)
    requires ValidScript(c)
    ensures var r := Alone(s, pid, req, clOrdId, NotingError(i, e), c);
            && r.phase == Done(Failed(i, e))
            && r.store == (var s1 := if c.note.saved then MarkIntent(s, i, None, Some(e)) else s;
                           if c.signal.saved then MarkSignal(s1, req.signalId, None, false) else s1)
  {
    AloneStep(s, pid, req, clOrdId, NotingError(i, e), c);
    var s1 := NextStore(s, pid, req, clOrdId, NotingError(i, e), c.note);
    AloneStep(s1, pid, req, clOrdId, ClearingSignal(i, e), c);
  }

  /** Where it succeeded: two updates, and the exits. */
  lemma AfterConfirmation(s: Store, pid: nat, req: Request, clOrdId: string, i: nat, id: int, c: Script)
    requires ValidScript(c)
    ensures var r := Alone(s, pid, req, clOrdId, NotingSent(i, id), c);
            && r.phase == Done(Sent(i, id))
            && r.store == (var s1 := if c.note.saved then MarkIntent(s, i, Some(id), None) else s;
                           var s2 := if c.signal.saved then MarkSignal(s1, req.signalId, Some(id), true) else s1;
                           if req.takeProfit.Some? && req.stopLoss.Some? && c.oco.accepted
                           then s2.(ocos := s2.ocos + [OcoFor(i, req)]) else s2)
  {
    AloneStep(s, pid, req, clOrdId, NotingSent(i, id), c);
    var s1 := NextStore(s, pid, req, clOrdId, NotingSent(i, id), c.note);
    AloneStep(s1, pid, req, clOrdId, MarkingSignal(i, id), c);
    if req.takeProfit.Some? && req.stopLoss.Some? {
      var s2 := NextStore(s1, pid, req, clOrdId, MarkingSignal(i, id), c.signal);
      AloneStep(s2, pid, req, clOrdId, AttachingOco(i, id), c);
    }
  }

  /** What the two updates leave. */
  lemma UpdatesLeave(s: Store, i: nat, g: int, id: Option<int>, error: Option<string>, noted: bool, marked: bool)
    requires i in s.intents
    ensures var s1 := if noted then MarkIntent(s, i, id, error) else s;
            var s2 := if marked then MarkSignal(s1, g, id, id.Some?) else s1;
            && s2.intents.Keys == s.intents.Keys && s2.intents - {i} == s.intents - {i}
            && s2.intents[i] == (if noted then s.intents[i].(sent := true, localOrderId := id, errorMsg := error)
                                 else s.intents[i])
            && s2.signals.Keys == s.signals.Keys && s2.signals - {g} == s.signals - {g}
            && (g in s2.signals ==> s2.signals[g] == if marked then SignalRow(id.Some?, id) else s.signals[g])
            && s2.orders == s.orders && s2.ocos == s.ocos && s2.nextIntent == s.nextIntent
  {}

  /**
   * What a dispatch leaves behind, whatever becomes of its calls: its report, its intent row, the flag
   * of its signal, its order and its exits, field by field, and nothing else.
   */
  lemma DispatchLeaves(digest: string -> string, s: Store, pid: nat, req: Request, c: Script)
    requires ValidScript(c)
    ensures var r := Alone(s, pid, req, ClOrdIdOf(digest, req), Inserting, c);
            r.phase.Done? && Leaves(digest, s, pid, req, c, r.store, r.phase.result)
  {
    var id := ClOrdIdOf(digest, req);
    ClOrdIdIs(digest, req);
    AloneStep(s, pid, req, id, Inserting, c);
    if c.insert.saved && !c.insert.raised {
      KnownLeaves(digest, s, pid, req, id, c);
    }
  }

  /** The store after the insert and the POST. */
  function Posted(s: Store, pid: nat, req: Request, clOrdId: string, post: Outcome): Store
    requires post.Post?
  {
    var s1 := SaveIntent(s, NewIntent(pid, req, clOrdId));
    if post.accepted
    then s1.(orders := s1.orders + [OrderFor(s.nextIntent, req, clOrdId, post.reply, VerdictOf(post).Confirmed?)])
    else s1
  }

  lemma PostedIs(s: Store, pid: nat, req: Request, clOrdId: string, c: Script)
    requires ValidScript(c)
    ensures var s1, s2 := SaveIntent(s, NewIntent(pid, req, clOrdId)), Posted(s, pid, req, clOrdId, c.post);
            var i, v := s.nextIntent, VerdictOf(c.post);
            var p := if v.Refused? then NotingError(i, v.error) else NotingSent(i, v.id);
            Alone(s1, pid, req, clOrdId, Posting(i), c) == Alone(s2, pid, req, clOrdId, p, c)
  {
    AloneStep(SaveIntent(s, NewIntent(pid, req, clOrdId)), pid, req, clOrdId, Posting(s.nextIntent), c);
  }

  lemma PostedLeaves(digest: string -> string, s: Store, pid: nat, req: Request, clOrdId: string, post: Outcome)
    requires post.Post? && IsId(digest, req, clOrdId)
    ensures var s2, i := Posted(s, pid, req, clOrdId, post), s.nextIntent;
            && OrdersLeft(digest, s.orders, s2.orders, i, req, post, post.accepted)
            && s2.intents == s.intents[i := NewIntent(pid, req, clOrdId)] && s2.nextIntent == i + 1
            && s2.signals == s.signals && s2.ocos == s.ocos
  {
    OrderCarries(digest, s.nextIntent, req, clOrdId, post.reply, VerdictOf(post).Confirmed?);
  }

  lemma KnownLeaves(digest: string -> string, s: Store, pid: nat, req: Request, clOrdId: string, c: Script)
    requires ValidScript(c) && c.insert.saved && !c.insert.raised && IsId(digest, req, clOrdId)
    ensures var s1 := SaveIntent(s, NewIntent(pid, req, clOrdId));
            var r := Alone(s1, pid, req, clOrdId, Posting(s.nextIntent), c);
            r.phase.Done? && Leaves(digest, s, pid, req, c, r.store, r.phase.result)
  {
    PostedIs(s, pid, req, clOrdId, c);
    if VerdictOf(c.post).Refused? {
      RefusedLeaves(digest, s, pid, req, clOrdId, c);
    } else {
      ConfirmedLeaves(digest, s, pid, req, clOrdId, c);
    }
  }

  lemma RefusedLeaves(digest: string -> string, s: Store, pid: nat, req: Request, clOrdId: string, c: Script)
    requires ValidScript(c) && c.insert.saved && !c.insert.raised && IsId(digest, req, clOrdId)
    requires VerdictOf(c.post).Refused?
    ensures var r := Alone(Posted(s, pid, req, clOrdId, c.post), pid, req, clOrdId,
                           NotingError(s.nextIntent, VerdictOf(c.post).error), c);
            r.phase.Done? && Leaves(digest, s, pid, req, c, r.store, r.phase.result)
  {
    var i, e, s2 := s.nextIntent, VerdictOf(c.post).error, Posted(s, pid, req, clOrdId, c.post);
    PostedLeaves(digest, s, pid, req, clOrdId, c.post);
    AfterRefusal(s2, pid, req, clOrdId, i, e, c);
    UpdatesLeave(s2, i, req.signalId, None, Some(e), c.note.saved, c.signal.saved);
  }

  lemma ConfirmedLeaves(digest: string -> string, s: Store, pid: nat, req: Request, clOrdId: string, c: Script)
    requires ValidScript(c) && c.insert.saved && !c.insert.raised && IsId(digest, req, clOrdId)
    requires VerdictOf(c.post).Confirmed?
    ensures var r := Alone(Posted(s, pid, req, clOrdId, c.post), pid, req, clOrdId,
                           NotingSent(s.nextIntent, VerdictOf(c.post).id), c);
            r.phase.Done? && Leaves(digest, s, pid, req, c, r.store, r.phase.result)
  {
    var i, n, s2 := s.nextIntent, VerdictOf(c.post).id, Posted(s, pid, req, clOrdId, c.post);
    PostedLeaves(digest, s, pid, req, clOrdId, c.post);
    AfterConfirmation(s2, pid, req, clOrdId, i, n, c);
    UpdatesLeave(s2, i, req.signalId, Some(n), None, c.note.saved, c.signal.saved);
    if req.takeProfit.Some? && req.stopLoss.Some? { OcoExits(i, req); }
  }
}
