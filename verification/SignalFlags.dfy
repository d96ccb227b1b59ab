/** The sent flag of a signal. */
module SignalFlags {
  import opened Options
  import opened OrderIds
  import opened Dispatcher

  // ------------------------------------------------------------------------------------------
  // The last write

  /** What the step writes into the row of signal `id`, if anything. */
  function MarkNow(w: World, e: Event, id: int): Option<bool> {
    if e.Start? || e.pid !in w.procs || !e.outcome.Database? || !e.outcome.saved then None
    else
      var p := w.procs[e.pid];
      if p.req.signalId != id then None
      else if p.phase.ClearingSignal? then Some(false)
      else if p.phase.MarkingSignal? then Some(true)
      else None
  }

  /** The last flag written into the row of signal `id`. */
  function LastMark(digest: string -> string, w: World, events: seq<Event>, id: int): Option<bool> {
    if events == [] then None
    else
      var init, e := events[..|events| - 1], events[|events| - 1];
      var now := MarkNow(Exec(digest, w, init), e, id);
      if now.Some? then now else LastMark(digest, w, init, id)
  }

  /** A signal is marked sent exactly if the last write of its flag that took effect set it. */
  lemma {:induction false} SentIsLastMark(digest: string -> string, signals: set<int>, events: seq<Event>, id: int)
    ensures var w, s := Initial(signals), Exec(digest, Initial(signals), events).store;
            && (id in s.signals <==> id in signals)
            && (id in signals ==> (s.signals[id].sent <==> LastMark(digest, w, events, id) == Some(true)))
  {
    if events != [] { SentIsLastMark(digest, signals, events[..|events| - 1], id); }
  }

  // ------------------------------------------------------------------------------------------
  // The write of one dispatch

  /** The step is the write of dispatch `pid` that marks its signal sent, and it takes effect. */
  predicate FlagsNow(w: World, e: Event, pid: nat) {
    && e.Step? && e.pid == pid && pid in w.procs && w.procs[pid].phase.MarkingSignal?
    && e.outcome.Database? && e.outcome.saved
  }

  /** That write has taken effect: it was made, and did not fail. */
  predicate Flagged(digest: string -> string, w: World, events: seq<Event>, pid: nat) {
    events != [] &&
    (var init, e := events[..|events| - 1], events[|events| - 1];
     Flagged(digest, w, init, pid) || FlagsNow(Exec(digest, w, init), e, pid))
  }

  /** A dispatch that has marked its signal is past all writes of the flag. */
  lemma {:induction false} FlaggedIsPast(digest: string -> string, signals: set<int>, events: seq<Event>, pid: nat)
    requires Flagged(digest, Initial(signals), events, pid)
    ensures var w := Exec(digest, Initial(signals), events);
            pid in w.procs && (w.procs[pid].phase.AttachingOco? || w.procs[pid].phase.Done?
                               || w.procs[pid].phase.Crashed?)
  {
    var init := events[..|events| - 1];
    if Flagged(digest, Initial(signals), init, pid) { FlaggedIsPast(digest, signals, init, pid); }
  }

  /** Every intent is of a dispatch that has started, for the same signal. */
  ghost predicate IntentsStarted(w: World) {
    forall i :: i in w.store.intents ==>
      && w.store.intents[i].dispatch in w.procs
      && w.procs[w.store.intents[i].dispatch].req.signalId == w.store.intents[i].signalId
  }

  lemma NextStartsIntents(digest: string -> string, w: World, e: Event)
    requires IntentsStarted(w)
    ensures IntentsStarted(Next(digest, w, e))
  {
    ProcsStay(digest, w, e);
    if e.Step? && e.pid in w.procs {
      var p := w.procs[e.pid];
      IntentsOf(w.store, e.pid, p, e.outcome);
    }
  }

  /** An intent after a step was there before it, or is of the dispatch that made the step. */
  lemma IntentsOf(s: Store, pid: nat, p: Proc, o: Outcome)
    ensures var s2 := NextStore(s, pid, p.req, p.clOrdId, p.phase, o);
            forall i :: i in s2.intents ==>
              || (i in s.intents && s2.intents[i].dispatch == s.intents[i].dispatch
                  && s2.intents[i].signalId == s.intents[i].signalId)
              || (s2.intents[i].dispatch == pid && s2.intents[i].signalId == p.req.signalId)
  {}

  lemma {:induction false} RunsStartIntents(digest: string -> string, signals: set<int>, events: seq<Event>)
    ensures IntentsStarted(Exec(digest, Initial(signals), events))
  {
    if events != [] {
      var init := events[..|events| - 1];
      RunsStartIntents(digest, signals, init);
      NextStartsIntents(digest, Exec(digest, Initial(signals), init), events[|events| - 1]);
    }
  }

  /** No two dispatches name one signal. */
  ghost predicate OwnSignals(w: World) {
    forall p, q :: p in w.procs && q in w.procs && w.procs[p].req.signalId == w.procs[q].req.signalId ==> p == q
  }

  lemma ProcsStay(digest: string -> string, w: World, e: Event)
    ensures forall p ::
              p in w.procs ==> p in Next(digest, w, e).procs && Next(digest, w, e).procs[p].req == w.procs[p].req
  {}

  /** What one event does to the flag. */
  lemma FlagNext(digest: string -> string, w: World, e: Event, id: int)
    requires id in w.store.signals
    ensures id in Next(digest, w, e).store.signals
    ensures var now := MarkNow(w, e, id);
            Next(digest, w, e).store.signals[id].sent == if now.Some? then now.value else w.store.signals[id].sent
  {}

  ghost predicate NotStarted(w: World, id: int) { forall p :: p in w.procs ==> w.procs[p].req.signalId != id }

  /** While no dispatch of a signal has started, its flag is clear. */
  lemma {:induction false} NotStartedIsClear(digest: string -> string, signals: set<int>, events: seq<Event>, id: int)
    requires id in signals && NotStarted(Exec(digest, Initial(signals), events), id)
    ensures var s := Exec(digest, Initial(signals), events).store; id in s.signals && !s.signals[id].sent
  {
    if events != [] {
      var init, e := events[..|events| - 1], events[|events| - 1];
      var w := Exec(digest, Initial(signals), init);
      ProcsStay(digest, w, e);
      assert NotStarted(w, id);
      NotStartedIsClear(digest, signals, init, id);
      FlagNext(digest, w, e, id);
    }
  }

  lemma OthersDiffer(v: World, w: World, pid: nat)
    requires OwnSignals(w) && pid in w.procs && pid !in v.procs
    requires forall p :: p in v.procs ==> p in w.procs && w.procs[p].req == v.procs[p].req
    ensures NotStarted(v, w.procs[pid].req.signalId)
  {}

  /** Where no two dispatches name one signal, its flag is that of the one dispatch that does. */
  lemma {:induction false} OwnFlag(digest: string -> string, signals: set<int>, events: seq<Event>, pid: nat)
    requires var w := Exec(digest, Initial(signals), events);
             OwnSignals(w) && pid in w.procs && w.procs[pid].req.signalId in signals
    ensures var w := Exec(digest, Initial(signals), events);
            var id := w.procs[pid].req.signalId;
            id in w.store.signals && (w.store.signals[id].sent <==> Flagged(digest, Initial(signals), events, pid))
  {
    if events != [] {
      var init, e := events[..|events| - 1], events[|events| - 1];
      var v := Exec(digest, Initial(signals), init);
      var id := Next(digest, v, e).procs[pid].req.signalId;
      ProcsStay(digest, v, e);
      if pid in v.procs {
        OwnFlag(digest, signals, init, pid);
        if Flagged(digest, Initial(signals), init, pid) { FlaggedIsPast(digest, signals, init, pid); }
      } else {
        OthersDiffer(v, Next(digest, v, e), pid);
        NotStartedIsClear(digest, signals, init, id);
        if Flagged(digest, Initial(signals), init, pid) { FlaggedIsPast(digest, signals, init, pid); }
      }
      FlagNext(digest, v, e, id);
    }
  }

  /**
   * Where no two dispatches name one signal: the flag of a signal with a confirmed order is clear
   * exactly if the write of the flag by that order's dispatch has not taken effect.
   */
  lemma ClearThoughOrderedIff(digest: string -> string, signals: set<int>, events: seq<Event>, o: AgentOrder)
    requires var w := Exec(digest, Initial(signals), events); OwnSignals(w) && o in w.store.orders
    requires o.confirmed && o.signalId in signals
    ensures var s := Exec(digest, Initial(signals), events).store;
            && o.intent in s.intents && o.signalId in s.signals
            && (!s.signals[o.signalId].sent
                <==> !Flagged(digest, Initial(signals), events, s.intents[o.intent].dispatch))
  {
    var w := Exec(digest, Initial(signals), events);
    RunsAreSound(digest, signals, events);
    RunsStartIntents(digest, signals, events);
    assert Audited(w.store, o);
    OwnFlag(digest, signals, events, w.store.intents[o.intent].dispatch);
  }

  // ------------------------------------------------------------------------------------------
  // Dispatches that share a signal

  /** A set flag was set by a dispatch of the signal. */
  lemma {:induction false} SetByADispatch(digest: string -> string, signals: set<int>, events: seq<Event>, id: int)
    returns (p: nat)
    requires var s := Exec(digest, Initial(signals), events).store; id in s.signals && s.signals[id].sent
    ensures var w := Exec(digest, Initial(signals), events);
            p in w.procs && w.procs[p].req.signalId == id && Flagged(digest, Initial(signals), events, p)
  {
    assert events != [];
    var init, e := events[..|events| - 1], events[|events| - 1];
    var v := Exec(digest, Initial(signals), init);
    assert id in v.store.signals;
    FlagNext(digest, v, e, id);
    ProcsStay(digest, v, e);
    if MarkNow(v, e, id).Some? {
      p := e.pid;
    } else {
      p := SetByADispatch(digest, signals, init, id);
    }
  }

  /**
   * A step clears a flag that was set only if it is of a dispatch that failed, and another dispatch of
   * the same signal had set the flag for an order that stands.
   */
  lemma ClearedByAnother(digest: string -> string, signals: set<int>, events: seq<Event>, e: Event, id: int)
    returns (p: nat)
    requires var w := Exec(digest, Initial(signals), events); id in w.store.signals && w.store.signals[id].sent
    requires var s := Next(digest, Exec(digest, Initial(signals), events), e).store;
             id in s.signals ==> !s.signals[id].sent
    ensures var w := Exec(digest, Initial(signals), events);
            && e.Step? && e.pid in w.procs && w.procs[e.pid].phase.ClearingSignal? && w.procs[e.pid].req.signalId == id
            && p in w.procs && w.procs[p].req.signalId == id && p != e.pid
            && Flagged(digest, Initial(signals), events, p)
            && exists o :: o in w.store.orders && o.signalId == id && ReplyId(o.reply).Some?
  {
    var w := Exec(digest, Initial(signals), events);
    FlagNext(digest, w, e, id);
    p := SetByADispatch(digest, signals, events, id);
    FlaggedIsPast(digest, signals, events, p);
    SentSignalsWereOrdered(digest, signals, events, id);
  }

  lemma ExecOn(digest: string -> string, w: World, events: seq<Event>, e: Event)
    ensures Exec(digest, w, events + [e]) == Next(digest, Exec(digest, w, events), e)
  {
    assert (events + [e])[..|events|] == events;
  }

  const OK := Database(true, false)
  const TAKEN := Post(true, Reply(Some(1), None), None)
  const REFUSED := Post(false, Reply(None, None), Some("refused"))

  /** The calls of a dispatch whose order is taken, and of one whose order is refused. */
  function Succeeds(pid: nat, req: Request): seq<Event> {
    [Start(pid, req), Step(pid, OK), Step(pid, TAKEN), Step(pid, OK), Step(pid, OK)]
  }

  function Fails(pid: nat, req: Request): seq<Event> {
    [Start(pid, req), Step(pid, OK), Step(pid, REFUSED), Step(pid, OK), Step(pid, OK)]
  }

  function FiveSteps(digest: string -> string, w: World, es: seq<Event>): World
    requires |es| == 5
  {
    Next(digest, Next(digest, Next(digest, Next(digest, Next(digest, w, es[0]), es[1]), es[2]), es[3]), es[4])
  }

  lemma {:induction false} ExecJoin(digest: string -> string, w: World, a: seq<Event>, b: seq<Event>)
    ensures Exec(digest, w, a + b) == Exec(digest, Exec(digest, w, a), b)
  {
    if b == [] {
      assert a + b == a;
    } else {
      var init := b[..|b| - 1];
      assert a + b == a + init + [b[|b| - 1]];
      ExecOn(digest, w, a + init, b[|b| - 1]);
      ExecJoin(digest, w, a, init);
    }
  }

  lemma ExecFive(digest: string -> string, w: World, es: seq<Event>)
    requires |es| == 5
    ensures Exec(digest, w, es) == FiveSteps(digest, w, es)
  {
    assert es[..5] == es && es[..4] == es[..5][..4] && es[..3] == es[..4][..3] && es[..2] == es[..3][..2];
    assert es[..1] == es[..2][..1] && es[..0] == es[..1][..0];
    assert Exec(digest, w, es[..1]) == Next(digest, w, es[0]);
    assert Exec(digest, w, es[..2]) == Next(digest, Exec(digest, w, es[..1]), es[1]);
    assert Exec(digest, w, es[..3]) == Next(digest, Exec(digest, w, es[..2]), es[2]);
    assert Exec(digest, w, es[..4]) == Next(digest, Exec(digest, w, es[..3]), es[3]);
  }

  lemma FirstSends(digest: string -> string, req: Request)
    requires req.takeProfit.None?
    ensures var w := FiveSteps(digest, Initial({req.signalId}), Succeeds(0, req));
            && w.procs == map[0 := Proc(req, ClOrdIdOf(digest, req), Done(Sent(0, 1)))]
            && w.store.orders == [OrderFor(0, req, ClOrdIdOf(digest, req), Reply(Some(1), None), true)]
            && w.store.signals == map[req.signalId := SignalRow(true, Some(1))]
            && w.store.nextIntent == 1 && w.store.intents.Keys == {0}
  {}

  lemma SecondFails(digest: string -> string, w: World, req: Request)
    requires w.procs.Keys == {0} && w.store.nextIntent == 1 && req.signalId in w.store.signals
    ensures var v := FiveSteps(digest, w, Fails(1, req));
            && v.procs == w.procs[1 := Proc(req, ClOrdIdOf(digest, req), Done(Failed(1, "refused")))]
            && v.store.orders == w.store.orders
            && req.signalId in v.store.signals && !v.store.signals[req.signalId].sent
  {}

  /** Two dispatches of one signal: the first succeeds, then the second fails and clears the flag. */
  lemma SecondDispatchClears(digest: string -> string, req: Request)
    requires req.takeProfit.None?
    ensures var w := Exec(digest, Initial({req.signalId}), Succeeds(0, req) + Fails(1, req));
            && 0 in w.procs && w.procs[0].phase == Done(Sent(0, 1))
            && 1 in w.procs && w.procs[1].phase == Done(Failed(1, "refused"))
            && w.store.orders == [OrderFor(0, req, ClOrdIdOf(digest, req), Reply(Some(1), None), true)]
            && req.signalId in w.store.signals && !w.store.signals[req.signalId].sent
  {
    var w := Initial({req.signalId});
    ExecJoin(digest, w, Succeeds(0, req), Fails(1, req));
    ExecFive(digest, w, Succeeds(0, req));
    FirstSends(digest, req);
    ExecFive(digest, FiveSteps(digest, w, Succeeds(0, req)), Fails(1, req));
    SecondFails(digest, FiveSteps(digest, w, Succeeds(0, req)), req);
  }
}
