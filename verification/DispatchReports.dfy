/** What reports and sent flags say about the orders. */
module DispatchReports {
  import opened Options
  import opened OrderIds
  import opened Dispatcher

  // ------------------------------------------------------------------------------------------
  // One dispatch on its own

  /** The POST was taken and either raised or came back without an id. */
  predicate TakenUnnoticed(post: Outcome)
    requires post.Post?
  {
    post.accepted && (post.error.Some? || ReplyId(post.reply).None?)
  }

  /**
   * A dispatch that does not report success leaves an order behind exactly if its intent was seen to
   * be saved and its POST was taken unnoticed.
   */
  lemma FailureHidesAnOrderIff(s: Store, pid: nat, req: Request, clOrdId: string, c: Script)
    requires ValidScript(c)
    ensures var r := Alone(s, pid, req, clOrdId, Inserting, c);
            && r.phase.Done?
            && (!r.phase.result.Sent? && r.store.orders != s.orders
                <==> c.insert.saved && !c.insert.raised && TakenUnnoticed(c.post))
  {
    AloneStep(s, pid, req, clOrdId, Inserting, c);
    if c.insert.saved && !c.insert.raised {
      var i, s1 := s.nextIntent, NextStore(s, pid, req, clOrdId, Inserting, c.insert);
      AloneStep(s1, pid, req, clOrdId, Posting(i), c);
      var s2, p2 := NextStore(s1, pid, req, clOrdId, Posting(i), c.post), AfterPost(i, c.post);
      match p2
      case NotingError(_, e) => FailureEnds(s2, pid, req, clOrdId, i, e, c);
      case NotingSent(_, id) => SuccessEnds(s2, pid, req, clOrdId, i, id, c);
      assert c.post.accepted ==> |s2.orders| == |s.orders| + 1;
    }
  }

  lemma FailureEnds(s: Store, pid: nat, req: Request, clOrdId: string, i: nat, e: string, c: Script)
    requires ValidScript(c)
    ensures var r := Alone(s, pid, req, clOrdId, NotingError(i, e), c);
            r.phase == Done(Failed(i, e)) && r.store.orders == s.orders
  {
    AloneStep(s, pid, req, clOrdId, NotingError(i, e), c);
    AloneStep(NextStore(s, pid, req, clOrdId, NotingError(i, e), c.note), pid, req, clOrdId, ClearingSignal(i, e), c);
  }

  lemma SuccessEnds(s: Store, pid: nat, req: Request, clOrdId: string, i: nat, id: int, c: Script)
    requires ValidScript(c)
    ensures var r := Alone(s, pid, req, clOrdId, NotingSent(i, id), c);
            r.phase == Done(Sent(i, id)) && r.store.orders == s.orders
  {
    AloneStep(s, pid, req, clOrdId, NotingSent(i, id), c);
    var s1 := NextStore(s, pid, req, clOrdId, NotingSent(i, id), c.note);
    AloneStep(s1, pid, req, clOrdId, MarkingSignal(i, id), c);
    if req.takeProfit.Some? && req.stopLoss.Some? {
      var s2 := NextStore(s1, pid, req, clOrdId, MarkingSignal(i, id), c.signal);
      AloneStep(s2, pid, req, clOrdId, AttachingOco(i, id), c);
    }
  }

  /** A POST that times out after the agent took the order: the dispatch fails, the order stands. */
  lemma FailureMayHideAnOrder(req: Request, clOrdId: string)
    ensures var s := Initial({req.signalId}).store;
            var c := Script(Database(true, false), Post(true, Reply(Some(1), None), Some("timeout")),
                            Database(true, false), Database(true, false), Post(false, Reply(None, None), None));
            var r := Alone(s, 0, req, clOrdId, Inserting, c);
            && r.phase == Done(Failed(0, "timeout"))
            && r.store.orders == [OrderFor(0, req, clOrdId, Reply(Some(1), None), false)]
            && req.signalId in r.store.signals && !r.store.signals[req.signalId].sent
  {
    var s := Initial({req.signalId}).store;
    var ok := Database(true, false);
    var c := Script(ok, Post(true, Reply(Some(1), None), Some("timeout")), ok, ok,
                    Post(false, Reply(None, None), None));
    AloneStep(s, 0, req, clOrdId, Inserting, c);
    var s1 := NextStore(s, 0, req, clOrdId, Inserting, ok);
    AloneStep(s1, 0, req, clOrdId, Posting(0), c);
    var s2 := NextStore(s1, 0, req, clOrdId, Posting(0), c.post);
    AloneStep(s2, 0, req, clOrdId, NotingError(0, "timeout"), c);
    var s3 := NextStore(s2, 0, req, clOrdId, NotingError(0, "timeout"), ok);
    AloneStep(s3, 0, req, clOrdId, ClearingSignal(0, "timeout"), c);
  }

  // ------------------------------------------------------------------------------------------
  // Any number of dispatches

  /** The agent took an order of this dispatch. */
  ghost predicate OwnsOrder(s: Store, pid: nat) {
    exists o :: o in s.orders && o.intent in s.intents && s.intents[o.intent].dispatch == pid
  }

  /** What became of the POST of dispatch `pid`, if it has been made. */
  function PostOf(digest: string -> string, w: World, events: seq<Event>, pid: nat): Option<Outcome> {
    if events == [] then None
    else
      var init, e := events[..|events| - 1], events[|events| - 1];
      if PostsNow(Exec(digest, w, init), e, pid) then Some(e.outcome) else PostOf(digest, w, init, pid)
  }

  predicate PostsNow(w: World, e: Event, pid: nat) {
    e.Step? && e.pid == pid && pid in w.procs && w.procs[pid].phase.Posting? && e.outcome.Post?
  }

  /** Where a dispatch stands tells what its POST did. */
  ghost predicate PhaseFits(p: Phase, post: Option<Outcome>) {
    match p
    case Inserting => post == None
    case Posting(_) => post == None
    case Done(NotPersisted) => post == None
    case NotingError(i, e) => post.Some? && post.value.Post? && AfterPost(i, post.value) == NotingError(i, e)
    case ClearingSignal(i, e) => post.Some? && post.value.Post? && AfterPost(i, post.value) == NotingError(i, e)
    case Done(Failed(i, e)) => post.Some? && post.value.Post? && AfterPost(i, post.value) == NotingError(i, e)
    case NotingSent(i, id) => post.Some? && post.value.Post? && AfterPost(i, post.value) == NotingSent(i, id)
    case MarkingSignal(i, id) => post.Some? && post.value.Post? && AfterPost(i, post.value) == NotingSent(i, id)
    case AttachingOco(i, id) => post.Some? && post.value.Post? && AfterPost(i, post.value) == NotingSent(i, id)
    case Done(Sent(i, id)) => post.Some? && post.value.Post? && AfterPost(i, post.value) == NotingSent(i, id)
    case Crashed => true
  }

  ghost predicate PostFits(w: World, pid: nat, post: Option<Outcome>) {
    && (post.Some? ==> post.value.Post?)
    && (OwnsOrder(w.store, pid) <==> post.Some? && post.value.accepted)
    && (if pid in w.procs then PhaseFits(w.procs[pid].phase, post) else post == None)
  }

  /** Intents keep the dispatch that inserted them. */
  lemma KeepsDispatch(s: Store, q: nat, p: Proc, o: Outcome)
    requires StoreSound(s)
    ensures var s2 := NextStore(s, q, p.req, p.clOrdId, p.phase, o);
            forall i :: i in s.intents ==> i in s2.intents && s2.intents[i].dispatch == s.intents[i].dispatch
  {}

  /** A step adds an order of its own dispatch if it is a POST that is taken, and of no other. */
  lemma OwnsOrderStep(s: Store, q: nat, p: Proc, o: Outcome, pid: nat)
    requires StoreSound(s) && ProcSound(s, q, p)
    ensures OwnsOrder(NextStore(s, q, p.req, p.clOrdId, p.phase, o), pid)
            <==> OwnsOrder(s, pid) || (q == pid && p.phase.Posting? && o.Post? && o.accepted)
  {
    var s2 := NextStore(s, q, p.req, p.clOrdId, p.phase, o);
    KeepsDispatch(s, q, p, o);
    assert forall x :: x in s.orders ==> x in s2.orders && Audited(s, x);
    if p.phase.Posting? && o.Post? && o.accepted {
      assert s2.orders[|s.orders|] in s2.orders && s2.orders[|s.orders|].intent == p.phase.intent;
    } else {
      assert s2.orders == s.orders;
    }
  }

  lemma PhaseFitsNext(s: Store, p: Proc, o: Outcome, post: Option<Outcome>)
    requires PhaseFits(p.phase, post)
    ensures PhaseFits(NextPhase(s, p.req, p.phase, o), if p.phase.Posting? && o.Post? then Some(o) else post)
  {}

  lemma PostFitsNext(digest: string -> string, w: World, e: Event, pid: nat, post: Option<Outcome>)
    requires Sound(w) && PostFits(w, pid, post)
    ensures PostFits(Next(digest, w, e), pid, if PostsNow(w, e, pid) then Some(e.outcome) else post)
  {
    if e.Step? && e.pid in w.procs {
      var p := w.procs[e.pid];
      assert ProcSound(w.store, e.pid, p);
      OwnsOrderStep(w.store, e.pid, p, e.outcome, pid);
      if e.pid == pid { PhaseFitsNext(w.store, p, e.outcome, post); }
    }
  }

  lemma {:induction false} RunsFit(digest: string -> string, signals: set<int>, events: seq<Event>, pid: nat)
    ensures var w := Initial(signals);
            PostFits(Exec(digest, w, events), pid, PostOf(digest, w, events, pid))
  {
    if events != [] {
      var w, init := Initial(signals), events[..|events| - 1];
      RunsFit(digest, signals, init, pid);
      RunsAreSound(digest, signals, init);
      PostFitsNext(digest, Exec(digest, w, init), events[|events| - 1], pid, PostOf(digest, w, init, pid));
    }
  }

  /**
   * After every run: a dispatch that reports success has its order at the agent under the id it
   * reports; one that reports no intent has none; one that reports another failure has one exactly
   * if its POST was taken and either raised or came back without an id.
   */
  lemma ReportsMatchTheAgent(digest: string -> string, signals: set<int>, events: seq<Event>, pid: nat)
    ensures var w := Exec(digest, Initial(signals), events);
            pid in w.procs && w.procs[pid].phase.Done? ==>
              match w.procs[pid].phase.result
              case Sent(i, id) => Accepted(w.store, w.procs[pid], i, id)
              case NotPersisted => !OwnsOrder(w.store, pid)
              case Failed(i, e) =>
                var post := PostOf(digest, Initial(signals), events, pid);
                && post.Some? && post.value.Post? && Unconfirmed(w.store, i)
                && (OwnsOrder(w.store, pid) <==> TakenUnnoticed(post.value))
  {
    RunsAreSound(digest, signals, events);
    RunsFit(digest, signals, events, pid);
    var w := Exec(digest, Initial(signals), events);
    assert pid in w.procs ==> ProcSound(w.store, pid, w.procs[pid]);
  }

  lemma {:induction false} StoppedForGood(digest: string -> string, w: World, events: seq<Event>, pid: nat)
    requires Sound(w) && pid in w.procs && (w.procs[pid].phase.Crashed? || w.procs[pid].phase.Done?)
    ensures var w2 := Exec(digest, w, events);
            && Sound(w2) && pid in w2.procs && w2.procs[pid] == w.procs[pid]
            && (OwnsOrder(w2.store, pid) <==> OwnsOrder(w.store, pid))
  {
    if events != [] {
      var init, e := events[..|events| - 1], events[|events| - 1];
      var v := Exec(digest, w, init);
      StoppedForGood(digest, w, init, pid);
      NextSound(digest, v, e);
      if e.Step? && e.pid in v.procs {
        assert ProcSound(v.store, e.pid, v.procs[e.pid]);
        OwnsOrderStep(v.store, e.pid, v.procs[e.pid], e.outcome, pid);
      }
    }
  }

  /** A dispatch that stops between two calls leaves all as it is, for good: it has the orders it had. */
  lemma CrashStopsForGood(digest: string -> string, w: World, pid: nat, events: seq<Event>)
    requires Sound(w) && pid in w.procs
    ensures var stopped := Next(digest, w, Step(pid, Crash));
            && stopped.store == w.store
            && var w2 := Exec(digest, stopped, events);
            pid in w2.procs && (w2.procs[pid].phase.Crashed? || w2.procs[pid] == w.procs[pid])
              && (OwnsOrder(w2.store, pid) <==> OwnsOrder(w.store, pid))
  {
    NextSound(digest, w, Step(pid, Crash));
    StoppedForGood(digest, Next(digest, w, Step(pid, Crash)), events, pid);
  }

  // ------------------------------------------------------------------------------------------
  // The exits of a sent order

  /** The agent took an OCO of this dispatch. */
  ghost predicate OwnsOco(s: Store, pid: nat) {
    exists c :: c in s.ocos && c.intent in s.intents && s.intents[c.intent].dispatch == pid
  }

  /** What became of the POST of dispatch `pid` that attaches the exits, if it has been made. */
  function OcoPostOf(digest: string -> string, w: World, events: seq<Event>, pid: nat): Option<Outcome> {
    if events == [] then None
    else
      var init, e := events[..|events| - 1], events[|events| - 1];
      if AttachesNow(Exec(digest, w, init), e, pid) then Some(e.outcome) else OcoPostOf(digest, w, init, pid)
  }

  predicate AttachesNow(w: World, e: Event, pid: nat) {
    e.Step? && e.pid == pid && pid in w.procs && w.procs[pid].phase.AttachingOco? && e.outcome.Post?
  }

  predicate HasExits(req: Request) { req.takeProfit.Some? && req.stopLoss.Some? }

  ghost predicate ExitsFit(w: World, pid: nat, post: Option<Outcome>) {
    && (post.Some? ==> post.value.Post?)
    && (OwnsOco(w.store, pid) <==> post.Some? && post.value.accepted)
    && (post.Some? ==> pid in w.procs && w.procs[pid].phase.Done?)
    && (pid in w.procs ==>
          && (w.procs[pid].phase.AttachingOco? ==> HasExits(w.procs[pid].req))
          && (HasExits(w.procs[pid].req) && w.procs[pid].phase.Done? && w.procs[pid].phase.result.Sent? ==> post.Some?))
  }

  /** A step adds an OCO of its own dispatch if it is an attaching POST that is taken, and of no other. */
  lemma OwnsOcoStep(s: Store, q: nat, p: Proc, o: Outcome, pid: nat)
    requires StoreSound(s) && ProcSound(s, q, p) && (p.phase.AttachingOco? ==> HasExits(p.req))
    ensures OwnsOco(NextStore(s, q, p.req, p.clOrdId, p.phase, o), pid)
            <==> OwnsOco(s, pid) || (q == pid && p.phase.AttachingOco? && o.Post? && o.accepted)
  {
    var s2 := NextStore(s, q, p.req, p.clOrdId, p.phase, o);
    KeepsDispatch(s, q, p, o);
    assert forall c :: c in s.ocos ==> c in s2.ocos && OcoSound(s, c);
    if p.phase.AttachingOco? && o.Post? && o.accepted {
      assert s2.ocos[|s.ocos|] in s2.ocos && s2.ocos[|s.ocos|].intent == p.phase.intent;
    } else {
      assert s2.ocos == s.ocos;
    }
  }

  lemma ExitsFitNext(digest: string -> string, w: World, e: Event, pid: nat, post: Option<Outcome>)
    requires Sound(w) && ExitsFit(w, pid, post)
    requires AttachOnlyExits(w)
    ensures ExitsFit(Next(digest, w, e), pid, if AttachesNow(w, e, pid) then Some(e.outcome) else post)
  {
    if e.Step? && e.pid in w.procs {
      var p := w.procs[e.pid];
      assert ProcSound(w.store, e.pid, p);
      OwnsOcoStep(w.store, e.pid, p, e.outcome, pid);
    }
  }

  /** Only dispatches with both exits come to attach them. */
  ghost predicate AttachOnlyExits(w: World) {
    forall q :: q in w.procs && w.procs[q].phase.AttachingOco? ==> HasExits(w.procs[q].req)
  }

  lemma AttachOnlyNext(digest: string -> string, w: World, e: Event)
    requires AttachOnlyExits(w)
    ensures AttachOnlyExits(Next(digest, w, e))
  {}

  lemma {:induction false} RunsAttachOnlyExits(digest: string -> string, signals: set<int>, events: seq<Event>)
    ensures AttachOnlyExits(Exec(digest, Initial(signals), events))
  {
    if events != [] {
      var init := events[..|events| - 1];
      RunsAttachOnlyExits(digest, signals, init);
      AttachOnlyNext(digest, Exec(digest, Initial(signals), init), events[|events| - 1]);
    }
  }

  lemma {:induction false} RunsFitExits(digest: string -> string, signals: set<int>, events: seq<Event>, pid: nat)
    ensures ExitsFit(Exec(digest, Initial(signals), events), pid, OcoPostOf(digest, Initial(signals), events, pid))
  {
    if events != [] {
      var w, init := Initial(signals), events[..|events| - 1];
      RunsFitExits(digest, signals, init, pid);
      RunsAreSound(digest, signals, init);
      RunsAttachOnlyExits(digest, signals, init);
      ExitsFitNext(digest, Exec(digest, w, init), events[|events| - 1], pid, OcoPostOf(digest, w, init, pid));
    }
  }

  /**
   * After every run: a dispatch that reports success for an order with both exits has made the POST
   * that attaches them, and the order stands without them exactly if that POST was not taken.
   */
  lemma NakedIffOcoRefused(digest: string -> string, signals: set<int>, events: seq<Event>, pid: nat)
    ensures var w, post := Exec(digest, Initial(signals), events), OcoPostOf(digest, Initial(signals), events, pid);
            pid in w.procs && w.procs[pid].phase.Done? && w.procs[pid].phase.result.Sent? && HasExits(w.procs[pid].req)
            ==> post.Some? && post.value.Post? && (!OwnsOco(w.store, pid) <==> !post.value.accepted)
  {
    RunsFitExits(digest, signals, events, pid);
  }
}
