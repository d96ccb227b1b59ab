/** Account use cases interleaved between look-up and write. */
module AccountRaces {
  import opened Options
  import opened Accounts

  /** What a use case that has looked is about to write; an activation looks before it locks any row. */
  datatype Write =
    | Saving(account: Account)
    | Updating(account: Account)
    | Deleting(uuid: string)
    | Activating(uuid: string)

  datatype World = World(db: Db, waiting: multiset<Write>)

  datatype Event = Begin(op: Op) | Finish(write: Write, now: int)

  function BeginOp(w: World, op: Op): World {
    match op
    case Create(cmd, uuid, now) =>
      if HasKey(w.db, cmd.key) then w else w.(waiting := w.waiting + multiset{Saving(NewAccount(cmd, uuid, now))})
    case SetActive(uuid, _) => if uuid in w.db then w.(waiting := w.waiting + multiset{Activating(uuid)}) else w
    case Update(cmd, _) =>
      if cmd.uuid in w.db then w.(waiting := w.waiting + multiset{Updating(Edited(w.db[cmd.uuid], cmd))}) else w
    case Delete(uuid) =>
      if uuid in w.db && !IsActive(w.db, uuid) then w.(waiting := w.waiting + multiset{Deleting(uuid)}) else w
    case GetActive => w
  }

  function Perform(db: Db, write: Write, now: int): Db {
    match write
    case Saving(a) => Inserted(db, a)
    case Updating(a) => Updated(db, a, now)
    case Deleting(uuid) => Deleted(db, uuid)
    case Activating(uuid) => OneActive(db, uuid, now)
  }

  function Next(w: World, e: Event): World {
    match e
    case Begin(op) => BeginOp(w, op)
    case Finish(write, now) =>
      if write in w.waiting then World(Perform(w.db, write, now), w.waiting - multiset{write}) else w
  }

  /** A run from an empty table: the worlds `ws` between the events `es`. */
  ghost predicate IsRun(ws: seq<World>, es: seq<Event>) {
    && |ws| == |es| + 1 && ws[0] == World(map[], multiset{})
    && forall i :: 0 <= i < |es| ==> StepOk(ws, es, i)
  }

  ghost predicate StepOk(ws: seq<World>, es: seq<Event>, i: nat)
    requires i < |es| && |ws| == |es| + 1
  {
    ws[i + 1] == Next(ws[i], es[i])
  }

  predicate Performs(w: World, e: Event, write: Write) { e.Finish? && e.write == write && write in w.waiting }

  /**
   * The account activated last among the first `n` events, unless it has been removed since or an
   * activation has found its account gone.
   */
  function Standing(ws: seq<World>, es: seq<Event>, n: nat): Option<string>
    requires n <= |es| < |ws|
  {
    if n == 0 then None else StandingAfter(ws[n - 1], es[n - 1], Standing(ws, es, n - 1))
  }

  function StandingAfter(w: World, e: Event, standing: Option<string>): Option<string> {
    if e.Begin? || e.write !in w.waiting then standing
    else
      match e.write
      case Activating(u) => if u in w.db then Some(u) else None
      case Deleting(u) => if standing == Some(u) then None else standing
      case _ => standing
  }

  ghost predicate SavesAreInactive(w: World) {
    forall a :: Saving(a) in w.waiting ==> a.status.Inactive?
  }

  lemma OneActiveSound(db: Db, uuid: string, now: int)
    requires Sound(db)
    ensures Sound(OneActive(db, uuid, now))
    ensures forall u :: IsActive(OneActive(db, uuid, now), u) <==> u == uuid && u in db
  {}

  lemma PerformSound(db: Db, write: Write, now: int)
    requires Sound(db) && (write.Saving? ==> write.account.status.Inactive?)
    ensures Sound(Perform(db, write, now))
    ensures forall u :: IsActive(Perform(db, write, now), u)
                        <==> if write.Activating? then u == write.uuid && u in db
                             else IsActive(db, u) && write != Deleting(u)
  {
    match write
    case Saving(a) => InsertedSound(db, a);
    case Updating(a) => UpdatedSound(db, a, now);
    case Deleting(uuid) => DeletedSound(db, uuid);
    case Activating(uuid) => OneActiveSound(db, uuid, now);
  }

  lemma NextSound(w: World, e: Event)
    requires Sound(w.db) && SavesAreInactive(w)
    ensures Sound(Next(w, e).db) && SavesAreInactive(Next(w, e))
  {
    if e.Finish? && e.write in w.waiting { PerformSound(w.db, e.write, e.now); }
  }

  lemma NextActive(w: World, e: Event, standing: Option<string>)
    requires Sound(w.db) && SavesAreInactive(w) && forall u :: IsActive(w.db, u) <==> standing == Some(u)
    ensures forall u :: IsActive(Next(w, e).db, u) <==> StandingAfter(w, e, standing) == Some(u)
  {
    if e.Finish? && e.write in w.waiting { PerformSound(w.db, e.write, e.now); }
  }

  /**
   * Use cases may interleave, or stop, between look-up and write: still at most one account is
   * active and keys are unique, and the active account is the one standing.
   */
  lemma {:induction false} InterleavedUseCases(ws: seq<World>, es: seq<Event>, n: nat)
    requires IsRun(ws, es) && n <= |es|
    ensures Sound(ws[n].db) && SavesAreInactive(ws[n])
    ensures forall u :: IsActive(ws[n].db, u) <==> Standing(ws, es, n) == Some(u)
  {
    if n > 0 {
      InterleavedUseCases(ws, es, n - 1);
      assert StepOk(ws, es, n - 1);
      NextSound(ws[n - 1], es[n - 1]);
      NextActive(ws[n - 1], es[n - 1], Standing(ws, es, n - 1));
    }
  }

  // ------------------------------------------------------------------------------------------
  // How the active account is lost

  ghost predicate SomeActive(db: Db) { exists u :: IsActive(db, u) }

  /** The event performs the removal of the account standing, or an activation whose account is gone. */
  ghost predicate Loses(w: World, e: Event, standing: Option<string>) {
    && standing.Some? && e.Finish? && e.write in w.waiting
    && (e.write == Deleting(standing.value) || (e.write.Activating? && e.write.uuid !in w.db))
  }

  /** An event leaves no account active where one was, in exactly two ways. */
  lemma ActiveIsLostIff(ws: seq<World>, es: seq<Event>, n: nat)
    requires IsRun(ws, es) && n < |es|
    ensures SomeActive(ws[n].db) && !SomeActive(ws[n + 1].db) <==> Loses(ws[n], es[n], Standing(ws, es, n))
  {
    InterleavedUseCases(ws, es, n);
    InterleavedUseCases(ws, es, n + 1);
    StandingIsActive(ws, es, n);
    StandingIsActive(ws, es, n + 1);
  }

  lemma StandingIsActive(ws: seq<World>, es: seq<Event>, n: nat)
    requires IsRun(ws, es) && n <= |es|
    ensures SomeActive(ws[n].db) <==> Standing(ws, es, n).Some?
  {
    InterleavedUseCases(ws, es, n);
    if Standing(ws, es, n).Some? { assert IsActive(ws[n].db, Standing(ws, es, n).value); }
  }

  /** An account becomes active only by an activation of it that finds it. */
  lemma {:induction false} BecomesActive(ws: seq<World>, es: seq<Event>, n: nat, m: nat, u: string) returns (j: nat)
    requires IsRun(ws, es) && n <= m <= |es| && !IsActive(ws[n].db, u) && IsActive(ws[m].db, u)
    ensures n <= j < m && Performs(ws[j], es[j], Activating(u)) && u in ws[j].db
  {
    j := m - 1;
    if IsActive(ws[j].db, u) {
      j := BecomesActive(ws, es, n, j, u);
    } else {
      InterleavedUseCases(ws, es, j);
      assert StepOk(ws, es, j);
      NextActive(ws[j], es[j], Standing(ws, es, j));
    }
  }

  /** An account goes only by a removal of it. */
  lemma {:induction false} IsRemoved(ws: seq<World>, es: seq<Event>, n: nat, m: nat, u: string) returns (j: nat)
    requires IsRun(ws, es) && n <= m <= |es| && u in ws[n].db && u !in ws[m].db
    ensures n <= j < m && Performs(ws[j], es[j], Deleting(u))
  {
    j := m - 1;
    if u !in ws[j].db {
      j := IsRemoved(ws, es, n, j, u);
    } else {
      assert StepOk(ws, es, j);
    }
  }

  /** What `write` was looked up by: the event at which it began to wait, when its look-up succeeded. */
  lemma {:induction false} WasLookedUp(ws: seq<World>, es: seq<Event>, n: nat, write: Write) returns (i: nat)
    requires IsRun(ws, es) && n <= |es| && write in ws[n].waiting
    ensures i < n && es[i].Begin?
    ensures write.Deleting? ==> es[i].op == Op.Delete(write.uuid) && !IsActive(ws[i].db, write.uuid)
    ensures write.Activating? ==> es[i].op.SetActive? && es[i].op.uuid == write.uuid && write.uuid in ws[i].db
  {
    i := n - 1;
    if write in ws[i].waiting {
      i := WasLookedUp(ws, es, i, write);
    } else {
      assert StepOk(ws, es, i);
    }
  }

  /**
   * A removal takes the active account away only if an activation of it was performed between the
   * removal's look-up and its write.
   */
  lemma RemovalOvertaken(ws: seq<World>, es: seq<Event>, n: nat, u: string) returns (i: nat, j: nat)
    requires IsRun(ws, es) && n < |es| && Performs(ws[n], es[n], Deleting(u)) && Standing(ws, es, n) == Some(u)
    ensures i < j < n && es[i] == Begin(Op.Delete(u)) && !IsActive(ws[i].db, u)
    ensures Performs(ws[j], es[j], Activating(u)) && u in ws[j].db
  {
    InterleavedUseCases(ws, es, n);
    i := WasLookedUp(ws, es, n, Deleting(u));
    j := BecomesActive(ws, es, i, n, u);
    assert i != j;
  }

  /**
   * An activation finds its account gone only if a removal of it was performed between the
   * activation's look-up and its write.
   */
  lemma ActivationOvertaken(ws: seq<World>, es: seq<Event>, n: nat, u: string) returns (i: nat, j: nat)
    requires IsRun(ws, es) && n < |es| && Performs(ws[n], es[n], Activating(u)) && u !in ws[n].db
    ensures i < j < n && es[i].Begin? && es[i].op.SetActive? && es[i].op.uuid == u && u in ws[i].db
    ensures Performs(ws[j], es[j], Deleting(u))
  {
    i := WasLookedUp(ws, es, n, Activating(u));
    j := IsRemoved(ws, es, i, n, u);
    assert i != j;
  }

  // ------------------------------------------------------------------------------------------
  // Both happen

  /** A run goes on. */
  lemma RunOn(ws: seq<World>, es: seq<Event>, e: Event, w: World)
    requires IsRun(ws, es) && w == Next(ws[|es|], e)
    ensures IsRun(ws + [w], es + [e])
  {
    var ws', es' := ws + [w], es + [e];
    forall i | 0 <= i < |es'| ensures StepOk(ws', es', i) {
      if i < |es| { assert StepOk(ws, es, i); }
    }
  }

  /** The account "u" is created and active, its removal having looked before the activation. */
  lemma RemovalCanTakeTheActive(a: CreateCmd, now: int) returns (ws: seq<World>, es: seq<Event>)
    ensures es == [Begin(Create(a, "u", now)), Finish(Saving(NewAccount(a, "u", now)), now),
                   Begin(Op.Delete("u")), Begin(Op.SetActive("u", now)), Finish(Activating("u"), now),
                   Finish(Deleting("u"), now)]
    ensures IsRun(ws, es) && IsActive(ws[5].db, "u") && ws[6].db == map[]
  {
    var row := NewAccount(a, "u", now);
    var active := row.(status := Active, updatedAt := now);
    ws, es := [World(map[], multiset{})], [];
    var w1, w2 := World(map[], multiset{Saving(row)}), World(map["u" := row], multiset{});
    RunOn(ws, es, Begin(Create(a, "u", now)), w1);
    ws, es := ws + [w1], es + [Begin(Create(a, "u", now))];
    RunOn(ws, es, Finish(Saving(row), now), w2);
    ws, es := ws + [w2], es + [Finish(Saving(row), now)];
    var w3, w4 := World(w2.db, multiset{Deleting("u")}), World(w2.db, multiset{Deleting("u"), Activating("u")});
    RunOn(ws, es, Begin(Op.Delete("u")), w3);
    ws, es := ws + [w3], es + [Begin(Op.Delete("u"))];
    RunOn(ws, es, Begin(Op.SetActive("u", now)), w4);
    ws, es := ws + [w4], es + [Begin(Op.SetActive("u", now))];
    var w5, w6 := World(map["u" := active], multiset{Deleting("u")}), World(map[], multiset{});
    RunOn(ws, es, Finish(Activating("u"), now), w5);
    ws, es := ws + [w5], es + [Finish(Activating("u"), now)];
    RunOn(ws, es, Finish(Deleting("u"), now), w6);
    ws, es := ws + [w6], es + [Finish(Deleting("u"), now)];
  }

  /**
   * From any world with "v" active and "u" inactive: "u" is removed between the look-up and the write
   * of its activation, and afterwards no account is active, though "v" is still there.
   */
  lemma ActivationCanLoseTheActive(w: World, now: int)
    requires Sound(w.db) && IsActive(w.db, "v") && "u" in w.db && !IsActive(w.db, "u")
    ensures var w1 := Next(w, Begin(Op.SetActive("u", now)));
            var w2 := Next(w1, Begin(Op.Delete("u")));
            var w3 := Next(w2, Finish(Deleting("u"), now));
            var w4 := Next(w3, Finish(Activating("u"), now));
            IsActive(w3.db, "v") && "v" in w4.db && !SomeActive(w4.db)
  {
    var w1 := Next(w, Begin(Op.SetActive("u", now)));
    var w2 := Next(w1, Begin(Op.Delete("u")));
    assert Activating("u") in w2.waiting && Deleting("u") in w2.waiting && w2.db == w.db;
    DeletedSound(w.db, "u");
    var w3 := Next(w2, Finish(Deleting("u"), now));
    OneActiveSound(w3.db, "u", now);
  }
}
