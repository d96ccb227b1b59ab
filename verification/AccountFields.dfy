/** What an account shows after any use cases. */
module AccountFields {
  import opened Options
  import opened Accounts

  /** The account is created here: its id and its business key are free. */
  ghost predicate Creates(before: Db, op: Op, u: string) {
    op.Create? && op.uuid == u && u !in before && forall v :: v in before ==> before[v].key != op.cmd.key
  }

  ghost predicate Edits(op: Op, u: string) { op.Update? && op.edit.uuid == u }

  ghost predicate Removes(before: Db, op: Op, u: string) {
    op.Delete? && op.uuid == u && u in before && before[u].status.Inactive?
  }

  /** The account was created, and not removed since. */
  ghost predicate There(ops: seq<Op>, u: string) {
    ops != [] &&
    var init, op := ops[..|ops| - 1], ops[|ops| - 1];
    Creates(AfterOps(init), op, u) || (There(init, u) && !Removes(AfterOps(init), op, u))
  }

  /** The command that last created the account, and when. */
  ghost function LastCreated(ops: seq<Op>, u: string): Option<Op> {
    if ops == [] then None
    else
      var init, op := ops[..|ops| - 1], ops[|ops| - 1];
      if Creates(AfterOps(init), op, u) then Some(op) else LastCreated(init, u)
  }

  /** What was last given for a field, by the creation or an edit. */
  ghost function LastGiven<T>(ops: seq<Op>, u: string, created: CreateCmd -> T, edited: UpdateCmd -> Option<T>)
    : Option<T>
  {
    if ops == [] then None
    else
      var init, op := ops[..|ops| - 1], ops[|ops| - 1];
      if Creates(AfterOps(init), op, u) then Some(created(op.cmd))
      else if Edits(op, u) && edited(op.edit).Some? then edited(op.edit)
      else LastGiven(init, u, created, edited)
  }

  /** When the account was last created, edited, or any account activated. */
  ghost function LastTouched(ops: seq<Op>, u: string): Option<int> {
    if ops == [] then None
    else
      var init, op := ops[..|ops| - 1], ops[|ops| - 1];
      if Creates(AfterOps(init), op, u) || Edits(op, u) || (op.SetActive? && op.uuid in AfterOps(init))
      then Some(op.now)
      else LastTouched(init, u)
  }

  function FirstTitle(cmd: CreateCmd): string { cmd.title }

  function NewTitle(edit: UpdateCmd): Option<string> { edit.title }

  function FirstPassword(cmd: CreateCmd): Option<string> { cmd.password }

  function NewPassword(edit: UpdateCmd): Option<Option<string>> {
    if edit.password.Some? then Some(edit.password) else None
  }

  function FirstBroker(cmd: CreateCmd): Option<string> { None }

  function NewBroker(edit: UpdateCmd): Option<Option<string>> {
    if edit.brokerName.Some? then Some(edit.brokerName) else None
  }

  /** What the row of an account shows, by the use cases there were. */
  ghost predicate Shows(ops: seq<Op>, u: string, a: Account) {
    var created := LastCreated(ops, u);
    && a.uuid == u && created.Some? && created.value.Create?
    && a.key == created.value.cmd.key && a.subAccountId == created.value.cmd.subAccountId
    && a.createdAt == created.value.now
    && LastGiven(ops, u, FirstTitle, NewTitle) == Some(a.title)
    && LastGiven(ops, u, FirstPassword, NewPassword) == Some(a.password)
    && LastGiven(ops, u, FirstBroker, NewBroker) == Some(a.brokerName)
    && LastTouched(ops, u) == Some(a.updatedAt)
  }

  /** How one use case changes which accounts there are. */
  lemma ThereNext(db: Db, op: Op, u: string)
    ensures u in Apply(db, op) <==> Creates(db, op, u) || (u in db && !Removes(db, op, u))
  {}

  lemma {:induction false} ThereIff(ops: seq<Op>, u: string)
    ensures u in AfterOps(ops) <==> There(ops, u)
  {
    if ops != [] {
      var init, op := ops[..|ops| - 1], ops[|ops| - 1];
      ThereIff(init, u);
      ThereNext(AfterOps(init), op, u);
    }
  }

  /** A row that is created shows what the command gives. */
  lemma CreatedShows(db: Db, op: Op, u: string)
    requires Creates(db, op, u)
    ensures u in Apply(db, op) && Apply(db, op)[u]
         == Account(u, op.cmd.key, op.cmd.title, Inactive, op.cmd.password, None, op.cmd.subAccountId, op.now, op.now)
  {}

  /** A row that was there keeps what the use case does not give. */
  lemma KeptShows(db: Db, op: Op, u: string)
    requires Sound(db) && u in db && u in Apply(db, op)
    ensures var a, b := db[u], Apply(db, op)[u];
            && b.uuid == u && b.key == a.key && b.subAccountId == a.subAccountId
            && b.createdAt == a.createdAt
            && b.title == (if Edits(op, u) && op.edit.title.Some? then op.edit.title.value else a.title)
            && b.password == (if Edits(op, u) && op.edit.password.Some? then op.edit.password else a.password)
            && b.brokerName == (if Edits(op, u) && op.edit.brokerName.Some? then op.edit.brokerName else a.brokerName)
            && b.updatedAt == (if Edits(op, u) || (op.SetActive? && op.uuid in db) then op.now else a.updatedAt)
  {}

  lemma {:induction false} FieldsAre(ops: seq<Op>, u: string)
    requires u in AfterOps(ops)
    ensures Shows(ops, u, AfterOps(ops)[u])
  {
    var init, op := ops[..|ops| - 1], ops[|ops| - 1];
    var db := AfterOps(init);
    ThereNext(db, op, u);
    if Creates(db, op, u) {
      CreatedShows(db, op, u);
    } else {
      FieldsAre(init, u);
      ActiveIsLastActivated(init);
      KeptShows(db, op, u);
    }
  }

  /** An account is there if it was created and not removed since, and each field shows what it was last given. */
  lemma AccountsShow(ops: seq<Op>, u: string)
    ensures u in AfterOps(ops) <==> There(ops, u)
    ensures u in AfterOps(ops) ==> Shows(ops, u, AfterOps(ops)[u])
  {
    ThereIff(ops, u);
    if u in AfterOps(ops) { FieldsAre(ops, u); }
  }
}
