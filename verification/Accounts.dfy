/** Trading accounts: the entity, the repository with its statements, and the use cases one at a time. */
module Accounts {
  import opened Options

  datatype AccountType = Real | Simulator

  datatype Status = Active | Inactive

  /** A row of `trading_accounts`. */
  datatype Account = Account(
    uuid: string, key: BusinessKey, title: string, status: Status, password: Option<string>,
    brokerName: Option<string>, subAccountId: Option<string>, createdAt: int, updatedAt: int)

  datatype BusinessKey = BusinessKey(brokerId: string, accountId: string, kind: AccountType)

  datatype Error = Duplicate(key: BusinessKey) | NotFound(uuid: string) | NoActive | ActiveNotRemovable

  datatype Result<+T> = Ok(value: T) | Err(error: Error)

  /** The table, by its primary key. */
  type Db = map<string, Account>

  predicate HasKey(db: Db, key: BusinessKey) {
    exists u :: u in db && db[u].key == key
  }

  predicate IsActive(db: Db, u: string) { u in db && db[u].status.Active? }

  ghost predicate Sound(db: Db) {
    && (forall u :: u in db ==> db[u].uuid == u)
    && (forall u, v :: u in db && v in db && db[u].key == db[v].key ==> u == v)
    && (forall u, v :: IsActive(db, u) && IsActive(db, v) ==> u == v)
  }

  // ------------------------------------------------------------------------------------------
  // The statements

  function Inserted(db: Db, a: Account): Db {
    if a.uuid in db || HasKey(db, a.key) then db else db[a.uuid := a]
  }

  /** Every row deactivated, then the one activated, if it is there. */
  function OneActive(db: Db, uuid: string, now: int): Db {
    map u | u in db :: db[u].(status := if u == uuid then Active else Inactive, updatedAt := now)
  }

  function Activated(db: Db, uuid: string, now: int): Db { if uuid in db then OneActive(db, uuid, now) else db }

  function Updated(db: Db, a: Account, now: int): Db {
    if a.uuid !in db then db
    else
      db[a.uuid := db[a.uuid].(title := a.title, password := a.password, brokerName := a.brokerName,
                               subAccountId := a.subAccountId, updatedAt := now)]
  }

  function Deleted(db: Db, uuid: string): Db { map u | u in db && u != uuid :: db[u] }

  datatype CreateCmd = CreateCmd(key: BusinessKey, title: string, password: Option<string>,
                                 subAccountId: Option<string>)

  datatype UpdateCmd = UpdateCmd(uuid: string, title: Option<string>, password: Option<string>,
                                 brokerName: Option<string>)

  function NewAccount(cmd: CreateCmd, uuid: string, now: int): Account {
    Account(uuid, cmd.key, cmd.title, Inactive, cmd.password, None, cmd.subAccountId, now, now)
  }

  function Edited(a: Account, cmd: UpdateCmd): Account {
    a.(title := if cmd.title.Some? then cmd.title.value else a.title,
    password := if cmd.password.Some? then cmd.password else a.password,
    brokerName := if cmd.brokerName.Some? then cmd.brokerName else a.brokerName)
  }

  // ------------------------------------------------------------------------------------------
  // The entity and its repository

  class TradingAccount {
    const uuid: string
    const key: BusinessKey
    const subAccountId: Option<string>
    const createdAt: int
    var title: string
    var status: Status
    var password: Option<string>
    var brokerName: Option<string>
    var updatedAt: int

    function Row(): Account
      reads this
    {
      Account(uuid, key, title, status, password, brokerName, subAccountId, createdAt, updatedAt)
    }

    constructor (row: Account)
      ensures Row() == row
    {
      uuid, key, subAccountId, createdAt := row.uuid, row.key, row.subAccountId, row.createdAt;
      title, status, password, brokerName := row.title, row.status, row.password, row.brokerName;
      updatedAt := row.updatedAt;
    }

    method Activate(now: int)
      modifies this
      ensures Row() == old(Row()).(status := Active, updatedAt := now)
    {
      status, updatedAt := Active, now;
    }

    method Deactivate(now: int)
      modifies this
      ensures Row() == old(Row()).(status := Inactive, updatedAt := now)
    {
      status, updatedAt := Inactive, now;
    }
  }

  class Repository {
    var rows: Db

    constructor ()
      ensures rows == map[]
    {
      rows := map[];
    }

    method Save(account: TradingAccount) returns (r: Result<()>)
      modifies this
      ensures rows == Inserted(old(rows), account.Row())
      ensures r.Ok? <==> account.uuid !in old(rows) && !HasKey(old(rows), account.key)
      ensures r.Err? ==> r.error == Duplicate(account.key)
    {
      if account.uuid in rows || HasKey(rows, account.key) { return Err(Duplicate(account.key)); }
      rows := rows[account.uuid := account.Row()];
      return Ok(());
    }

    method GetByUuid(uuid: string) returns (r: Result<TradingAccount>)
      ensures if uuid in rows then r.Ok? && fresh(r.value) && r.value.Row() == rows[uuid] else r == Err(NotFound(uuid))
    {
      if uuid !in rows { return Err(NotFound(uuid)); }
      var account := new TradingAccount(rows[uuid]);
      return Ok(account);
    }

    method GetActive() returns (r: Option<TradingAccount>)
      ensures r == None ==> forall u :: !IsActive(rows, u)
      ensures r.Some? ==> fresh(r.value) && exists u :: IsActive(rows, u) && r.value.Row() == rows[u]
    {
      if u :| u in rows && IsActive(rows, u) {
        var account := new TradingAccount(rows[u]);
        return Some(account);
      }
      return None;
    }

    /** One transaction: look, deactivate all, activate one, read back. */
    method SetActive(uuid: string, now: int) returns (r: Result<TradingAccount>)
      modifies this
      ensures rows == Activated(old(rows), uuid, now)
      ensures if uuid in old(rows) then r.Ok? && fresh(r.value) && r.value.Row() == rows[uuid]
           else r == Err(NotFound(uuid))
    {
      if uuid !in rows { return Err(NotFound(uuid)); }
      rows := map u | u in rows :: rows[u].(status := Inactive, updatedAt := now);
      rows := rows[uuid := rows[uuid].(status := Active, updatedAt := now)];
      assert rows == Activated(old(rows), uuid, now);
      var account := new TradingAccount(rows[uuid]);
      return Ok(account);
    }

    method Update(account: TradingAccount, now: int)
      modifies this
      ensures rows == Updated(old(rows), account.Row(), now)
    {
      if account.uuid in rows {
        var row := rows[account.uuid];
        rows := rows[account.uuid := row.(title := account.title, password := account.password,
                                          brokerName := account.brokerName, subAccountId := account.subAccountId,
                                          updatedAt := now)];
      }
    }

    method Delete(uuid: string) returns (r: Result<()>)
      modifies this
      ensures rows == Deleted(old(rows), uuid)
      ensures r == if uuid in old(rows) then Ok(()) else Err(NotFound(uuid))
    {
      r := if uuid in rows then Ok(()) else Err(NotFound(uuid));
      rows := map u | u in rows && u != uuid :: rows[u];
    }
  }

  // ------------------------------------------------------------------------------------------
  // The use cases, one at a time

  datatype Op =
    | Create(cmd: CreateCmd, uuid: string, now: int)
    | SetActive(uuid: string, now: int)
    | Update(edit: UpdateCmd, now: int)
    | Delete(uuid: string)
    | GetActive

  /** What one use case leaves of the table. */
  function Apply(db: Db, op: Op): Db {
    match op
    case Create(cmd, uuid, now) => Inserted(db, NewAccount(cmd, uuid, now))
    case SetActive(uuid, now) => Activated(db, uuid, now)
    case Update(cmd, now) => if cmd.uuid in db then Updated(db, Edited(db[cmd.uuid], cmd), now) else db
    case Delete(uuid) => if IsActive(db, uuid) then db else Deleted(db, uuid)
    case GetActive => db
  }

  method CreateAccount(repo: Repository, cmd: CreateCmd, uuid: string, now: int) returns (r: Result<TradingAccount>)
    modifies repo
    ensures repo.rows == Apply(old(repo.rows), Create(cmd, uuid, now))
    ensures r.Err? ==> r.error == Duplicate(cmd.key) && repo.rows == old(repo.rows)
    ensures r.Ok? ==> r.value.Row() == NewAccount(cmd, uuid, now)
    ensures r.Ok? ==> uuid in repo.rows && repo.rows[uuid] == r.value.Row()
    ensures r.Ok? <==> !HasKey(old(repo.rows), cmd.key) && uuid !in old(repo.rows)
  {
    if HasKey(repo.rows, cmd.key) { return Err(Duplicate(cmd.key)); }
    var account := new TradingAccount(NewAccount(cmd, uuid, now));
    var saved := repo.Save(account);
    match saved
    case Ok(_) => return Ok(account);
    case Err(e) => return Err(e);
  }

  method SetActiveAccount(repo: Repository, uuid: string, now: int) returns (r: Result<TradingAccount>)
    modifies repo
    ensures repo.rows == Apply(old(repo.rows), Op.SetActive(uuid, now))
    ensures uuid in old(repo.rows) ==> r.Ok? && r.value.Row() == repo.rows[uuid] && IsActive(repo.rows, uuid)
    ensures uuid !in old(repo.rows) ==> r == Err(NotFound(uuid))
  {
    r := repo.SetActive(uuid, now);
  }

  method GetActiveAccount(repo: Repository) returns (r: Result<TradingAccount>)
    ensures r.Err? ==> r == Err(NoActive) && forall u :: !IsActive(repo.rows, u)
    ensures r.Ok? ==> exists u :: IsActive(repo.rows, u) && r.value.Row() == repo.rows[u]
  {
    var account := repo.GetActive();
    match account
    case None => return Err(NoActive);
    case Some(a) => return Ok(a);
  }

  method UpdateAccount(repo: Repository, cmd: UpdateCmd, now: int) returns (r: Result<TradingAccount>)
    modifies repo
    ensures repo.rows == Apply(old(repo.rows), Op.Update(cmd, now))
    ensures if cmd.uuid in old(repo.rows) then r.Ok? && r.value.Row() == Edited(old(repo.rows)[cmd.uuid], cmd)
            else r == Err(NotFound(cmd.uuid))
  {
    r := repo.GetByUuid(cmd.uuid);
    if r.Err? { return; }
    var account := r.value;
    if cmd.title.Some? { account.title := cmd.title.value; }
    if cmd.password.Some? { account.password := cmd.password; }
    if cmd.brokerName.Some? { account.brokerName := cmd.brokerName; }
    repo.Update(account, now);
  }

  method DeleteAccount(repo: Repository, uuid: string) returns (r: Result<()>)
    modifies repo
    ensures repo.rows == Apply(old(repo.rows), Op.Delete(uuid))
    ensures r == if uuid !in old(repo.rows) then Err(NotFound(uuid))
                 else if IsActive(old(repo.rows), uuid) then Err(ActiveNotRemovable)
                 else Ok(())
  {
    var account := repo.GetByUuid(uuid);
    if account.Err? {
      assert Deleted(repo.rows, uuid) == repo.rows;
      return Err(account.error);
    }
    if account.value.status.Active? { return Err(ActiveNotRemovable); }
    r := repo.Delete(uuid);
  }

  // ------------------------------------------------------------------------------------------
  // Over any sequence of use cases

  lemma InsertedSound(db: Db, a: Account)
    requires Sound(db) && a.status.Inactive?
    ensures Sound(Inserted(db, a))
    ensures forall u :: IsActive(Inserted(db, a), u) <==> IsActive(db, u)
  {
    assert !HasKey(db, a.key) ==> forall u :: u in db ==> db[u].key != a.key;
    var after := Inserted(db, a);
    forall u ensures IsActive(after, u) <==> IsActive(db, u) {}
  }

  lemma ActivatedSound(db: Db, uuid: string, now: int)
    requires Sound(db)
    ensures Sound(Activated(db, uuid, now))
    ensures forall u :: IsActive(Activated(db, uuid, now), u) <==> if uuid in db then u == uuid else IsActive(db, u)
  {}

  lemma UpdatedSound(db: Db, a: Account, now: int)
    requires Sound(db)
    ensures Sound(Updated(db, a, now))
    ensures forall u :: IsActive(Updated(db, a, now), u) <==> IsActive(db, u)
  {
    var after := Updated(db, a, now);
    forall u ensures IsActive(after, u) <==> IsActive(db, u) {}
  }

  lemma DeletedSound(db: Db, uuid: string)
    requires Sound(db)
    ensures Sound(Deleted(db, uuid))
    ensures forall u :: IsActive(Deleted(db, uuid), u) <==> IsActive(db, u) && u != uuid
  {
    var after := Deleted(db, uuid);
    forall u ensures IsActive(after, u) <==> IsActive(db, u) && u != uuid {}
  }

  function AfterOps(ops: seq<Op>): Db {
    if ops == [] then map[] else Apply(AfterOps(ops[..|ops| - 1]), ops[|ops| - 1])
  }

  /** The account of the last activation that found its account. */
  function LastActivated(ops: seq<Op>): Option<string> {
    if ops == [] then None
    else
      var init, op := ops[..|ops| - 1], ops[|ops| - 1];
      if op.SetActive? && op.uuid in AfterOps(init) then Some(op.uuid) else LastActivated(init)
  }

  lemma ApplySound(db: Db, op: Op)
    requires Sound(db)
    ensures Sound(Apply(db, op))
    ensures forall u :: IsActive(Apply(db, op), u)
                        <==> if op.SetActive? && op.uuid in db then u == op.uuid else IsActive(db, u)
  {
    match op
    case Create(cmd, uuid, now) => InsertedSound(db, NewAccount(cmd, uuid, now));
    case SetActive(uuid, now) => ActivatedSound(db, uuid, now);
    case Update(cmd, now) => if cmd.uuid in db { UpdatedSound(db, Edited(db[cmd.uuid], cmd), now); }
    case Delete(uuid) => DeletedSound(db, uuid);
    case GetActive =>
  }

  /**
   * After any use cases at most one account is active, identities and business keys are unique, and
   * the active account is the last one activated: it is never removed, and from the first
   * activation on there always is one.
   */
  lemma {:induction false} ActiveIsLastActivated(ops: seq<Op>)
    ensures Sound(AfterOps(ops))
    ensures forall u :: IsActive(AfterOps(ops), u) <==> LastActivated(ops) == Some(u)
  {
    if ops != [] {
      ActiveIsLastActivated(ops[..|ops| - 1]);
      ApplySound(AfterOps(ops[..|ops| - 1]), ops[|ops| - 1]);
    }
  }

  /** Once an activation has succeeded, looking up the active account never fails. */
  lemma {:induction false} ActiveStays(ops: seq<Op>, more: seq<Op>)
    requires LastActivated(ops).Some?
    ensures LastActivated(ops + more).Some?
  {
    if more == [] {
      assert ops + more == ops;
    } else {
      var init := more[..|more| - 1];
      assert (ops + more)[..|ops + more| - 1] == ops + init;
      ActiveStays(ops, init);
    }
  }
}
