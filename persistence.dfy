/** The storage behind the newer revision's repositories and its
    `IUnitOfWork`. Repository reads see the committed state; repository
    writes are recorded as pending changes, and `SaveChanges` commits all
    pending changes together, in order. Accounts and users are kept by id;
    transfers are appended. */
module Persistence {
  import opened Wrappers
  import opened Entities
  import opened Errors

  datatype Db = Db(accounts: map<string, BankAccount>, users: map<string, User>, transfers: seq<Transfer>)

  /** One repository write, as the unit of work records it. */
  datatype Write =
    | AccountCreated(account: BankAccount)
    | AccountUpdated(account: BankAccount)
    | TransferCreated(transfer: Transfer)
    | UserCreated(user: User)
    | UserUpdated(user: User)
    | UserDeleted(id: string)

  /** Every record is kept under its own id. */
  ghost predicate Consistent(db: Db) {
    && (forall id :: id in db.accounts ==> db.accounts[id].id == id)
    && (forall id :: id in db.users ==> db.users[id].id == id)
  }

  /** Every account names a stored user. */
  ghost predicate OwnersExist(db: Db) {
    forall id :: id in db.accounts ==> db.accounts[id].userId in db.users
  }

  /** Committing one write; an update replaces the stored record with the
      given one, and an update of a missing record changes nothing.
      Recorded transfers are never changed or removed. */
  function Apply(db: Db, w: Write): (r: Db)
    ensures Consistent(db) ==> Consistent(r)
    ensures db.transfers <= r.transfers
    ensures !w.TransferCreated? ==> r.transfers == db.transfers
    ensures w.TransferCreated? ==> r.transfers == db.transfers + [w.transfer]
    ensures w.AccountCreated? || w.AccountUpdated? || w.TransferCreated? ==> r.users == db.users
    ensures w.TransferCreated? || w.UserCreated? || w.UserUpdated? || w.UserDeleted? ==> r.accounts == db.accounts
  {
    match w
    case AccountCreated(a) => db.(accounts := db.accounts[a.id := a])
    case AccountUpdated(a) =>
      if a.id in db.accounts then db.(accounts := db.accounts[a.id := a]) else db
    case TransferCreated(t) => db.(transfers := db.transfers + [t])
    case UserCreated(u) => db.(users := db.users[u.id := u])
    case UserUpdated(u) =>
      if u.id in db.users then db.(users := db.users[u.id := u]) else db
    case UserDeleted(id) => db.(users := db.users - {id})
  }

  /** Committing writes one after the other. */
  function ApplyAll(db: Db, ws: seq<Write>): (r: Db)
    ensures Consistent(db) ==> Consistent(r)
    ensures db.transfers <= r.transfers
    decreases |ws|
  {
    if ws == [] then db else ApplyAll(Apply(db, ws[0]), ws[1..])
  }

  /** Committing two batches one after the other is committing them as one. */
  lemma {:induction false} ApplyAllAppend(db: Db, a: seq<Write>, b: seq<Write>)
    ensures ApplyAll(db, a + b) == ApplyAll(ApplyAll(db, a), b)
    decreases |a|
  {
    if a != [] {
      assert (a + b)[0] == a[0];
      assert (a + b)[1..] == a[1..] + b;
      ApplyAllAppend(Apply(db, a[0]), a[1..], b);
    } else {
      assert a + b == b;
    }
  }

  /** Committing a single write. */
  lemma ApplyAllOne(db: Db, w: Write)
    ensures ApplyAll(db, [w]) == Apply(db, w)
  {
    assert [w][1..] == [];
  }

  /** A write that does not touch accounts, users' ids or owners keeps every
      account's user stored. */
  lemma ApplyKeepsOwners(db: Db, w: Write)
    requires OwnersExist(db)
    requires w.AccountCreated? || w.AccountUpdated? ==> w.account.userId in db.users
    requires w.UserDeleted? ==> forall id :: id in db.accounts ==> db.accounts[id].userId != w.id
    ensures OwnersExist(Apply(db, w))
  {
  }

  /** `GetById` of the account repository. */
  function FindAccount(db: Db, id: string): (r: Result<BankAccount, Error>)
    ensures r.Ok? <==> id in db.accounts
    ensures r.Err? ==> r.error == AccountNotFound(id)
    ensures r.Ok? ==> r.value == db.accounts[id] && (Consistent(db) ==> r.value.id == id)
  {
    if id in db.accounts then Ok(db.accounts[id]) else Err(AccountNotFound(id))
  }

  /** `GetById` of the user repository. */
  function FindUser(db: Db, id: string): (r: Result<User, Error>)
    ensures r.Ok? <==> id in db.users
    ensures r.Err? ==> r.error == UserNotFound(id)
    ensures r.Ok? ==> r.value == db.users[id] && (Consistent(db) ==> r.value.id == id)
  {
    if id in db.users then Ok(db.users[id]) else Err(UserNotFound(id))
  }

  /** `ExistsAccountsForUserById`: closed accounts count too. */
  predicate HasAccounts(db: Db, userId: string) {
    exists id :: id in db.accounts && db.accounts[id].userId == userId
  }

  /** `ExistsWithId` of the user repository, as the account validator asks it. */
  function UserExists(db: Db): string -> bool {
    (id: string) => id in db.users
  }

  /** `IUnitOfWork` together with the state it commits to. */
  class UnitOfWork {
    var db: Db
    var pending: seq<Write>
    /** How many times `SaveChanges` ran. */
    var saves: nat

    constructor (db: Db)
      ensures this.db == db && pending == [] && saves == 0
    {
      this.db := db;
      pending := [];
      saves := 0;
    }

    /** A repository write: recorded, not yet committed. */
    method Record(w: Write)
      modifies this
      ensures db == old(db) && saves == old(saves)
      ensures pending == old(pending) + [w]
    {
      pending := pending + [w];
    }

    method SaveChanges()
      modifies this
      ensures db == ApplyAll(old(db), old(pending))
      ensures pending == [] && saves == old(saves) + 1
    {
      db := ApplyAll(db, pending);
      pending := [];
      saves := saves + 1;
    }
  }
}
