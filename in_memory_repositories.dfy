/** `MiniBank.Data/BankAccounts/Repositories/BankAccountRepository.cs`: a list
    of account records. Lookups take the first record with the id; `GetById`
    hands out a copy, so a caller's changes reach the list only through
    `Update`, which overwrites the six non-key fields of that record. */
module InMemoryBankAccounts {
  import opened Wrappers
  import opened Entities
  import opened DbModels
  import opened Errors
  import opened Lists
  import BankAccountMappers

  function HasId(id: string): BankAccountDbModel -> bool {
    (m: BankAccountDbModel) => m.id == id
  }

  function HasUserId(userId: string): BankAccountDbModel -> bool {
    (m: BankAccountDbModel) => m.userId == userId
  }

  /** What `GetById` answers on a given list. */
  function Lookup(storage: seq<BankAccountDbModel>, id: string): (r: Result<BankAccount, Error>)
    ensures r.Err? <==> forall k :: 0 <= k < |storage| ==> storage[k].id != id
    ensures r.Err? ==> r.error == AccountNotFound(id)
    ensures r.Ok? ==> r.value.id == id
    ensures r.Ok? ==> exists k :: 0 <= k < |storage| && storage[k] == BankAccountMappers.ToDbModel(r.value)
                                  && forall j :: 0 <= j < k ==> storage[j].id != id
  {
    match FindFirst(storage, HasId(id))
    case None => Err(AccountNotFound(id))
    case Some(k) =>
      BankAccountMappers.DbModelRoundTrip(storage[k]);
      Ok(BankAccountMappers.ToModel(storage[k]))
  }

  /** The record `Update(a)` leaves in place of `m`. */
  function Overwrite(m: BankAccountDbModel, a: BankAccount): (r: BankAccountDbModel)
    ensures r.id == m.id
    ensures BankAccountMappers.ToModel(r) == a.(id := m.id)
  {
    m.(userId := a.userId, amount := a.amount, currencyCode := a.currencyCode,
       openingDate := a.openingDate, closingDate := a.closingDate, isClosed := a.isClosed)
  }

  /** The list after `Update(a)`: the first record with `a`'s id now holds
      `a`, every other record is as it was; no match, no change. */
  function Overwritten(storage: seq<BankAccountDbModel>, a: BankAccount): (r: seq<BankAccountDbModel>)
    ensures |r| == |storage|
    ensures forall k :: 0 <= k < |r| ==> r[k].id == storage[k].id
    ensures FindFirst(storage, HasId(a.id)).None? ==> r == storage
    ensures FindFirst(storage, HasId(a.id)).Some? ==>
              var k := FindFirst(storage, HasId(a.id)).value;
              r[k] == BankAccountMappers.ToDbModel(a) && forall j :: 0 <= j < |r| && j != k ==> r[j] == storage[j]
  {
    match FindFirst(storage, HasId(a.id))
    case None => storage
    case Some(k) => storage[k := Overwrite(storage[k], a)]
  }

  /** `ExistsAccountsForUserById`: closed accounts count too. */
  predicate ExistsForUser(storage: seq<BankAccountDbModel>, userId: string) {
    exists k :: 0 <= k < |storage| && storage[k].userId == userId
  }

  /** After `Update(a)`, `GetById(a.id)` returns `a` when the id was stored,
      and still fails when it was not. */
  lemma {:induction false} LookupAfterOverwrite(storage: seq<BankAccountDbModel>, a: BankAccount)
    ensures Lookup(Overwritten(storage, a), a.id) ==
              if Lookup(storage, a.id).Ok? then Ok(a) else Err(AccountNotFound(a.id))
  {
    var r := Overwritten(storage, a);
    FindFirstAgrees(r, HasId(a.id), storage, HasId(a.id));
    BankAccountMappers.ModelRoundTrip(a);
  }

  /** `Update(a)` changes no other account's `GetById`. */
  lemma {:induction false} OverwriteKeepsOthers(storage: seq<BankAccountDbModel>, a: BankAccount, id: string)
    requires id != a.id
    ensures Lookup(Overwritten(storage, a), id) == Lookup(storage, id)
  {
    var r := Overwritten(storage, a);
    FindFirstAgrees(r, HasId(id), storage, HasId(id));
    match FindFirst(storage, HasId(id))
    case None =>
    case Some(k) =>
      assert storage[k].id == id;
      assert r[k] == storage[k];
  }

  /** `Create` does not check for duplicates: a record appended under an id
      that is already stored is shadowed by the older one. */
  lemma {:induction false} AppendedDuplicateIsShadowed(storage: seq<BankAccountDbModel>, a: BankAccount)
    requires Lookup(storage, a.id).Ok?
    ensures Lookup(storage + [BankAccountMappers.ToDbModel(a)], a.id) == Lookup(storage, a.id)
  {
    FindFirstAppend(storage, BankAccountMappers.ToDbModel(a), HasId(a.id));
  }

  /** After `Create(a)` on a list that does not hold `a`'s id, `GetById`
      returns `a`. */
  lemma {:induction false} CreatedIsFound(storage: seq<BankAccountDbModel>, a: BankAccount)
    requires Lookup(storage, a.id).Err?
    ensures Lookup(storage + [BankAccountMappers.ToDbModel(a)], a.id) == Ok(a)
  {
    FindFirstAppend(storage, BankAccountMappers.ToDbModel(a), HasId(a.id));
    BankAccountMappers.ModelRoundTrip(a);
  }

  class BankAccountRepository {
    /** The static `BankAccountsStorage` list. */
    var storage: seq<BankAccountDbModel>

    constructor ()
      ensures storage == []
    {
      storage := [];
    }

    method GetById(id: string) returns (r: Result<BankAccount, Error>)
      ensures r == Lookup(storage, id)
    {
      var found := FindFirst(storage, HasId(id));
      if found.None? {
        return Err(AccountNotFound(id));
      }
      r := Ok(BankAccountMappers.ToModel(storage[found.value]));
    }

    method GetAll() returns (r: seq<BankAccount>)
      ensures |r| == |storage|
      ensures forall k :: 0 <= k < |r| ==> r[k] == BankAccountMappers.ToModel(storage[k])
    {
      r := seq(|storage|, k requires 0 <= k < |storage| reads this => BankAccountMappers.ToModel(storage[k]));
    }

    method Create(account: BankAccount)
      modifies this
      ensures storage == old(storage) + [BankAccountMappers.ToDbModel(account)]
    {
      storage := storage + [BankAccountMappers.ToDbModel(account)];
    }

    method Update(account: BankAccount) returns (r: Result<(), Error>)
      modifies this
      ensures r.Err? <==> Lookup(old(storage), account.id).Err?
      ensures r.Err? ==> r.error == AccountNotFound(account.id)
      ensures storage == Overwritten(old(storage), account)
    {
      var found := FindFirst(storage, HasId(account.id));
      if found.None? {
        return Err(AccountNotFound(account.id));
      }
      var k := found.value;
      storage := storage[k := Overwrite(storage[k], account)];
      r := Ok(());
    }

    method ExistsAccountsForUserById(userId: string) returns (b: bool)
      ensures b <==> ExistsForUser(storage, userId)
    {
      b := FindFirst(storage, HasUserId(userId)).Some?;
    }
  }
}

/** `MiniBank.Data/Users/Repositories/UserRepository.cs`: a list of user
    records with first-match lookup; `Update` overwrites the login and the
    e-mail, `DeleteById` removes the first record with the id. */
module InMemoryUsers {
  import opened Wrappers
  import opened Entities
  import opened DbModels
  import opened Errors
  import opened Lists
  import UserMappers

  function HasId(id: string): UserDbModel -> bool {
    (m: UserDbModel) => m.id == id
  }

  /** What `ExistsWithId` answers on a given list. */
  predicate ExistsUser(storage: seq<UserDbModel>, id: string) {
    exists k :: 0 <= k < |storage| && storage[k].id == id
  }

  function Lookup(storage: seq<UserDbModel>, id: string): (r: Result<User, Error>)
    ensures r.Err? <==> !ExistsUser(storage, id)
    ensures r.Err? ==> r.error == UserNotFound(id)
    ensures r.Ok? ==> r.value.id == id
    ensures r.Ok? ==> exists k :: 0 <= k < |storage| && storage[k] == UserMappers.ToDbModel(r.value)
                                  && forall j :: 0 <= j < k ==> storage[j].id != id
  {
    match FindFirst(storage, HasId(id))
    case None => Err(UserNotFound(id))
    case Some(k) =>
      UserMappers.DbModelRoundTrip(storage[k]);
      Ok(UserMappers.ToModel(storage[k]))
  }

  /** The list after `Update(u)`: only the login and the e-mail of the first
      record with `u`'s id change. */
  function Overwritten(storage: seq<UserDbModel>, u: User): (r: seq<UserDbModel>)
    ensures |r| == |storage|
    ensures forall k :: 0 <= k < |r| ==> r[k].id == storage[k].id
    ensures FindFirst(storage, HasId(u.id)).None? ==> r == storage
    ensures FindFirst(storage, HasId(u.id)).Some? ==>
              var k := FindFirst(storage, HasId(u.id)).value;
              r[k] == UserMappers.ToDbModel(u) && forall j :: 0 <= j < |r| && j != k ==> r[j] == storage[j]
  {
    match FindFirst(storage, HasId(u.id))
    case None => storage
    case Some(k) => storage[k := storage[k].(login := u.login, email := u.email)]
  }

  /** The list after `DeleteById(id)`: the first record with the id is gone,
      the others keep their order. */
  function Removed(storage: seq<UserDbModel>, id: string): (r: seq<UserDbModel>)
    ensures FindFirst(storage, HasId(id)).None? ==> r == storage
    ensures FindFirst(storage, HasId(id)).Some? ==>
              var k := FindFirst(storage, HasId(id)).value;
              r == storage[..k] + storage[k + 1..]
  {
    match FindFirst(storage, HasId(id))
    case None => storage
    case Some(k) => RemoveAt(storage, k)
  }

  /** After `Create(u)`, `ExistsWithId(u.Id)` holds. */
  lemma CreatedExists(storage: seq<UserDbModel>, u: User)
    ensures ExistsUser(storage + [UserMappers.ToDbModel(u)], u.id)
  {
    assert (storage + [UserMappers.ToDbModel(u)])[|storage|].id == u.id;
  }

  /** `DeleteById(id)` changes no other user's `GetById`. */
  lemma {:induction false} RemovedKeepsOthers(storage: seq<UserDbModel>, id: string, other: string)
    requires other != id
    ensures Lookup(Removed(storage, id), other) == Lookup(storage, other)
  {
    match FindFirst(storage, HasId(id))
    case None =>
    case Some(k) =>
      FindFirstAfterRemoval(storage, HasId(other), k);
  }

  /** When a single record holds the id, `DeleteById` leaves none. */
  lemma {:induction false} DeleteRemovesOnlyCopy(storage: seq<UserDbModel>, id: string)
    requires forall i, j :: 0 <= i < j < |storage| && storage[i].id == id ==> storage[j].id != id
    ensures !ExistsUser(Removed(storage, id), id)
  {
    var r := Removed(storage, id);
    match FindFirst(storage, HasId(id))
    case None =>
    case Some(k) =>
      forall j | 0 <= j < |r|
        ensures r[j].id != id
      {
        if j < k {
          assert r[j] == storage[j];
        } else {
          assert r[j] == storage[j + 1];
        }
      }
  }

  /** `Update(u)` makes `GetById(u.id)` return `u` when it was stored. */
  lemma {:induction false} LookupAfterOverwrite(storage: seq<UserDbModel>, u: User)
    ensures Lookup(Overwritten(storage, u), u.id) ==
              if ExistsUser(storage, u.id) then Ok(u) else Err(UserNotFound(u.id))
  {
    FindFirstAgrees(Overwritten(storage, u), HasId(u.id), storage, HasId(u.id));
    UserMappers.ModelRoundTrip(u);
  }

  class UserRepository {
    /** The static `UsersStorage` list. */
    var storage: seq<UserDbModel>

    constructor ()
      ensures storage == []
    {
      storage := [];
    }

    method ExistsWithId(id: string) returns (b: bool)
      ensures b <==> ExistsUser(storage, id)
    {
      b := FindFirst(storage, HasId(id)).Some?;
    }

    method GetById(id: string) returns (r: Result<User, Error>)
      ensures r == Lookup(storage, id)
    {
      var found := FindFirst(storage, HasId(id));
      if found.None? {
        return Err(UserNotFound(id));
      }
      r := Ok(UserMappers.ToModel(storage[found.value]));
    }

    method GetAll() returns (r: seq<User>)
      ensures |r| == |storage|
      ensures forall k :: 0 <= k < |r| ==> r[k] == UserMappers.ToModel(storage[k])
    {
      r := seq(|storage|, k requires 0 <= k < |storage| reads this => UserMappers.ToModel(storage[k]));
    }

    method Create(user: User)
      modifies this
      ensures storage == old(storage) + [UserMappers.ToDbModel(user)]
    {
      storage := storage + [UserMappers.ToDbModel(user)];
    }

    method Update(user: User) returns (r: Result<(), Error>)
      modifies this
      ensures r.Err? <==> !ExistsUser(old(storage), user.id)
      ensures r.Err? ==> r.error == UserNotFound(user.id)
      ensures storage == Overwritten(old(storage), user)
    {
      var found := FindFirst(storage, HasId(user.id));
      if found.None? {
        return Err(UserNotFound(user.id));
      }
      var k := found.value;
      storage := storage[k := storage[k].(login := user.login, email := user.email)];
      r := Ok(());
    }

    method DeleteById(id: string) returns (r: Result<(), Error>)
      modifies this
      ensures r.Err? <==> !ExistsUser(old(storage), id)
      ensures r.Err? ==> r.error == UserNotFound(id)
      ensures storage == Removed(old(storage), id)
    {
      var found := FindFirst(storage, HasId(id));
      if found.None? {
        return Err(UserNotFound(id));
      }
      storage := RemoveAt(storage, found.value);
      r := Ok(());
    }
  }
}

/** `MiniBank.Data/Transfers/Repositories/TransfersRepository.cs`: an
    append-only list of transfer records. */
module InMemoryTransfers {
  import opened Wrappers
  import opened Entities
  import opened DbModels
  import opened Errors
  import opened Lists
  import TransferMappers

  function HasId(id: string): TransferDbModel -> bool {
    (m: TransferDbModel) => m.id == id
  }

  function Lookup(storage: seq<TransferDbModel>, id: string): (r: Result<Transfer, Error>)
    ensures r.Err? <==> forall k :: 0 <= k < |storage| ==> storage[k].id != id
    ensures r.Err? ==> r.error == TransferNotFound(id)
    ensures r.Ok? ==> r.value.id == id
    ensures r.Ok? ==> exists k :: 0 <= k < |storage| && storage[k] == TransferMappers.ToDbModel(r.value)
                                  && forall j :: 0 <= j < k ==> storage[j].id != id
  {
    match FindFirst(storage, HasId(id))
    case None => Err(TransferNotFound(id))
    case Some(k) =>
      TransferMappers.DbModelRoundTrip(storage[k]);
      Ok(TransferMappers.ToModel(storage[k]))
  }

  /** Appending never changes what an existing id looks up to: recorded
      transfers are never modified or hidden. */
  lemma {:induction false} AppendKeepsRecorded(storage: seq<TransferDbModel>, t: Transfer, id: string)
    requires Lookup(storage, id).Ok?
    ensures Lookup(storage + [TransferMappers.ToDbModel(t)], id) == Lookup(storage, id)
  {
    FindFirstAppend(storage, TransferMappers.ToDbModel(t), HasId(id));
  }

  class TransferRepository {
    /** The static `TransfersStorage` list. */
    var storage: seq<TransferDbModel>

    constructor ()
      ensures storage == []
    {
      storage := [];
    }

    method GetById(id: string) returns (r: Result<Transfer, Error>)
      ensures r == Lookup(storage, id)
    {
      var found := FindFirst(storage, HasId(id));
      if found.None? {
        return Err(TransferNotFound(id));
      }
      r := Ok(TransferMappers.ToModel(storage[found.value]));
    }

    method GetAll() returns (r: seq<Transfer>)
      ensures |r| == |storage|
      ensures forall k :: 0 <= k < |r| ==> r[k] == TransferMappers.ToModel(storage[k])
    {
      r := seq(|storage|, k requires 0 <= k < |storage| reads this => TransferMappers.ToModel(storage[k]));
    }

    method Create(transfer: Transfer)
      modifies this
      ensures storage == old(storage) + [TransferMappers.ToDbModel(transfer)]
    {
      storage := storage + [TransferMappers.ToDbModel(transfer)];
    }
  }
}
