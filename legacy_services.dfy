/** `MiniBank.Core/BankAccounts/Services/BankAccountService.cs`, the older
    revision: no validators, amounts taken as given, the dividing converter,
    and a cross-owner credit of `Round2(0.98 * x)`. Its state is the three
    in-memory stores. */
module LegacyBankAccounts {
  import opened Wrappers
  import opened Entities
  import opened DbModels
  import opened Errors
  import opened Money
  import opened Rates
  import opened AccountRules
  import LegacyCurrencies
  import InMemoryBankAccounts
  import InMemoryUsers
  import InMemoryTransfers
  import BankAccountMappers
  import TransferMappers

  /** The share of a cross-owner credit that reaches the beneficiary. */
  const CreditShare: real := 0.98

  function CannotCreate(userId: string): Error {
    Validation("Can't create account because user with id " + userId + " doesn't exist")
  }

  /** What the beneficiary is credited (lines 104-112): the amount itself or
      its conversion, and for different owners 98% of that, rounded. */
  function Credit(from: BankAccount, to: BankAccount, amount: real, rates: RateProvider): (r: Result<real, Error>)
    ensures from.currencyCode == to.currencyCode ==>
              r == Ok(if from.userId == to.userId then amount else Round2(CreditShare * amount))
    ensures from.currencyCode != to.currencyCode ==>
              var c := LegacyCurrencies.Convert(amount, from.currencyCode, to.currencyCode, rates);
              (c.Err? ==> r == Err(c.error))
              && (c.Ok? ==> r == Ok(if from.userId == to.userId then c.value else Round2(CreditShare * c.value)))
  {
    var converted :=
      if from.currencyCode == to.currencyCode then Ok(amount)
      else LegacyCurrencies.Convert(amount, from.currencyCode, to.currencyCode, rates);
    match converted
    case Err(e) => Err(e)
    case Ok(c) => Ok(if from.userId != to.userId then Round2(CreditShare * c) else c)
  }

  /** `MakeTransfer` once both accounts are read: the three guards in source
      order, then the debit of the amount as given and the credit. */
  function Settle(from: BankAccount, to: BankAccount, t: Transfer, rates: RateProvider): (r: Result<Settlement, Error>)
    ensures from.isClosed ==> r == Err(SenderAccountIsClosed)
    ensures !from.isClosed && to.isClosed ==> r == Err(BeneficiaryAccountIsClosed)
    ensures !from.isClosed && !to.isClosed && from.amount < t.amount ==> r == Err(SenderDontHaveEnoughMoney)
    ensures !from.isClosed && !to.isClosed && from.amount >= t.amount ==>
              var credit := Credit(from, to, t.amount, rates);
              (credit.Err? ==> r == Err(credit.error))
              && (credit.Ok? ==> r == Ok(Settlement(from.(amount := from.amount - t.amount),
                                                    to.(amount := to.amount + credit.value), t)))
  {
    if from.isClosed then Err(SenderAccountIsClosed)
    else if to.isClosed then Err(BeneficiaryAccountIsClosed)
    else if from.amount < t.amount then Err(SenderDontHaveEnoughMoney)
    else
      match Credit(from, to, t.amount, rates)
      case Err(e) => Err(e)
      case Ok(credit) =>
        Ok(Settlement(from.(amount := from.amount - t.amount), to.(amount := to.amount + credit), t))
  }

  /** `MakeTransfer` on a given account list: both lookups, then `Settle`. */
  function Outcome(storage: seq<BankAccountDbModel>, t: Transfer, rates: RateProvider): (r: Result<Settlement, Error>)
    ensures InMemoryBankAccounts.Lookup(storage, t.fromAccountId).Err? ==> r == Err(AccountNotFound(t.fromAccountId))
    ensures InMemoryBankAccounts.Lookup(storage, t.fromAccountId).Ok? ==>
              InMemoryBankAccounts.Lookup(storage, t.toAccountId).Err? ==> r == Err(AccountNotFound(t.toAccountId))
    ensures r.Ok? ==> r.value.from.id == t.fromAccountId && r.value.to.id == t.toAccountId
  {
    match InMemoryBankAccounts.Lookup(storage, t.fromAccountId)
    case Err(e) => Err(e)
    case Ok(from) =>
      match InMemoryBankAccounts.Lookup(storage, t.toAccountId)
      case Err(e) => Err(e)
      case Ok(to) => Settle(from, to, t, rates)
  }

  /** The older revision accepts a negative amount between accounts of one
      currency: the funds check passes and the sender's balance grows. */
  lemma NegativeAmountAccepted(from: BankAccount, to: BankAccount, t: Transfer, rates: RateProvider)
    requires !from.isClosed && !to.isClosed && from.currencyCode == to.currencyCode
    requires t.amount < 0.0 && from.amount >= 0.0
    ensures Settle(from, to, t, rates).Ok?
    ensures Settle(from, to, t, rates).value.from.amount > from.amount
  {
  }

  /** Between two accounts of one owner and one currency no money is created
      or lost. */
  lemma SameOwnerConserves(from: BankAccount, to: BankAccount, t: Transfer, rates: RateProvider)
    requires from.userId == to.userId && from.currencyCode == to.currencyCode
    requires Settle(from, to, t, rates).Ok?
    ensures Settle(from, to, t, rates).value.from.amount + Settle(from, to, t, rates).value.to.amount
            == from.amount + to.amount
  {
  }

  /** Between different owners of one currency the beneficiary receives 98%
      of a non-negative amount, to within half a cent, and never more than
      the amount. */
  lemma {:induction false} CrossOwnerCreditBounds(from: BankAccount, to: BankAccount, amount: real, rates: RateProvider)
    requires from.userId != to.userId && from.currencyCode == to.currencyCode
    requires amount >= 0.0 && IsCents(amount)
    ensures Credit(from, to, amount, rates).Ok?
    ensures var c := Credit(from, to, amount, rates).value;
            IsCents(c) && 0.0 <= c <= amount && 0.98 * amount - 0.005 <= c <= 0.98 * amount + 0.005
  {
    Round2NonNegative(CreditShare * amount);
    Round2Monotonic(CreditShare * amount, amount);
    Round2OfCents(amount);
  }

  /** Two distinct accounts after `MakeTransfer`: each is found with its
      settled value, and every other account is as before. */
  lemma {:induction false} DistinctAccountsSettled(storage: seq<BankAccountDbModel>, t: Transfer, rates: RateProvider, other: string)
    requires Outcome(storage, t, rates).Ok? && t.fromAccountId != t.toAccountId
    requires other != t.fromAccountId && other != t.toAccountId
    ensures var s := Outcome(storage, t, rates).value;
            var after := InMemoryBankAccounts.Overwritten(InMemoryBankAccounts.Overwritten(storage, s.from), s.to);
            InMemoryBankAccounts.Lookup(after, t.fromAccountId) == Ok(s.from)
            && InMemoryBankAccounts.Lookup(after, t.toAccountId) == Ok(s.to)
            && InMemoryBankAccounts.Lookup(after, other) == InMemoryBankAccounts.Lookup(storage, other)
  {
    var s := Outcome(storage, t, rates).value;
    var middle := InMemoryBankAccounts.Overwritten(storage, s.from);
    InMemoryBankAccounts.LookupAfterOverwrite(storage, s.from);
    InMemoryBankAccounts.OverwriteKeepsOthers(storage, s.from, t.toAccountId);
    InMemoryBankAccounts.OverwriteKeepsOthers(storage, s.from, other);
    InMemoryBankAccounts.LookupAfterOverwrite(middle, s.to);
    InMemoryBankAccounts.OverwriteKeepsOthers(middle, s.to, t.fromAccountId);
    InMemoryBankAccounts.OverwriteKeepsOthers(middle, s.to, other);
  }

  /** A transfer from an account to itself: the second `Update` overwrites
      the first, so the debit is lost and the balance grows by the amount. */
  lemma {:induction false} SelfTransferCreatesMoney(storage: seq<BankAccountDbModel>, t: Transfer, rates: RateProvider)
    requires Outcome(storage, t, rates).Ok? && t.fromAccountId == t.toAccountId
    ensures var a := InMemoryBankAccounts.Lookup(storage, t.fromAccountId).value;
            var s := Outcome(storage, t, rates).value;
            var after := InMemoryBankAccounts.Overwritten(InMemoryBankAccounts.Overwritten(storage, s.from), s.to);
            InMemoryBankAccounts.Lookup(after, t.fromAccountId) == Ok(a.(amount := a.amount + t.amount))
  {
    var s := Outcome(storage, t, rates).value;
    var middle := InMemoryBankAccounts.Overwritten(storage, s.from);
    InMemoryBankAccounts.LookupAfterOverwrite(storage, s.from);
    InMemoryBankAccounts.LookupAfterOverwrite(middle, s.to);
  }

  // The corrected transfer: a negative amount is refused, as the newer
  // revision's validator refuses it, and so is a transfer from an account
  // to itself, whose debit the updates of lines 117-118 would lose.

  /** The failure the newer revision's validator reports for a negative
      amount. */
  const NegativeAmount: Error := InvalidFields([ValidationFailure("Amount", GreaterThanOrEqualValidator)])

  /** `Settle` as evidently intended: the amount must not be negative and
      the two accounts must differ. */
  function IntendedSettle(from: BankAccount, to: BankAccount, t: Transfer, rates: RateProvider): (r: Result<Settlement, Error>)
    ensures from.id == to.id ==> r == Err(SameAccountTransfer)
    ensures from.id != to.id && t.amount < 0.0 ==> r == Err(NegativeAmount)
  {
    if from.id == to.id then Err(SameAccountTransfer)
    else if t.amount < 0.0 then Err(NegativeAmount)
    else Settle(from, to, t, rates)
  }

  /** Between two open, distinct accounts, a non-negative amount the sender
      covers settles when its credit can be computed; the settlement takes
      from the sender no more than it holds and never adds to it, whatever
      its balance. */
  lemma IntendedSenderBounds(from: BankAccount, to: BankAccount, t: Transfer, rates: RateProvider)
    requires from.id != to.id && !from.isClosed && !to.isClosed && 0.0 <= t.amount <= from.amount
    requires Credit(from, to, t.amount, rates).Ok?
    ensures IntendedSettle(from, to, t, rates).Ok?
    ensures var s := IntendedSettle(from, to, t, rates).value;
            && s.from == from.(amount := from.amount - t.amount)
            && 0.0 <= s.from.amount <= from.amount && from.id != to.id
  {
  }

  /** On a request the code handles as intended, the correction changes
      nothing. */
  lemma IntendedAgreesOnValidRequests(from: BankAccount, to: BankAccount, t: Transfer, rates: RateProvider)
    requires from.id != to.id && t.amount >= 0.0
    ensures IntendedSettle(from, to, t, rates) == Settle(from, to, t, rates)
  {
  }

  /** `Outcome` with `IntendedSettle` in place of `Settle`. */
  function IntendedOutcome(storage: seq<BankAccountDbModel>, t: Transfer, rates: RateProvider): (r: Result<Settlement, Error>)
    ensures InMemoryBankAccounts.Lookup(storage, t.fromAccountId).Err? ==> r == Err(AccountNotFound(t.fromAccountId))
    ensures InMemoryBankAccounts.Lookup(storage, t.fromAccountId).Ok? ==>
              InMemoryBankAccounts.Lookup(storage, t.toAccountId).Err? ==> r == Err(AccountNotFound(t.toAccountId))
    ensures r.Ok? ==> r.value.from.id == t.fromAccountId && r.value.to.id == t.toAccountId
  {
    match InMemoryBankAccounts.Lookup(storage, t.fromAccountId)
    case Err(e) => Err(e)
    case Ok(from) =>
      match InMemoryBankAccounts.Lookup(storage, t.toAccountId)
      case Err(e) => Err(e)
      case Ok(to) => IntendedSettle(from, to, t, rates)
  }

  /** No stored balance is negative. */
  ghost predicate BalancesNonNegative(storage: seq<BankAccountDbModel>) {
    forall k :: 0 <= k < |storage| ==> storage[k].amount >= 0.0
  }

  /** Overwriting an account with a non-negative balance keeps every stored
      balance non-negative. */
  lemma {:induction false} OverwriteKeepsBalances(storage: seq<BankAccountDbModel>, a: BankAccount)
    requires BalancesNonNegative(storage) && a.amount >= 0.0
    ensures BalancesNonNegative(InMemoryBankAccounts.Overwritten(storage, a))
  {
    var r := InMemoryBankAccounts.Overwritten(storage, a);
    forall k | 0 <= k < |r|
      ensures r[k].amount >= 0.0
    {
      if r[k] != storage[k] {
        assert r[k] == BankAccountMappers.ToDbModel(a);
      }
    }
  }

  /** The invariant that no balance becomes negative holds of the intended
      transfer: after the two
      updates no stored balance is negative, the sender holds exactly its
      debited balance and the beneficiary its credited one. */
  lemma {:induction false} IntendedTransferKeepsBalances(storage: seq<BankAccountDbModel>, t: Transfer, rates: RateProvider)
    requires BalancesNonNegative(storage) && RatesNonNegative(rates)
    requires IntendedOutcome(storage, t, rates).Ok?
    ensures var a := InMemoryBankAccounts.Lookup(storage, t.fromAccountId).value;
            var s := IntendedOutcome(storage, t, rates).value;
            var after := InMemoryBankAccounts.Overwritten(InMemoryBankAccounts.Overwritten(storage, s.from), s.to);
            && BalancesNonNegative(after)
            && InMemoryBankAccounts.Lookup(after, t.fromAccountId) == Ok(s.from)
            && InMemoryBankAccounts.Lookup(after, t.toAccountId) == Ok(s.to)
            && s.from.amount == a.amount - t.amount
  {
    var from := InMemoryBankAccounts.Lookup(storage, t.fromAccountId).value;
    var to := InMemoryBankAccounts.Lookup(storage, t.toAccountId).value;
    var s := IntendedOutcome(storage, t, rates).value;
    assert IntendedOutcome(storage, t, rates) == IntendedSettle(from, to, t, rates);
    IntendedSenderBounds(from, to, t, rates);
    var k :| 0 <= k < |storage| && storage[k] == BankAccountMappers.ToDbModel(to);
    assert to.amount >= 0.0;
    var credit := Credit(from, to, t.amount, rates).value;
    if from.currencyCode != to.currencyCode {
      var c := LegacyCurrencies.Convert(t.amount, from.currencyCode, to.currencyCode, rates).value;
      assert c >= 0.0;
      if from.userId != to.userId {
        Round2NonNegative(CreditShare * c);
      }
    } else if from.userId != to.userId {
      Round2NonNegative(CreditShare * t.amount);
    }
    assert s.to == to.(amount := to.amount + credit) && credit >= 0.0;
    var middle := InMemoryBankAccounts.Overwritten(storage, s.from);
    OverwriteKeepsBalances(storage, s.from);
    OverwriteKeepsBalances(middle, s.to);
    InMemoryBankAccounts.LookupAfterOverwrite(storage, s.from);
    InMemoryBankAccounts.OverwriteKeepsOthers(storage, s.from, t.toAccountId);
    InMemoryBankAccounts.LookupAfterOverwrite(middle, s.to);
    InMemoryBankAccounts.OverwriteKeepsOthers(middle, s.to, t.fromAccountId);
  }

  /** Every stored account names a stored user. */
  ghost predicate OwnersExist(accounts: seq<BankAccountDbModel>, users: seq<UserDbModel>) {
    forall k :: 0 <= k < |accounts| ==> InMemoryUsers.ExistsUser(users, accounts[k].userId)
  }

  /** An account found by `GetById` names a stored user. */
  lemma {:induction false} FoundAccountHasOwner(accounts: seq<BankAccountDbModel>, users: seq<UserDbModel>, id: string)
    requires OwnersExist(accounts, users) && InMemoryBankAccounts.Lookup(accounts, id).Ok?
    ensures InMemoryUsers.ExistsUser(users, InMemoryBankAccounts.Lookup(accounts, id).value.userId)
  {
    var a := InMemoryBankAccounts.Lookup(accounts, id).value;
    var k :| 0 <= k < |accounts| && accounts[k] == BankAccountMappers.ToDbModel(a);
    assert accounts[k].userId == a.userId;
  }

  /** Overwriting an account with one whose user is stored keeps every
      account's user stored. */
  lemma {:induction false} OverwriteKeepsOwners(accounts: seq<BankAccountDbModel>, users: seq<UserDbModel>, a: BankAccount)
    requires OwnersExist(accounts, users) && InMemoryUsers.ExistsUser(users, a.userId)
    ensures OwnersExist(InMemoryBankAccounts.Overwritten(accounts, a), users)
  {
    var r := InMemoryBankAccounts.Overwritten(accounts, a);
    forall k | 0 <= k < |r|
      ensures InMemoryUsers.ExistsUser(users, r[k].userId)
    {
      if r[k] != accounts[k] {
        assert r[k] == BankAccountMappers.ToDbModel(a);
      }
    }
  }

  /** A settled transfer keeps every account's user stored: neither account
      changes owner. */
  lemma {:induction false} SettleKeepsOwners(storage: seq<BankAccountDbModel>, users: seq<UserDbModel>, t: Transfer, rates: RateProvider)
    requires OwnersExist(storage, users) && Outcome(storage, t, rates).Ok?
    ensures var s := Outcome(storage, t, rates).value;
            OwnersExist(InMemoryBankAccounts.Overwritten(InMemoryBankAccounts.Overwritten(storage, s.from), s.to), users)
  {
    var s := Outcome(storage, t, rates).value;
    FoundAccountHasOwner(storage, users, t.fromAccountId);
    FoundAccountHasOwner(storage, users, t.toAccountId);
    OverwriteKeepsOwners(storage, users, s.from);
    OverwriteKeepsOwners(InMemoryBankAccounts.Overwritten(storage, s.from), users, s.to);
  }

  class BankAccountService {
    const accounts: InMemoryBankAccounts.BankAccountRepository
    const users: InMemoryUsers.UserRepository
    const transfers: InMemoryTransfers.TransferRepository
    /** The rate source behind the injected converter. */
    const rates: RateProvider

    constructor (accounts: InMemoryBankAccounts.BankAccountRepository, users: InMemoryUsers.UserRepository,
                 transfers: InMemoryTransfers.TransferRepository, rates: RateProvider)
      ensures this.accounts == accounts && this.users == users && this.transfers == transfers && this.rates == rates
    {
      this.accounts := accounts;
      this.users := users;
      this.transfers := transfers;
      this.rates := rates;
    }

    method GetById(id: string) returns (r: Result<BankAccount, Error>)
      ensures r == InMemoryBankAccounts.Lookup(accounts.storage, id)
    {
      r := accounts.GetById(id);
    }

    method GetAll() returns (r: seq<BankAccount>)
      ensures |r| == |accounts.storage|
      ensures forall k :: 0 <= k < |r| ==> r[k] == BankAccountMappers.ToModel(accounts.storage[k])
    {
      r := accounts.GetAll();
    }

    /** Returns the account as the caller's object is left: with the new id
      and opening date. */
    method Create(account: BankAccount, newId: string, now: DateTime) returns (r: Result<BankAccount, Error>)
      modifies accounts
      ensures !InMemoryUsers.ExistsUser(users.storage, account.userId) ==>
                r == Err(CannotCreate(account.userId)) && accounts.storage == old(accounts.storage)
      ensures InMemoryUsers.ExistsUser(users.storage, account.userId) ==>
                r == Ok(account.(id := newId, openingDate := now))
                && accounts.storage == old(accounts.storage) + [BankAccountMappers.ToDbModel(r.value)]
      ensures OwnersExist(old(accounts.storage), users.storage) ==> OwnersExist(accounts.storage, users.storage)
    {
      var known := users.ExistsWithId(account.userId);
      if !known {
        return Err(CannotCreate(account.userId));
      }
      var created := account.(id := newId, openingDate := now);
      accounts.Create(created);
      r := Ok(created);
      assert accounts.storage[|accounts.storage| - 1].userId == account.userId;
    }

    method CloseById(id: string, now: DateTime) returns (r: Result<BankAccount, Error>)
      modifies accounts
      ensures InMemoryBankAccounts.Lookup(old(accounts.storage), id).Err? ==> r == Err(AccountNotFound(id))
      ensures InMemoryBankAccounts.Lookup(old(accounts.storage), id).Ok? ==>
                r == Close(InMemoryBankAccounts.Lookup(old(accounts.storage), id).value, now)
      ensures accounts.storage == if r.Ok? then InMemoryBankAccounts.Overwritten(old(accounts.storage), r.value)
                                  else old(accounts.storage)
      ensures OwnersExist(old(accounts.storage), users.storage) ==> OwnersExist(accounts.storage, users.storage)
    {
      var found := accounts.GetById(id);
      if found.Err? {
        return Err(found.error);
      }
      var account := found.value;
      if account.isClosed {
        return Err(ClosingAccountAlreadyClosed);
      }
      if account.amount != 0.0 {
        return Err(ClosingAccountHasMoney);
      }
      account := account.(closingDate := Some(now), isClosed := true);
      ghost var before := accounts.storage;
      var _ := accounts.Update(account);
      r := Ok(account);
      if OwnersExist(before, users.storage) {
        FoundAccountHasOwner(before, users.storage, id);
        OverwriteKeepsOwners(before, users.storage, account);
      }
    }

    method CalculateTransferCommission(t: Transfer) returns (r: Result<real, Error>)
      ensures InMemoryBankAccounts.Lookup(accounts.storage, t.fromAccountId).Err? ==> r == Err(AccountNotFound(t.fromAccountId))
      ensures InMemoryBankAccounts.Lookup(accounts.storage, t.fromAccountId).Ok? ==>
                var from := InMemoryBankAccounts.Lookup(accounts.storage, t.fromAccountId).value;
                var to := InMemoryBankAccounts.Lookup(accounts.storage, t.toAccountId);
                (to.Err? ==> r == Err(AccountNotFound(t.toAccountId)))
                && (to.Ok? ==> r == Ok(Commission(t.amount, from, to.value)))
    {
      var from := accounts.GetById(t.fromAccountId);
      if from.Err? {
        return Err(from.error);
      }
      var to := accounts.GetById(t.toAccountId);
      if to.Err? {
        return Err(to.error);
      }
      if from.value.userId == to.value.userId {
        return Ok(0.0);
      }
      r := Ok(Round2(t.amount * CommissionPercent));
    }

    /** Lines 89-115 on the two accounts read: the guards, the conversion
        and the cross-owner share, step by step. */
    method SettleAccounts(from: BankAccount, to: BankAccount, t: Transfer) returns (r: Result<Settlement, Error>)
      ensures r == Settle(from, to, t, rates)
    {
      if from.isClosed {
        return Err(SenderAccountIsClosed);
      }
      if to.isClosed {
        return Err(BeneficiaryAccountIsClosed);
      }
      if from.amount < t.amount {
        return Err(SenderDontHaveEnoughMoney);
      }
      var newAmount: real;
      if from.currencyCode == to.currencyCode {
        newAmount := t.amount;
      } else {
        var converted := LegacyCurrencies.Convert(t.amount, from.currencyCode, to.currencyCode, rates);
        if converted.Err? {
          return Err(converted.error);
        }
        newAmount := converted.value;
      }
      if from.userId != to.userId {
        newAmount := Round2(CreditShare * newAmount);
      }
      assert Credit(from, to, t.amount, rates) == Ok(newAmount);
      r := Ok(Settlement(from.(amount := from.amount - t.amount), to.(amount := to.amount + newAmount), t));
    }

    /** Returns the transfer as the caller's object is left: with the new id
      and date, amount and currency as given. */
    method MakeTransfer(t: Transfer, newId: string, now: DateTime) returns (r: Result<Transfer, Error>)
      modifies accounts, transfers
      ensures var o := Outcome(old(accounts.storage), t, rates);
              o.Err? ==> r == Err(o.error) && accounts.storage == old(accounts.storage)
                         && transfers.storage == old(transfers.storage)
      ensures var o := Outcome(old(accounts.storage), t, rates);
              o.Ok? ==> r == Ok(t.(id := newId, transferDateTime := now))
                        && accounts.storage == InMemoryBankAccounts.Overwritten(
                             InMemoryBankAccounts.Overwritten(old(accounts.storage), o.value.from), o.value.to)
                        && transfers.storage == old(transfers.storage) + [TransferMappers.ToDbModel(r.value)]
      ensures OwnersExist(old(accounts.storage), users.storage) ==> OwnersExist(accounts.storage, users.storage)
    {
      var fromFound := accounts.GetById(t.fromAccountId);
      if fromFound.Err? {
        return Err(fromFound.error);
      }
      var toFound := accounts.GetById(t.toAccountId);
      if toFound.Err? {
        return Err(toFound.error);
      }
      var from, to := fromFound.value, toFound.value;
      assert Outcome(accounts.storage, t, rates) == Settle(from, to, t, rates);
      var outcome := SettleAccounts(from, to, t);
      if outcome.Err? {
        return Err(outcome.error);
      }
      var settled := outcome.value;
      ghost var before := accounts.storage;
      assert before == old(accounts.storage) && Outcome(before, t, rates) == Ok(settled);
      var _ := accounts.Update(settled.from);
      var _ := accounts.Update(settled.to);
      ghost var after := InMemoryBankAccounts.Overwritten(InMemoryBankAccounts.Overwritten(before, settled.from), settled.to);
      assert accounts.storage == after;
      var recorded := t.(id := newId, transferDateTime := now);
      transfers.Create(recorded);
      r := Ok(recorded);
      if OwnersExist(before, users.storage) {
        SettleKeepsOwners(before, users.storage, t, rates);
        assert OwnersExist(after, users.storage);
      }
    }
  }
}

/** `MiniBank.Core/Users/Services/UserService.cs`, the older revision: no
    validation; deleting is refused while any account, closed or not, names
    the user. */
module LegacyUsers {
  import opened Wrappers
  import opened Entities
  import opened DbModels
  import opened Errors
  import InMemoryBankAccounts
  import InMemoryUsers
  import UserMappers
  import LegacyBankAccounts

  /** Deleting a user no account names keeps every account's user stored. */
  lemma {:induction false} DeleteKeepsOwners(accounts: seq<BankAccountDbModel>, users: seq<UserDbModel>, id: string)
    requires LegacyBankAccounts.OwnersExist(accounts, users)
    requires !InMemoryBankAccounts.ExistsForUser(accounts, id)
    ensures LegacyBankAccounts.OwnersExist(accounts, InMemoryUsers.Removed(users, id))
  {
    forall k | 0 <= k < |accounts|
      ensures InMemoryUsers.ExistsUser(InMemoryUsers.Removed(users, id), accounts[k].userId)
    {
      InMemoryUsers.RemovedKeepsOthers(users, id, accounts[k].userId);
    }
  }

  class UserService {
    const users: InMemoryUsers.UserRepository
    const accounts: InMemoryBankAccounts.BankAccountRepository

    constructor (users: InMemoryUsers.UserRepository, accounts: InMemoryBankAccounts.BankAccountRepository)
      ensures this.users == users && this.accounts == accounts
    {
      this.users := users;
      this.accounts := accounts;
    }

    method GetById(id: string) returns (r: Result<User, Error>)
      ensures r == InMemoryUsers.Lookup(users.storage, id)
    {
      r := users.GetById(id);
    }

    method GetAll() returns (r: seq<User>)
      ensures |r| == |users.storage|
      ensures forall k :: 0 <= k < |r| ==> r[k] == UserMappers.ToModel(users.storage[k])
    {
      r := users.GetAll();
    }

    /** Returns the user as the caller's object is left: with the new id. */
    method Create(user: User, newId: string) returns (r: User)
      modifies users
      ensures r == user.(id := newId)
      ensures users.storage == old(users.storage) + [UserMappers.ToDbModel(r)]
      ensures InMemoryUsers.ExistsUser(users.storage, newId)
      ensures LegacyBankAccounts.OwnersExist(accounts.storage, old(users.storage)) ==>
                LegacyBankAccounts.OwnersExist(accounts.storage, users.storage)
    {
      r := user.(id := newId);
      users.Create(r);
      InMemoryUsers.CreatedExists(old(users.storage), r);
      forall k | 0 <= k < |accounts.storage| && InMemoryUsers.ExistsUser(old(users.storage), accounts.storage[k].userId)
        ensures InMemoryUsers.ExistsUser(users.storage, accounts.storage[k].userId)
      {
        var j :| 0 <= j < |old(users.storage)| && old(users.storage)[j].id == accounts.storage[k].userId;
        assert users.storage[j] == old(users.storage)[j];
      }
    }

    method Update(user: User) returns (r: Result<(), Error>)
      modifies users
      ensures r.Err? <==> !InMemoryUsers.ExistsUser(old(users.storage), user.id)
      ensures r.Err? ==> r.error == UserNotFound(user.id)
      ensures users.storage == InMemoryUsers.Overwritten(old(users.storage), user)
    {
      r := users.Update(user);
    }

    method DeleteById(id: string) returns (r: Result<(), Error>)
      modifies users
      ensures InMemoryBankAccounts.ExistsForUser(accounts.storage, id) ==>
                r == Err(DeletingUserHasAccounts) && users.storage == old(users.storage)
      ensures !InMemoryBankAccounts.ExistsForUser(accounts.storage, id) ==>
                (r.Err? <==> !InMemoryUsers.ExistsUser(old(users.storage), id))
                && (r.Err? ==> r.error == UserNotFound(id))
                && users.storage == InMemoryUsers.Removed(old(users.storage), id)
      ensures LegacyBankAccounts.OwnersExist(accounts.storage, old(users.storage)) ==>
                LegacyBankAccounts.OwnersExist(accounts.storage, users.storage)
    {
      var linked := accounts.ExistsAccountsForUserById(id);
      if linked {
        return Err(DeletingUserHasAccounts);
      }
      ghost var before := users.storage;
      r := users.DeleteById(id);
      if LegacyBankAccounts.OwnersExist(accounts.storage, before) {
        DeleteKeepsOwners(accounts.storage, before, id);
      }
    }
  }
}
