/** `src/MiniBank.Core/BankAccounts/Services/BankAccountService.cs`, the newer
    revision: transfers are validated first, the amount is rounded to cents
    before it is moved, the converter multiplies by the rate, and a
    cross-owner credit is the converted amount less a 2% commission. All
    writes go through the unit of work and are committed by one
    `SaveChanges`. */
module BankAccounts {
  import opened Wrappers
  import opened Entities
  import opened Errors
  import opened Money
  import opened Rates
  import opened AccountRules
  import opened Persistence
  import Currencies
  import LegacyBankAccounts
  import TransferValidation
  import BankAccountValidation

  /** What the beneficiary is credited (lines 135-145): the rounded amount
      itself or its conversion, less the commission, which is zero between
      accounts of one user. */
  function Credit(from: BankAccount, to: BankAccount, amount: real, rates: RateProvider): (r: Result<real, Error>)
    ensures from.currencyCode == to.currencyCode ==> r == Ok(amount - Commission(amount, from, to))
    ensures from.currencyCode != to.currencyCode ==>
              var c := Currencies.Convert(amount, from.currencyCode, to.currencyCode, rates);
              (c.Err? ==> r == Err(c.error)) && (c.Ok? ==> r == Ok(c.value - Commission(c.value, from, to)))
  {
    var converted :=
      if from.currencyCode == to.currencyCode then Ok(amount)
      else Currencies.Convert(amount, from.currencyCode, to.currencyCode, rates);
    match converted
    case Err(e) => Err(e)
    case Ok(c) => Ok(if from.userId != to.userId then c - Commission(c, from, to) else c)
  }

  /** `MakeTransfer` once both accounts are read: the three guards in source
      order (the funds check compares the amount before rounding), then the
      amount rounded to cents is debited, the credit is added and the
      transfer is recorded in the sender's currency with the rounded amount. */
  function Settle(from: BankAccount, to: BankAccount, t: Transfer, rates: RateProvider): (r: Result<Settlement, Error>)
    ensures from.isClosed ==> r == Err(SenderAccountIsClosed)
    ensures !from.isClosed && to.isClosed ==> r == Err(BeneficiaryAccountIsClosed)
    ensures !from.isClosed && !to.isClosed && from.amount < t.amount ==> r == Err(SenderDontHaveEnoughMoney)
    ensures !from.isClosed && !to.isClosed && from.amount >= t.amount ==>
              var amount := Round2(t.amount);
              var credit := Credit(from, to, amount, rates);
              (credit.Err? ==> r == Err(credit.error))
              && (credit.Ok? ==> r == Ok(Settlement(from.(amount := from.amount - amount),
                                                    to.(amount := to.amount + credit.value),
                                                    t.(currencyCode := from.currencyCode, amount := amount))))
  {
    if from.isClosed then Err(SenderAccountIsClosed)
    else if to.isClosed then Err(BeneficiaryAccountIsClosed)
    else if from.amount < t.amount then Err(SenderDontHaveEnoughMoney)
    else
      var amount := Round2(t.amount);
      match Credit(from, to, amount, rates)
      case Err(e) => Err(e)
      case Ok(credit) =>
        Ok(Settlement(from.(amount := from.amount - amount), to.(amount := to.amount + credit),
                      t.(currencyCode := from.currencyCode, amount := amount)))
  }

  /** `MakeTransfer` after validation: both lookups against the committed
      state, then `Settle`. */
  function Located(db: Db, t: Transfer, rates: RateProvider): (r: Result<Settlement, Error>)
    ensures t.fromAccountId !in db.accounts ==> r == Err(AccountNotFound(t.fromAccountId))
    ensures t.fromAccountId in db.accounts && t.toAccountId !in db.accounts ==> r == Err(AccountNotFound(t.toAccountId))
    ensures t.fromAccountId in db.accounts && t.toAccountId in db.accounts ==>
              r == Settle(db.accounts[t.fromAccountId], db.accounts[t.toAccountId], t, rates)
  {
    var from := FindAccount(db, t.fromAccountId);
    if from.Err? then Err(from.error)
    else
      var to := FindAccount(db, t.toAccountId);
      if to.Err? then Err(to.error)
      else Settle(from.value, to.value, t, rates)
  }

  /** `MakeTransfer` against the committed state: validation first, then
      `Located`. */
  function Outcome(db: Db, t: Transfer, rates: RateProvider): (r: Result<Settlement, Error>)
    ensures TransferValidation.Validate(t) != [] ==> r == Err(InvalidFields(TransferValidation.Validate(t)))
    ensures TransferValidation.Validate(t) == [] ==> r == Located(db, t, rates)
    ensures r.Ok? ==> TransferValidation.Validate(t) == [] && t.fromAccountId in db.accounts && t.toAccountId in db.accounts
  {
    var failures := TransferValidation.Validate(t);
    if failures != [] then Err(InvalidFields(failures)) else Located(db, t, rates)
  }

  /** The repository writes `MakeTransfer` records, in order. */
  function TransferWrites(s: Settlement, recorded: Transfer): seq<Write> {
    [AccountUpdated(s.from), AccountUpdated(s.to), TransferCreated(recorded)]
  }

  /** Committing a transfer's writes overwrites the two accounts (the
      beneficiary last) and appends the transfer; users are untouched. */
  lemma {:induction false} CommittedTransfer(db: Db, s: Settlement, recorded: Transfer)
    requires s.from.id in db.accounts && s.to.id in db.accounts
    ensures var after := ApplyAll(db, TransferWrites(s, recorded));
            && after.accounts == db.accounts[s.from.id := s.from][s.to.id := s.to]
            && after.users == db.users
            && after.transfers == db.transfers + [recorded]
  {
    var ws := TransferWrites(s, recorded);
    var d1 := Apply(db, ws[0]);
    var d2 := Apply(d1, ws[1]);
    var d3 := Apply(d2, ws[2]);
    assert ws[1..][1..][1..] == [];
    assert ApplyAll(d2, ws[1..][1..]) == ApplyAll(d3, []);
    assert ApplyAll(db, ws) == d3;
  }

  /** What a settled transfer is made of: the stored sender debited by the
      rounded amount, the stored beneficiary with a new balance only, and the
      transfer recorded rounded and in the sender's currency. */
  lemma {:induction false} OutcomeAccounts(db: Db, t: Transfer, rates: RateProvider)
    requires Consistent(db) && Outcome(db, t, rates).Ok?
    ensures var s := Outcome(db, t, rates).value;
            var from := db.accounts[t.fromAccountId];
            var to := db.accounts[t.toAccountId];
            && s.from == from.(amount := from.amount - Round2(t.amount))
            && s.to == to.(amount := s.to.amount)
            && s.transfer == t.(currencyCode := from.currencyCode, amount := Round2(t.amount))
            && s.from.id == t.fromAccountId && s.to.id == t.toAccountId
  {
    var from, to := db.accounts[t.fromAccountId], db.accounts[t.toAccountId];
    assert Outcome(db, t, rates) == Settle(from, to, t, rates);
    assert Credit(from, to, Round2(t.amount), rates).Ok?;
  }

  /** A transfer between two distinct accounts: after the commit each holds
      its settled value and every other account is as before. */
  lemma {:induction false} DistinctAccountsSettled(db: Db, t: Transfer, rates: RateProvider, recorded: Transfer, other: string)
    requires Consistent(db) && Outcome(db, t, rates).Ok? && t.fromAccountId != t.toAccountId
    requires other != t.fromAccountId && other != t.toAccountId
    ensures var s := Outcome(db, t, rates).value;
            var after := ApplyAll(db, TransferWrites(s, recorded));
            && FindAccount(after, t.fromAccountId) == Ok(s.from)
            && FindAccount(after, t.toAccountId) == Ok(s.to)
            && FindAccount(after, other) == FindAccount(db, other)
            && after.transfers == db.transfers + [recorded]
  {
    OutcomeAccounts(db, t, rates);
    CommittedTransfer(db, Outcome(db, t, rates).value, recorded);
  }

  /** A transfer from an account to itself: the second update overwrites the
      first, so the debit is lost and the balance grows by the rounded
      amount. */
  lemma {:induction false} SelfTransferLosesDebit(db: Db, t: Transfer, rates: RateProvider, recorded: Transfer)
    requires Consistent(db) && Outcome(db, t, rates).Ok? && t.fromAccountId == t.toAccountId
    ensures var a := db.accounts[t.fromAccountId];
            var after := ApplyAll(db, TransferWrites(Outcome(db, t, rates).value, recorded));
            FindAccount(after, t.fromAccountId) == Ok(a.(amount := a.amount + Round2(t.amount)))
  {
    OutcomeAccounts(db, t, rates);
    var a := db.accounts[t.fromAccountId];
    assert Outcome(db, t, rates) == Settle(a, a, t, rates);
    CommittedTransfer(db, Outcome(db, t, rates).value, recorded);
  }

  /** A committed transfer keeps every account's user stored. */
  lemma {:induction false} TransferKeepsOwners(db: Db, t: Transfer, rates: RateProvider, recorded: Transfer)
    requires Consistent(db) && OwnersExist(db) && Outcome(db, t, rates).Ok?
    ensures OwnersExist(ApplyAll(db, TransferWrites(Outcome(db, t, rates).value, recorded)))
  {
    var s := Outcome(db, t, rates).value;
    OutcomeAccounts(db, t, rates);
    CommittedTransfer(db, s, recorded);
    var after := ApplyAll(db, TransferWrites(s, recorded));
    forall id | id in after.accounts
      ensures after.accounts[id].userId in after.users
    {
      if id != s.from.id && id != s.to.id {
        assert after.accounts[id] == db.accounts[id];
      }
    }
  }

  /** Balances in whole cents stay in whole cents, and the recorded amount is
      in whole cents whatever was asked for. */
  lemma {:induction false} CentsStayCents(from: BankAccount, to: BankAccount, t: Transfer, rates: RateProvider)
    requires IsCents(from.amount) && IsCents(to.amount) && Settle(from, to, t, rates).Ok?
    ensures var s := Settle(from, to, t, rates).value;
            IsCents(s.from.amount) && IsCents(s.to.amount) && IsCents(s.transfer.amount)
  {
    var amount := Round2(t.amount);
    var converted :=
      if from.currencyCode == to.currencyCode then amount
      else Currencies.Convert(amount, from.currencyCode, to.currencyCode, rates).value;
    var credit := Credit(from, to, amount, rates).value;
    assert IsCents(converted);
    assert credit == converted - Commission(converted, from, to);
    CentsClosed(converted, Commission(converted, from, to));
    CentsClosed(to.amount, credit);
    CentsClosed(from.amount, amount);
  }

  /** A sender whose balance is in whole cents is never overdrawn: the funds
      check passes only if the balance covers the amount, and rounding the
      amount cannot take it past a whole-cents bound. */
  lemma {:induction false} CentsBalanceNotOverdrawn(from: BankAccount, to: BankAccount, t: Transfer, rates: RateProvider)
    requires IsCents(from.amount) && Settle(from, to, t, rates).Ok?
    ensures Settle(from, to, t, rates).value.from.amount >= 0.0
  {
    Round2Monotonic(t.amount, from.amount);
    Round2OfCents(from.amount);
  }

  /** The funds check compares the amount before rounding: a balance of
      10.006 passes a request of 10.006, which is then debited as 10.01. */
  lemma UnroundedCheckCanOverdraw(from: BankAccount, to: BankAccount, t: Transfer, rates: RateProvider)
    requires !from.isClosed && !to.isClosed && from.currencyCode == to.currencyCode
    requires from.amount == 10.006 && t.amount == 10.006
    ensures Settle(from, to, t, rates).Ok?
    ensures Settle(from, to, t, rates).value.from.amount < 0.0
  {
    assert (10.006 * 100.0).Floor == 1000;
    assert Round2(10.006) == 10.01;
  }

  /** Between two accounts of one owner and one currency no money is created
      or lost. */
  lemma SameOwnerConserves(from: BankAccount, to: BankAccount, t: Transfer, rates: RateProvider)
    requires from.userId == to.userId && from.currencyCode == to.currencyCode
    requires Settle(from, to, t, rates).Ok?
    ensures Settle(from, to, t, rates).value.from.amount + Settle(from, to, t, rates).value.to.amount
            == from.amount + to.amount
  {
  }

  /** Between different owners of one currency the beneficiary receives the
      amount less its commission: 98% of it to within half a cent, never more
      than the amount and never less than zero. */
  lemma {:induction false} CrossOwnerCreditBounds(from: BankAccount, to: BankAccount, amount: real, rates: RateProvider)
    requires from.userId != to.userId && from.currencyCode == to.currencyCode
    requires amount >= 0.0
    ensures Credit(from, to, amount, rates).Ok?
    ensures var c := Credit(from, to, amount, rates).value;
            c == amount - Round2(amount * CommissionPercent)
            && 0.0 <= c <= amount && 0.98 * amount - 0.005 <= c <= 0.98 * amount + 0.005
  {
    Round2Monotonic(amount * CommissionPercent, amount);
    Round2OfCents(0.0);
    Round2Monotonic(0.0, amount * CommissionPercent);
    if amount >= 0.01 {
      Round2OfCents(0.01);
    } else {
      assert amount * CommissionPercent < 0.005;
      Round2OfLessThanHalfCent(amount * CommissionPercent);
    }
  }

  /** The suite's transfer between different owners of one currency: 100 out
      of 1000 leaves 900 and credits 98. */
  lemma CrossOwnerExample(from: BankAccount, to: BankAccount, t: Transfer, rates: RateProvider)
    requires !from.isClosed && !to.isClosed && from.currencyCode == to.currencyCode && from.userId != to.userId
    requires from.amount == 1000.0 && to.amount == 0.0 && t.amount == 100.0
    ensures Settle(from, to, t, rates).Ok?
    ensures Settle(from, to, t, rates).value.from.amount == 900.0
    ensures Settle(from, to, t, rates).value.to.amount == 98.0
  {
    Round2OfCents(100.0);
    Round2OfCents(2.0);
  }

  /** The suite's converted transfer: 17.7 out of 1000, converted to 10.17,
      debits 17.7, credits 9.97, and is recorded in the sender's currency. */
  lemma ConvertedExample(from: BankAccount, to: BankAccount, t: Transfer, rates: RateProvider)
    requires !from.isClosed && !to.isClosed && from.currencyCode != to.currencyCode && from.userId != to.userId
    requires from.amount == 1000.0 && t.amount == 17.7
    requires Currencies.Convert(Round2(t.amount), from.currencyCode, to.currencyCode, rates) == Ok(10.17)
    ensures Settle(from, to, t, rates).Ok?
    ensures Settle(from, to, t, rates).value.from.amount == 1000.0 - 17.7
    ensures Settle(from, to, t, rates).value.to.amount == to.amount + 9.97
    ensures Settle(from, to, t, rates).value.transfer.currencyCode == from.currencyCode
  {
    Round2OfCents(17.7);
    assert (10.17 * CommissionPercent * 100.0).Floor == 20;
    assert Round2(10.17 * CommissionPercent) == 0.2;
  }

  /** The suite's rounding case: 10.123 is moved and recorded as 10.12. */
  lemma RoundingExample(from: BankAccount, to: BankAccount, t: Transfer, rates: RateProvider)
    requires !from.isClosed && !to.isClosed && from.currencyCode == to.currencyCode && from.userId == to.userId
    requires from.amount == 1000.0 && t.amount == 10.123
    ensures Settle(from, to, t, rates).Ok?
    ensures var s := Settle(from, to, t, rates).value;
            s.transfer.amount == 10.12 && s.from.amount == 1000.0 - 10.12 && s.to.amount == to.amount + 10.12
  {
    Round2Example();
  }

  /** The commission preview is taken on the amount in the sender's
      currency, while the commission applied is taken on the converted
      amount: 100 at rate 0.0125 previews 2 but deducts 0.02. */
  lemma PreviewDiffersFromApplied(from: BankAccount, to: BankAccount, t: Transfer, rates: RateProvider)
    requires !from.isClosed && !to.isClosed && from.currencyCode != to.currencyCode && from.userId != to.userId
    requires from.amount >= 100.0 && t.amount == 100.0
    requires rates(from.currencyCode, to.currencyCode) == Rate(0.0125)
    ensures Commission(t.amount, from, to) == 2.0
    ensures Settle(from, to, t, rates).Ok?
    ensures Settle(from, to, t, rates).value.to.amount == to.amount + 1.25 - 0.02
  {
    Round2OfCents(100.0);
    Round2OfCents(2.0);
    Round2OfCents(1.25);
    assert Currencies.AtRate(100.0, 0.0125) == 1.25;
    assert (1.25 * CommissionPercent * 100.0).Floor == 2;
    assert Round2(1.25 * CommissionPercent) == 0.02;
  }

  /** The two revisions credit different amounts for the same request:
      a quarter between different owners of one currency is credited in
      full here (the half-cent commission rounds to zero) and as 0.24 by the
      older revision. */
  lemma RevisionsCreditDiffer(from: BankAccount, to: BankAccount, rates: RateProvider)
    requires from.currencyCode == to.currencyCode && from.userId != to.userId
    ensures Credit(from, to, 0.25, rates) == Ok(0.25)
    ensures LegacyBankAccounts.Credit(from, to, 0.25, rates) == Ok(0.24)
  {
    assert (0.25 * CommissionPercent * 100.0).Floor == 0;
    assert Round2(0.25 * CommissionPercent) == 0.0;
    assert (LegacyBankAccounts.CreditShare * 0.25 * 100.0).Floor == 24;
    assert Round2(LegacyBankAccounts.CreditShare * 0.25) == 0.24;
  }

  /** Unlike the older revision, a negative amount never reaches the
      accounts: validation reports it. */
  lemma NegativeAmountRejected(db: Db, t: Transfer, rates: RateProvider)
    requires t.amount < 0.0
    ensures Outcome(db, t, rates).Err?
    ensures Outcome(db, t, rates).error.InvalidFields?
    ensures ValidationFailure("Amount", GreaterThanOrEqualValidator) in Outcome(db, t, rates).error.failures
  {
  }

  // The corrected transfer: the funds check of line 127 compares the amount
  // that line 147 debits, and a transfer from an account to itself is
  // refused instead of being lost by the updates of lines 150-151.

  /** `Settle` as evidently intended: the request is rounded to cents
      before the funds check, and the two accounts must differ. */
  function IntendedSettle(from: BankAccount, to: BankAccount, t: Transfer, rates: RateProvider): (r: Result<Settlement, Error>)
    ensures from.id == to.id ==> r == Err(SameAccountTransfer)
    ensures from.id != to.id && !from.isClosed && !to.isClosed && from.amount < Round2(t.amount) ==>
              r == Err(SenderDontHaveEnoughMoney)
  {
    if from.id == to.id then Err(SameAccountTransfer)
    else Settle(from, to, t.(amount := Round2(t.amount)), rates)
  }

  /** Between two open, distinct accounts whose sender covers the rounded
      amount and whose credit can be computed, the intended settlement goes
      through; it debits the rounded amount, so the sender is never
      overdrawn, whatever its balance. */
  lemma {:induction false} IntendedSettleNotOverdrawn(from: BankAccount, to: BankAccount, t: Transfer, rates: RateProvider)
    requires from.id != to.id && !from.isClosed && !to.isClosed && Round2(t.amount) <= from.amount
    requires Credit(from, to, Round2(t.amount), rates).Ok?
    ensures IntendedSettle(from, to, t, rates).Ok?
    ensures var s := IntendedSettle(from, to, t, rates).value;
            && s.from == from.(amount := from.amount - Round2(t.amount))
            && s.to == to.(amount := to.amount + Credit(from, to, Round2(t.amount), rates).value)
            && s.transfer == t.(currencyCode := from.currencyCode, amount := Round2(t.amount))
            && s.from.amount >= 0.0 && from.id != to.id
  {
    Round2Idempotent(t.amount);
    assert IntendedSettle(from, to, t, rates) == Settle(from, to, t.(amount := Round2(t.amount)), rates);
  }

  /** The overdrawing request of `UnroundedCheckCanOverdraw` is refused. */
  lemma IntendedRefusesOverdraw(from: BankAccount, to: BankAccount, t: Transfer, rates: RateProvider)
    requires !from.isClosed && !to.isClosed && from.id != to.id
    requires from.amount == 10.006 && t.amount == 10.006
    ensures IntendedSettle(from, to, t, rates) == Err(SenderDontHaveEnoughMoney)
  {
    assert (10.006 * 100.0).Floor == 1000;
    assert Round2(10.006) == 10.01;
  }

  /** For a whole-cents balance the correction is invisible: every transfer
      between two accounts the code settles is settled alike. */
  lemma {:induction false} IntendedAgreesOnCents(from: BankAccount, to: BankAccount, t: Transfer, rates: RateProvider)
    requires IsCents(from.amount) && from.id != to.id && Settle(from, to, t, rates).Ok?
    ensures IntendedSettle(from, to, t, rates) == Settle(from, to, t, rates)
  {
    Round2Monotonic(t.amount, from.amount);
    Round2OfCents(from.amount);
    Round2Idempotent(t.amount);
    assert IntendedSettle(from, to, t, rates) == Settle(from, to, t.(amount := Round2(t.amount)), rates);
  }

  /** `Located` with `IntendedSettle` in place of `Settle`. */
  function IntendedLocated(db: Db, t: Transfer, rates: RateProvider): (r: Result<Settlement, Error>)
    ensures t.fromAccountId !in db.accounts ==> r == Err(AccountNotFound(t.fromAccountId))
    ensures t.fromAccountId in db.accounts && t.toAccountId !in db.accounts ==> r == Err(AccountNotFound(t.toAccountId))
    ensures t.fromAccountId in db.accounts && t.toAccountId in db.accounts ==>
              r == IntendedSettle(db.accounts[t.fromAccountId], db.accounts[t.toAccountId], t, rates)
  {
    var from := FindAccount(db, t.fromAccountId);
    if from.Err? then Err(from.error)
    else
      var to := FindAccount(db, t.toAccountId);
      if to.Err? then Err(to.error)
      else IntendedSettle(from.value, to.value, t, rates)
  }

  /** `Outcome` with `IntendedSettle` in place of `Settle`. */
  function IntendedOutcome(db: Db, t: Transfer, rates: RateProvider): (r: Result<Settlement, Error>)
    ensures TransferValidation.Validate(t) != [] ==> r == Err(InvalidFields(TransferValidation.Validate(t)))
    ensures TransferValidation.Validate(t) == [] ==> r == IntendedLocated(db, t, rates)
  {
    var failures := TransferValidation.Validate(t);
    if failures != [] then Err(InvalidFields(failures)) else IntendedLocated(db, t, rates)
  }

  /** No account balance is negative. */
  ghost predicate BalancesNonNegative(db: Db) {
    forall id :: id in db.accounts ==> db.accounts[id].amount >= 0.0
  }

  /** A whole-cents amount is credited, converted and less its commission,
      as a non-negative amount. */
  lemma {:induction false} CreditNonNegative(from: BankAccount, to: BankAccount, amount: real, rates: RateProvider)
    requires amount >= 0.0 && IsCents(amount) && RatesNonNegative(rates)
    requires Credit(from, to, amount, rates).Ok?
    ensures Credit(from, to, amount, rates).value >= 0.0
  {
    var c := if from.currencyCode == to.currencyCode then amount
             else Currencies.Convert(amount, from.currencyCode, to.currencyCode, rates).value;
    assert c >= 0.0 && IsCents(c);
    if from.userId != to.userId {
      Round2Monotonic(c * CommissionPercent, c);
      Round2OfCents(c);
    }
  }

  /** The invariant that no balance becomes negative holds of the intended
      transfer: committed, it
      leaves no balance negative, the sender holds exactly its debited
      balance and the beneficiary its credited one. */
  lemma {:induction false} IntendedTransferKeepsBalances(db: Db, t: Transfer, rates: RateProvider, recorded: Transfer)
    requires Consistent(db) && BalancesNonNegative(db) && RatesNonNegative(rates)
    requires IntendedOutcome(db, t, rates).Ok?
    ensures var s := IntendedOutcome(db, t, rates).value;
            var after := ApplyAll(db, TransferWrites(s, recorded));
            && BalancesNonNegative(after)
            && FindAccount(after, t.fromAccountId) == Ok(s.from)
            && FindAccount(after, t.toAccountId) == Ok(s.to)
            && s.from.amount == db.accounts[t.fromAccountId].amount - Round2(t.amount)
  {
    assert TransferValidation.Validate(t) == [] && t.fromAccountId in db.accounts && t.toAccountId in db.accounts;
    var from, to := db.accounts[t.fromAccountId], db.accounts[t.toAccountId];
    var s := IntendedOutcome(db, t, rates).value;
    assert IntendedOutcome(db, t, rates) == IntendedSettle(from, to, t, rates);
    IntendedSettleNotOverdrawn(from, to, t, rates);
    Round2NonNegative(t.amount);
    CreditNonNegative(from, to, Round2(t.amount), rates);
    assert s.from.id == t.fromAccountId && s.to.id == t.toAccountId && s.from.id != s.to.id;
    assert s.to.amount >= 0.0;
    CommittedTransfer(db, s, recorded);
  }

  class BankAccountService {
    const uow: UnitOfWork
    /** The rate source behind the injected converter. */
    const rates: RateProvider

    constructor (uow: UnitOfWork, rates: RateProvider)
      ensures this.uow == uow && this.rates == rates
    {
      this.uow := uow;
      this.rates := rates;
    }

    /** Returns the account as the caller's object is left: with the new id
        and opening date. */
    method Create(account: BankAccount, newId: string, now: DateTime) returns (r: Result<BankAccount, Error>)
      modifies uow
      ensures var failures := BankAccountValidation.Validate(account, UserExists(old(uow.db)));
              failures != [] ==> r == Err(InvalidFields(failures)) && unchanged(uow)
      ensures var failures := BankAccountValidation.Validate(account, UserExists(old(uow.db)));
              failures == [] ==>
                r == Ok(account.(id := newId, openingDate := now))
                && uow.db == ApplyAll(old(uow.db), old(uow.pending) + [AccountCreated(r.value)])
                && uow.pending == [] && uow.saves == old(uow.saves) + 1
      ensures old(uow.pending) == [] && OwnersExist(old(uow.db)) ==> OwnersExist(uow.db)
    {
      var failures := BankAccountValidation.Validate(account, UserExists(uow.db));
      if failures != [] {
        return Err(InvalidFields(failures));
      }
      var created := account.(id := newId, openingDate := now);
      uow.Record(AccountCreated(created));
      ghost var before := uow.db;
      uow.SaveChanges();
      r := Ok(created);
      if old(uow.pending) == [] {
        assert old(uow.pending) + [AccountCreated(created)] == [AccountCreated(created)];
        ApplyAllOne(before, AccountCreated(created));
        assert UserExists(before)(account.userId);
        if OwnersExist(before) {
          ApplyKeepsOwners(before, AccountCreated(created));
        }
      }
    }

    /** Returns the account as stored after closing. */
    method CloseById(id: string, now: DateTime) returns (r: Result<BankAccount, Error>)
      modifies uow
      ensures id !in old(uow.db.accounts) ==> r == Err(AccountNotFound(id)) && unchanged(uow)
      ensures id in old(uow.db.accounts) ==> r == Close(old(uow.db.accounts[id]), now)
      ensures r.Err? ==> unchanged(uow)
      ensures r.Ok? ==> uow.db == ApplyAll(old(uow.db), old(uow.pending) + [AccountUpdated(r.value)])
                        && uow.pending == [] && uow.saves == old(uow.saves) + 1
      ensures old(uow.pending) == [] && OwnersExist(old(uow.db)) ==> OwnersExist(uow.db)
    {
      var found := FindAccount(uow.db, id);
      if found.Err? {
        return Err(found.error);
      }
      var account := found.value;
      if account.isClosed {
        return Err(ClosingAccountAlreadyClosed);
      }
      if account.amount != 0.0 {
        return Err(ClosingAccountHasMoney);
      }
      account := account.(closingDate := Some(now), isClosed := true);
      uow.Record(AccountUpdated(account));
      ghost var before := uow.db;
      uow.SaveChanges();
      r := Ok(account);
      if old(uow.pending) == [] {
        assert old(uow.pending) + [AccountUpdated(account)] == [AccountUpdated(account)];
        ApplyAllOne(before, AccountUpdated(account));
        if OwnersExist(before) {
          ApplyKeepsOwners(before, AccountUpdated(account));
        }
      }
    }

    /** The commission a transfer would be charged, on its amount as given. */
    method CalculateTransferCommission(t: Transfer) returns (r: Result<real, Error>)
      ensures TransferValidation.Validate(t) != [] ==> r == Err(InvalidFields(TransferValidation.Validate(t)))
      ensures TransferValidation.Validate(t) == [] && t.fromAccountId !in uow.db.accounts ==>
                r == Err(AccountNotFound(t.fromAccountId))
      ensures TransferValidation.Validate(t) == [] && t.fromAccountId in uow.db.accounts ==>
                (t.toAccountId !in uow.db.accounts ==> r == Err(AccountNotFound(t.toAccountId)))
                && (t.toAccountId in uow.db.accounts ==>
                      r == Ok(Commission(t.amount, uow.db.accounts[t.fromAccountId], uow.db.accounts[t.toAccountId])))
    {
      var failures := TransferValidation.Validate(t);
      if failures != [] {
        return Err(InvalidFields(failures));
      }
      var from := FindAccount(uow.db, t.fromAccountId);
      if from.Err? {
        return Err(from.error);
      }
      var to := FindAccount(uow.db, t.toAccountId);
      if to.Err? {
        return Err(to.error);
      }
      r := Ok(Commission(t.amount, from.value, to.value));
    }

    /** Lines 117-148 on the two accounts read: the guards, the rounding, the
        conversion and the commission, step by step. */
    method SettleAccounts(from: BankAccount, to: BankAccount, t: Transfer) returns (r: Result<Settlement, Error>)
      ensures r == Settle(from, to, t, rates)
    {
      if from.isClosed {
        return Err(SenderAccountIsClosed);
      }
      if to.isClosed {
        return Err(BeneficiaryAccountIsClosed);
      }
      if from.amount < t.amount {
        return Err(SenderDontHaveEnoughMoney);
      }
      var transfer := t.(currencyCode := from.currencyCode, amount := Round2(t.amount));
      var newAmount: real;
      if from.currencyCode == to.currencyCode {
        newAmount := transfer.amount;
      } else {
        var converted := Currencies.Convert(transfer.amount, from.currencyCode, to.currencyCode, rates);
        if converted.Err? {
          return Err(converted.error);
        }
        newAmount := converted.value;
      }
      if from.userId != to.userId {
        newAmount := newAmount - Commission(newAmount, from, to);
      }
      assert Credit(from, to, transfer.amount, rates) == Ok(newAmount);
      r := Ok(Settlement(from.(amount := from.amount - transfer.amount), to.(amount := to.amount + newAmount), transfer));
    }

    /** Lines 150-158: both account updates and the transfer are recorded,
        then committed by one `SaveChanges`. */
    method CommitTransfer(s: Settlement, recorded: Transfer)
      modifies uow
      ensures uow.db == ApplyAll(old(uow.db), old(uow.pending) + TransferWrites(s, recorded))
      ensures uow.pending == [] && uow.saves == old(uow.saves) + 1
    {
      uow.Record(AccountUpdated(s.from));
      uow.Record(AccountUpdated(s.to));
      uow.Record(TransferCreated(recorded));
      assert uow.pending == old(uow.pending) + TransferWrites(s, recorded);
      uow.SaveChanges();
    }

    /** Returns the transfer as the caller's object is left: rounded, in the
        sender's currency, with the new id and date. */
    method MakeTransfer(t: Transfer, newId: string, now: DateTime) returns (r: Result<Transfer, Error>)
      modifies uow
      ensures var o := Outcome(old(uow.db), t, rates);
              o.Err? ==> r == Err(o.error) && unchanged(uow)
      ensures var o := Outcome(old(uow.db), t, rates);
              o.Ok? ==> r == Ok(o.value.transfer.(id := newId, transferDateTime := now))
                        && uow.db == ApplyAll(old(uow.db), old(uow.pending) + TransferWrites(o.value, r.value))
                        && uow.pending == [] && uow.saves == old(uow.saves) + 1
      ensures old(uow.pending) == [] && Consistent(old(uow.db)) && OwnersExist(old(uow.db)) ==> OwnersExist(uow.db)
    {
      var failures := TransferValidation.Validate(t);
      if failures != [] {
        return Err(InvalidFields(failures));
      }
      var fromFound := FindAccount(uow.db, t.fromAccountId);
      if fromFound.Err? {
        return Err(fromFound.error);
      }
      var toFound := FindAccount(uow.db, t.toAccountId);
      if toFound.Err? {
        return Err(toFound.error);
      }
      var outcome := SettleAccounts(fromFound.value, toFound.value, t);
      assert outcome == Outcome(uow.db, t, rates);
      if outcome.Err? {
        return Err(outcome.error);
      }
      var recorded := outcome.value.transfer.(id := newId, transferDateTime := now);
      ghost var before := uow.db;
      CommitTransfer(outcome.value, recorded);
      r := Ok(recorded);
      if old(uow.pending) == [] && Consistent(before) && OwnersExist(before) {
        assert old(uow.pending) + TransferWrites(outcome.value, recorded) == TransferWrites(outcome.value, recorded);
        TransferKeepsOwners(before, t, rates, recorded);
      }
    }
  }
}

/** `src/MiniBank.Core/Users/Services/UserService.cs`, the newer revision:
    users are validated with the "create" or "update" rule set, deleting is
    refused while any account names the user, and every change is
    committed by `SaveChanges`. */
module Users {
  import opened Wrappers
  import opened Entities
  import opened Errors
  import opened Persistence
  import UserValidation

  class UserService {
    const uow: UnitOfWork

    constructor (uow: UnitOfWork)
      ensures this.uow == uow
    {
      this.uow := uow;
    }

    method GetById(id: string) returns (r: Result<User, Error>)
      ensures r.Ok? <==> id in uow.db.users
      ensures r.Err? ==> r.error == UserNotFound(id)
      ensures r.Ok? ==> r.value == uow.db.users[id]
    {
      r := FindUser(uow.db, id);
    }

    /** Returns the user as the caller's object is left: with the new id. */
    method Create(user: User, newId: string) returns (r: Result<User, Error>)
      modifies uow
      ensures UserValidation.ValidateCreate(user) != [] ==>
                r == Err(InvalidFields(UserValidation.ValidateCreate(user))) && unchanged(uow)
      ensures UserValidation.ValidateCreate(user) == [] ==>
                r == Ok(user.(id := newId))
                && uow.db == ApplyAll(old(uow.db), old(uow.pending) + [UserCreated(r.value)])
                && uow.pending == [] && uow.saves == old(uow.saves) + 1
      ensures old(uow.pending) == [] && OwnersExist(old(uow.db)) ==> OwnersExist(uow.db)
      ensures old(uow.pending) == [] && r.Ok? ==> newId in uow.db.users
    {
      var failures := UserValidation.ValidateCreate(user);
      if failures != [] {
        return Err(InvalidFields(failures));
      }
      var created := user.(id := newId);
      uow.Record(UserCreated(created));
      ghost var before := uow.db;
      uow.SaveChanges();
      r := Ok(created);
      if old(uow.pending) == [] {
        assert old(uow.pending) + [UserCreated(created)] == [UserCreated(created)];
        ApplyAllOne(before, UserCreated(created));
        if OwnersExist(before) {
          ApplyKeepsOwners(before, UserCreated(created));
        }
      }
    }

    /** A stored user is replaced by the given one; a user has no fields
        besides its id, login and e-mail. */
    method Update(user: User) returns (r: Result<(), Error>)
      modifies uow
      ensures UserValidation.ValidateUpdate(user) != [] ==>
                r == Err(InvalidFields(UserValidation.ValidateUpdate(user))) && unchanged(uow)
      ensures UserValidation.ValidateUpdate(user) == [] && user.id !in old(uow.db.users) ==>
                r == Err(UserNotFound(user.id)) && unchanged(uow)
      ensures UserValidation.ValidateUpdate(user) == [] && user.id in old(uow.db.users) ==>
                r == Ok(())
                && uow.db == ApplyAll(old(uow.db), old(uow.pending) + [UserUpdated(user)])
                && uow.pending == [] && uow.saves == old(uow.saves) + 1
      ensures old(uow.pending) == [] && OwnersExist(old(uow.db)) ==> OwnersExist(uow.db)
    {
      var failures := UserValidation.ValidateUpdate(user);
      if failures != [] {
        return Err(InvalidFields(failures));
      }
      if user.id !in uow.db.users {
        return Err(UserNotFound(user.id));
      }
      uow.Record(UserUpdated(user));
      ghost var before := uow.db;
      uow.SaveChanges();
      r := Ok(());
      if old(uow.pending) == [] {
        assert old(uow.pending) + [UserUpdated(user)] == [UserUpdated(user)];
        ApplyAllOne(before, UserUpdated(user));
        if OwnersExist(before) {
          ApplyKeepsOwners(before, UserUpdated(user));
        }
      }
    }

    method DeleteById(id: string) returns (r: Result<(), Error>)
      modifies uow
      ensures HasAccounts(old(uow.db), id) ==> r == Err(DeletingUserHasAccounts) && unchanged(uow)
      ensures !HasAccounts(old(uow.db), id) && id !in old(uow.db.users) ==>
                r == Err(UserNotFound(id)) && unchanged(uow)
      ensures !HasAccounts(old(uow.db), id) && id in old(uow.db.users) ==>
                r == Ok(())
                && uow.db == ApplyAll(old(uow.db), old(uow.pending) + [UserDeleted(id)])
                && uow.pending == [] && uow.saves == old(uow.saves) + 1
      ensures old(uow.pending) == [] && OwnersExist(old(uow.db)) ==> OwnersExist(uow.db)
      ensures old(uow.pending) == [] && r.Ok? ==> id !in uow.db.users
    {
      if HasAccounts(uow.db, id) {
        return Err(DeletingUserHasAccounts);
      }
      if id !in uow.db.users {
        return Err(UserNotFound(id));
      }
      uow.Record(UserDeleted(id));
      ghost var before := uow.db;
      uow.SaveChanges();
      r := Ok(());
      if old(uow.pending) == [] {
        assert old(uow.pending) + [UserDeleted(id)] == [UserDeleted(id)];
        ApplyAllOne(before, UserDeleted(id));
        if OwnersExist(before) {
          ApplyKeepsOwners(before, UserDeleted(id));
        }
      }
    }
  }
}
