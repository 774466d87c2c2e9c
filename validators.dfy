/** `src/MiniBank.Core/Transfers/Validators/TransferValidator.cs`: the amount
    must not be negative and both account ids must be non-empty. Each rule
    reports its property at most once (the Stop cascade), and the rules are
    independent of each other. */
module TransferValidation {
  import opened Entities
  import opened Errors
  import opened Text

  function AmountRule(t: Transfer): seq<ValidationFailure> {
    if t.amount >= 0.0 then [] else [ValidationFailure("Amount", GreaterThanOrEqualValidator)]
  }

  function IdRule(propertyName: string, id: string): seq<ValidationFailure> {
    if NotEmpty(id) then [] else [ValidationFailure(propertyName, NotEmptyValidator)]
  }

  /** The failures of `ValidateAsync`, in rule order; empty when the transfer
      is valid. */
  function Validate(t: Transfer): (failures: seq<ValidationFailure>)
    ensures failures == [] <==> t.amount >= 0.0 && NotEmpty(t.fromAccountId) && NotEmpty(t.toAccountId)
    ensures ValidationFailure("Amount", GreaterThanOrEqualValidator) in failures <==> t.amount < 0.0
    ensures ValidationFailure("FromAccountId", NotEmptyValidator) in failures <==> !NotEmpty(t.fromAccountId)
    ensures ValidationFailure("ToAccountId", NotEmptyValidator) in failures <==> !NotEmpty(t.toAccountId)
    ensures forall f :: f in failures ==> f.propertyName in {"Amount", "FromAccountId", "ToAccountId"}
    ensures forall i, j :: 0 <= i < j < |failures| ==> failures[i].propertyName != failures[j].propertyName
  {
    AmountRule(t) + IdRule("FromAccountId", t.fromAccountId) + IdRule("ToAccountId", t.toAccountId)
  }

  /** Two blank ids and a valid amount give exactly one failure per id, in
      declaration order. */
  lemma BothIdsBlank(t: Transfer)
    requires t.amount >= 0.0 && IsBlank(t.fromAccountId) && IsBlank(t.toAccountId)
    ensures Validate(t) == [ValidationFailure("FromAccountId", NotEmptyValidator), ValidationFailure("ToAccountId", NotEmptyValidator)]
  {
  }

  /** A zero amount passes the amount rule. */
  lemma ZeroAmountPasses(t: Transfer)
    requires t.amount == 0.0
    ensures ValidationFailure("Amount", GreaterThanOrEqualValidator) !in Validate(t)
  {
  }
}

/** `MiniBank.Core/BankAccounts/Validators/BankAccountValidator.cs`: the amount
    must not be negative; the user id must be non-empty and, only then, name
    an existing user. The existence query is a parameter. */
module BankAccountValidation {
  import opened Entities
  import opened Errors
  import opened Text

  function UserMissingMessage(userId: string): string {
    "User with id '" + userId + "' doesn't exist"
  }

  function UserIdRule(userId: string, userExists: string -> bool): seq<ValidationFailure> {
    if !NotEmpty(userId) then [ValidationFailure("UserId", NotEmptyValidator)]
    else if !userExists(userId) then [ValidationFailure("UserId", PredicateValidator(UserMissingMessage(userId)))]
    else []
  }

  function Validate(account: BankAccount, userExists: string -> bool): (failures: seq<ValidationFailure>)
    ensures failures == [] <==> account.amount >= 0.0 && NotEmpty(account.userId) && userExists(account.userId)
    ensures ValidationFailure("Amount", GreaterThanOrEqualValidator) in failures <==> account.amount < 0.0
    ensures ValidationFailure("UserId", NotEmptyValidator) in failures <==> !NotEmpty(account.userId)
    ensures (ValidationFailure("UserId", PredicateValidator(UserMissingMessage(account.userId))) in failures)
            <==> NotEmpty(account.userId) && !userExists(account.userId)
    ensures forall f :: f in failures ==> f.propertyName in {"Amount", "UserId"}
    ensures forall i, j :: 0 <= i < j < |failures| ==> failures[i].propertyName != failures[j].propertyName
  {
    (if account.amount >= 0.0 then [] else [ValidationFailure("Amount", GreaterThanOrEqualValidator)])
    + UserIdRule(account.userId, userExists)
  }

  /** The Stop cascade: a blank user id is reported without asking whether
      such a user exists. */
  lemma ExistenceNotConsultedWhenBlank(account: BankAccount, p: string -> bool, q: string -> bool)
    requires !NotEmpty(account.userId)
    ensures Validate(account, p) == Validate(account, q)
  {
  }

  /** Only the existence of the account's own user is consulted. */
  lemma ConsultsOnlyOwnUser(account: BankAccount, p: string -> bool, q: string -> bool)
    requires p(account.userId) == q(account.userId)
    ensures Validate(account, p) == Validate(account, q)
  {
  }
}

/** `MiniBank.Core/Users/Validators/UserValidator.cs`: the "create" rule set
    needs a login and an e-mail; the "update" rule set needs an id as well. */
module UserValidation {
  import opened Entities
  import opened Errors
  import opened Text

  function NotEmptyRule(propertyName: string, value: string): seq<ValidationFailure> {
    if NotEmpty(value) then [] else [ValidationFailure(propertyName, NotEmptyValidator)]
  }

  function ValidateCreate(u: User): (failures: seq<ValidationFailure>)
    ensures failures == [] <==> NotEmpty(u.login) && NotEmpty(u.email)
    ensures forall f :: f in failures ==> f.rule == NotEmptyValidator && f.propertyName in {"Login", "Email"}
    ensures ValidationFailure("Login", NotEmptyValidator) in failures <==> !NotEmpty(u.login)
    ensures ValidationFailure("Email", NotEmptyValidator) in failures <==> !NotEmpty(u.email)
  {
    NotEmptyRule("Login", u.login) + NotEmptyRule("Email", u.email)
  }

  function ValidateUpdate(u: User): (failures: seq<ValidationFailure>)
    ensures failures == [] <==> NotEmpty(u.id) && NotEmpty(u.login) && NotEmpty(u.email)
    ensures forall f :: f in failures ==> f.rule == NotEmptyValidator && f.propertyName in {"Id", "Login", "Email"}
    ensures ValidationFailure("Id", NotEmptyValidator) in failures <==> !NotEmpty(u.id)
    ensures ValidationFailure("Login", NotEmptyValidator) in failures <==> !NotEmpty(u.login)
    ensures ValidationFailure("Email", NotEmptyValidator) in failures <==> !NotEmpty(u.email)
  {
    NotEmptyRule("Id", u.id) + NotEmptyRule("Login", u.login) + NotEmptyRule("Email", u.email)
  }

  /** The "create" rule set does not look at the id. */
  lemma CreateIgnoresId(u: User, id: string)
    ensures ValidateCreate(u.(id := id)) == ValidateCreate(u)
  {
  }

  /** Every user the "update" rule set accepts, the "create" rule set
      accepts too; the "update" failures are those of "create" plus at most
      the id. */
  lemma UpdateValidImpliesCreateValid(u: User)
    ensures ValidateUpdate(u) == [] ==> ValidateCreate(u) == []
    ensures forall f :: f in ValidateCreate(u) ==> f in ValidateUpdate(u)
  {
  }
}
