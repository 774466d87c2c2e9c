/** The rules on a single account that both revisions of
    `BankAccountService` share: when an account may be closed and what
    closing changes, and the shape of a settled transfer. */
module AccountRules {
  import opened Wrappers
  import opened Entities
  import opened Errors
  import opened Money

  /** `CloseById` after the account has been read: an already closed account
      is reported first, then any balance other than exactly zero. */
  function Close(a: BankAccount, now: DateTime): (r: Result<BankAccount, Error>)
    ensures a.isClosed ==> r == Err(ClosingAccountAlreadyClosed)
    ensures !a.isClosed && a.amount != 0.0 ==> r == Err(ClosingAccountHasMoney)
    ensures r.Ok? <==> !a.isClosed && a.amount == 0.0
    ensures r.Ok? ==> r.value.isClosed && r.value.closingDate == Some(now)
    ensures r.Ok? ==> r.value.(isClosed := a.isClosed, closingDate := a.closingDate) == a
  {
    if a.isClosed then Err(ClosingAccountAlreadyClosed)
    else if a.amount != 0.0 then Err(ClosingAccountHasMoney)
    else Ok(a.(closingDate := Some(now), isClosed := true))
  }

  /** The commission on `amount` between two accounts: nothing between
      accounts of one user, otherwise 2% rounded to cents. */
  function Commission(amount: real, from: BankAccount, to: BankAccount): (c: real)
    ensures from.userId == to.userId ==> c == 0.0
    ensures from.userId != to.userId ==> c == Round2(amount * CommissionPercent)
    ensures from.userId != to.userId ==>
              IsCents(c) && amount * CommissionPercent - 0.005 <= c <= amount * CommissionPercent + 0.005
    ensures IsCents(c)
    ensures amount >= 0.0 ==> c >= 0.0
  {
    if from.userId == to.userId then 0.0
    else
      Round2NonNegative(if amount >= 0.0 then amount * CommissionPercent else 0.0);
      Round2(amount * CommissionPercent)
  }

  /** A closed account cannot be closed again, whatever the time. */
  lemma CloseIsFinal(a: BankAccount, now: DateTime, later: DateTime)
    requires Close(a, now).Ok?
    ensures Close(Close(a, now).value, later) == Err(ClosingAccountAlreadyClosed)
  {
  }

  /** The two accounts after a transfer, and the transfer as recorded. */
  datatype Settlement = Settlement(from: BankAccount, to: BankAccount, transfer: Transfer)
}
