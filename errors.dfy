/** The failures the code raises, as values. */
module Errors {

  /** The FluentValidation rules the validators use, by their error codes;
      a `Must` rule carries its custom message. */
  datatype Rule = GreaterThanOrEqualValidator | NotEmptyValidator | PredicateValidator(message: string)

  datatype ValidationFailure = ValidationFailure(propertyName: string, rule: Rule)

  datatype Error =
    /** `MiniBank.Core.Exceptions.ValidationException` with its message. */
    | Validation(message: string)
    /** `FluentValidation.ValidationException` with the failed rules, in rule order. */
    | InvalidFields(failures: seq<ValidationFailure>)
    /** `MiniBank.Core.Exceptions.UserFriendlyException` with its message. */
    | UserFriendly(message: string)
    /** `DivideByZeroException` of an integer division. */
    | DivideByZero
    /** A `double` division by a zero rate, which yields infinity or NaN. */
    | NotFinite
    /** The exchange-rate source failed. */
    | RateUnavailable

  const SenderAccountIsClosed: Error := Validation("Sender account is closed")
  const BeneficiaryAccountIsClosed: Error := Validation("Beneficiary's account is closed")
  const SenderDontHaveEnoughMoney: Error := Validation("Insufficient funds on the sender's account")
  const ClosingAccountHasMoney: Error := Validation("Can't close an account that has money in it")
  const ClosingAccountAlreadyClosed: Error := Validation("Account already closed")
  const DeletingUserHasAccounts: Error := Validation("The user has linked accounts")

  /** Raised by neither revision: how the corrected transfer definitions
      refuse a transfer from an account to itself. */
  const SameAccountTransfer: Error := Validation("Sender and beneficiary accounts are the same")

  const AmountMustBePositive: string := "Amount must be positive"

  function AccountNotFound(id: string): Error {
    Validation("Account with id " + id + " doesn't exist")
  }

  function UserNotFound(id: string): Error {
    Validation("User with id " + id + " doesn't exist")
  }

  function TransferNotFound(id: string): Error {
    Validation("Transfer with id " + id + " doesn't exist")
  }
}
