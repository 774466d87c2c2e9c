/** The core entities (`MiniBank.Core`) and the storage records
    (`MiniBank.Data`), as values. Both have the same fields. */
module Entities {
  import opened Wrappers

  /** The currency enum of the account services; the integer converters use
      plain strings. */
  type CurrencyCode = string

  /** A point in time, as the tick count of a `DateTime`. */
  type DateTime = int

  datatype BankAccount = BankAccount(
    id: string,
    userId: string,
    amount: real,
    currencyCode: CurrencyCode,
    isClosed: bool,
    openingDate: DateTime,
    closingDate: Option<DateTime>)

  datatype Transfer = Transfer(
    id: string,
    amount: real,
    currencyCode: CurrencyCode,
    fromAccountId: string,
    toAccountId: string,
    transferDateTime: DateTime)

  datatype User = User(id: string, login: string, email: string)
}

module DbModels {
  import opened Wrappers
  import opened Entities

  datatype BankAccountDbModel = BankAccountDbModel(
    id: string,
    userId: string,
    amount: real,
    currencyCode: CurrencyCode,
    isClosed: bool,
    openingDate: DateTime,
    closingDate: Option<DateTime>)

  datatype TransferDbModel = TransferDbModel(
    id: string,
    amount: real,
    currencyCode: CurrencyCode,
    fromAccountId: string,
    toAccountId: string,
    transferDateTime: DateTime)

  datatype UserDbModel = UserDbModel(id: string, login: string, email: string)
}
