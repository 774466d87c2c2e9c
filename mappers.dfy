/** Field-for-field copies between core entities and storage records
    (`BankAccountsMappers`, `TransferMappers`, `UserMappers`). */
module BankAccountMappers {
  import opened Entities
  import opened DbModels

  function ToModel(m: BankAccountDbModel): (a: BankAccount)
    ensures a.id == m.id && a.userId == m.userId && a.amount == m.amount
    ensures a.currencyCode == m.currencyCode && a.isClosed == m.isClosed
    ensures a.openingDate == m.openingDate && a.closingDate == m.closingDate
  {
    BankAccount(m.id, m.userId, m.amount, m.currencyCode, m.isClosed, m.openingDate, m.closingDate)
  }

  function ToDbModel(a: BankAccount): (m: BankAccountDbModel)
    ensures m.id == a.id && m.userId == a.userId && m.amount == a.amount
    ensures m.currencyCode == a.currencyCode && m.isClosed == a.isClosed
    ensures m.openingDate == a.openingDate && m.closingDate == a.closingDate
  {
    BankAccountDbModel(a.id, a.userId, a.amount, a.currencyCode, a.isClosed, a.openingDate, a.closingDate)
  }

  lemma ModelRoundTrip(a: BankAccount)
    ensures ToModel(ToDbModel(a)) == a
  {
  }

  lemma DbModelRoundTrip(m: BankAccountDbModel)
    ensures ToDbModel(ToModel(m)) == m
  {
  }
}

module TransferMappers {
  import opened Entities
  import opened DbModels

  function ToModel(m: TransferDbModel): (t: Transfer)
    ensures t.id == m.id && t.amount == m.amount && t.currencyCode == m.currencyCode
    ensures t.fromAccountId == m.fromAccountId && t.toAccountId == m.toAccountId
    ensures t.transferDateTime == m.transferDateTime
  {
    Transfer(m.id, m.amount, m.currencyCode, m.fromAccountId, m.toAccountId, m.transferDateTime)
  }

  function ToDbModel(t: Transfer): (m: TransferDbModel)
    ensures m.id == t.id && m.amount == t.amount && m.currencyCode == t.currencyCode
    ensures m.fromAccountId == t.fromAccountId && m.toAccountId == t.toAccountId
    ensures m.transferDateTime == t.transferDateTime
  {
    TransferDbModel(t.id, t.amount, t.currencyCode, t.fromAccountId, t.toAccountId, t.transferDateTime)
  }

  lemma ModelRoundTrip(t: Transfer)
    ensures ToModel(ToDbModel(t)) == t
  {
  }

  lemma DbModelRoundTrip(m: TransferDbModel)
    ensures ToDbModel(ToModel(m)) == m
  {
  }
}

module UserMappers {
  import opened Entities
  import opened DbModels

  function ToModel(m: UserDbModel): (u: User)
    ensures u.id == m.id && u.login == m.login && u.email == m.email
  {
    User(m.id, m.login, m.email)
  }

  function ToDbModel(u: User): (m: UserDbModel)
    ensures m.id == u.id && m.login == u.login && m.email == u.email
  {
    UserDbModel(u.id, u.login, u.email)
  }

  lemma ModelRoundTrip(u: User)
    ensures ToModel(ToDbModel(u)) == u
  {
  }

  lemma DbModelRoundTrip(m: UserDbModel)
    ensures ToDbModel(ToModel(m)) == m
  {
  }
}
