# MiniBank core in Dafny

MiniBank is a small banking back end. Users own bank accounts. An account
holds an amount in one currency and can be opened and closed. Money moves
between accounts by transfers. A transfer between accounts of different
owners pays a 2% commission. A transfer between currencies goes through a
currency converter fed by an exchange-rate source.

The repository has two revisions of the core, and both are modelled:

- **The older revision** (`MiniBank.Core`, `MiniBank.Data`):
  - services over in-memory repositories, each a static list of database
    records;
  - no validators;
  - a converter that divides by the rate;
  - a cross-owner credit of 98% of the amount, rounded.
- **The newer revision** (`src/`):
  - services over repositories and a unit of work (`IUnitOfWork`);
  - FluentValidation validators for transfers, accounts and users;
  - a converter that multiplies by the rate;
  - amounts rounded to cents before they move;
  - a cross-owner credit equal to the converted amount less its commission.

The project is organised by module:

| file | modules | what it models |
|---|---|---|
| `wrappers.dfy` | `Wrappers` | `Option` and `Result` |
| `money.dfy` | `Money` | exact amounts; `Math.Round(x, 2)` as round-half-to-even on `real` |
| `text.dfy` | `Text` | the string rule of FluentValidation's `NotEmpty()` |
| `entities.dfy` | `Entities`, `DbModels` | the domain records and the database records, as datatypes |
| `errors.dfy` | `Errors` | the exceptions, with their messages, as values |
| `mappers.dfy` | one module per mapper | the record mappers |
| `lists.dfy` | `Lists` | `List.Find` (the first match), `Any` and removal at an index |
| `converters.dfy` | `Currencies`, `LegacyCurrencies`, `IntegerConverters` | the four converters |
| `validators.dfy` | three validator modules | the transfer, account and user validators |
| `in_memory_repositories.dfy` | one module per repository | the older revision's repositories: classes over a `seq`, changed in place |
| `account_rules.dfy` | `AccountRules` | closing an account and the commission, which both revisions share |
| `legacy_services.dfy` | `LegacyBankAccounts`, `LegacyUsers` | the older revision's services |
| `persistence.dfy` | `Persistence` | the newer revision's storage and unit of work |
| `services.dfy` | `BankAccounts`, `Users` | the newer revision's services |

Each service is a class over the repository objects or the unit of work it
is given. Each service method is proved against specification functions,
such as `Settle` and `Outcome` for a transfer and `ApplyAll` for a commit.
Lemmas prove properties of those functions:

- validation and guard order;
- conservation between accounts of one owner;
- bounds on the credit;
- whole-cents balances staying whole cents;
- every account keeping an existing owner;
- the test suite's examples;
- the behaviours where the two revisions differ;
- four defects of the code, each with a corrected definition (see Findings).

## Model

| member | source | states |
|---|---|---|
| Money.Round2 | src/MiniBank.Core/BankAccounts/Services/BankAccountService.cs:133 | the rounded amount is a whole number of cents, at most half a cent from the input, and at a midpoint the even number of cents (`Math.Round`'s default) |
| Money.Round2Unique | src/MiniBank.Core/BankAccounts/Services/BankAccountService.cs:133 | those three properties determine the result: any amount that has them is `Round2(x)` |
| Money.Round2Monotonic | src/MiniBank.Core/BankAccounts/Services/BankAccountService.cs:133 | rounding to cents preserves order |
| Money.Round2OfCents | src/MiniBank.Core/BankAccounts/Services/BankAccountService.cs:133 | an amount in whole cents is left unchanged by rounding |
| Money.Round2Idempotent | src/MiniBank.Core/BankAccounts/Services/BankAccountService.cs:133 | rounding twice is rounding once |
| Money.Round2NonNegative | src/MiniBank.Core/BankAccounts/Services/BankAccountService.cs:48 | a non-negative amount rounds to a non-negative amount |
| Money.Round2OfLessThanHalfCent | src/MiniBank.Core/BankAccounts/Services/BankAccountService.cs:48 | a non-negative amount under half a cent rounds to zero |
| Money.CentsClosed | src/MiniBank.Core/BankAccounts/Services/BankAccountService.cs:147-148 | sums and differences of whole-cents amounts are whole cents |
| Money.Round2Example | src/Tests/MiniBank.Core.Tests/BankAccountTests.cs:1037-1078 | 10.123 rounds to 10.12 |
| Text.NotEmptyExamples | src/Tests/MiniBank.Core.Tests/BankAccountTests.cs:416-418 | "" and " " fail `NotEmpty()`; an ordinary identifier passes it |
| BankAccountMappers.ToModel | MiniBank.Data/BankAccounts/Mappers/BankAccountsMappers.cs:7-19 | every field of the database record is copied into the account |
| BankAccountMappers.ToDbModel | MiniBank.Data/BankAccounts/Mappers/BankAccountsMappers.cs:21-33 | every field of the account is copied into the database record |
| BankAccountMappers.ModelRoundTrip | MiniBank.Data/BankAccounts/Mappers/BankAccountsMappers.cs:7-33 | mapping an account to a record and back gives the same account |
| BankAccountMappers.DbModelRoundTrip | MiniBank.Data/BankAccounts/Mappers/BankAccountsMappers.cs:7-33 | mapping a record to an account and back gives the same record |
| TransferMappers.ToModel | src/MiniBank.Data/Transfers/Mappers/TransferMappers.cs:7-18 | every field of the database record is copied into the transfer |
| TransferMappers.ToDbModel | src/MiniBank.Data/Transfers/Mappers/TransferMappers.cs:20-31 | every field of the transfer is copied into the database record |
| TransferMappers.ModelRoundTrip | src/MiniBank.Data/Transfers/Mappers/TransferMappers.cs:7-31 | mapping a transfer to a record and back gives the same transfer |
| TransferMappers.DbModelRoundTrip | src/MiniBank.Data/Transfers/Mappers/TransferMappers.cs:7-31 | mapping a record to a transfer and back gives the same record |
| UserMappers.ToModel | src/MiniBank.Data/Users/Mappers/UserMappers.cs:7-15 | id, login and e-mail are copied into the user |
| UserMappers.ToDbModel | src/MiniBank.Data/Users/Mappers/UserMappers.cs:17-25 | id, login and e-mail are copied into the database record |
| UserMappers.ModelRoundTrip | src/MiniBank.Data/Users/Mappers/UserMappers.cs:7-25 | mapping a user to a record and back gives the same user |
| UserMappers.DbModelRoundTrip | src/MiniBank.Data/Users/Mappers/UserMappers.cs:7-25 | mapping a record to a user and back gives the same record |
| Lists.FindFirst | MiniBank.Data/BankAccounts/Repositories/BankAccountRepository.cs:16 | `Find` returns the first element matching the predicate, and none when no element matches |
| Lists.AnyIffFound | MiniBank.Data/Users/Repositories/UserRepository.cs:16 | `Any` holds exactly when `Find` finds an element |
| Lists.FindFirstAppend | MiniBank.Data/BankAccounts/Repositories/BankAccountRepository.cs:31-34 | after an element is appended, `Find` still gives the earlier match, or else the new element when it matches |
| Lists.RemoveAt | MiniBank.Data/Users/Repositories/UserRepository.cs:63 | `Remove` drops exactly one element and keeps the order of the rest |
| Lists.FindFirstAfterRemoval | MiniBank.Data/Users/Repositories/UserRepository.cs:63 | removing an element that does not match leaves the later matches shifted down by one |
| Currencies.Convert | src/MiniBank.Core/Currencies/CurrencyConverter.cs:19-35 | a negative amount alone fails with "Amount must be positive"; a missing rate fails; otherwise the result is `Math.Round(amount * rate, 2)` for the rate of the ordered pair, in whole cents and non-negative at a non-negative rate |
| Currencies.AtRate | src/MiniBank.Core/Currencies/CurrencyConverter.cs:28 | the result is whole cents, within half a cent of amount × rate |
| Currencies.AtRateNonNegative | src/MiniBank.Core/Currencies/CurrencyConverter.cs:28 | a non-negative amount at a non-negative rate converts to a non-negative amount |
| Currencies.GuardPrecedesProvider | src/MiniBank.Core/Currencies/CurrencyConverter.cs:21-26 | for a negative amount the result does not depend on the rate source: the source is not consulted before the guard |
| Currencies.UsesOrderedPair | src/MiniBank.Core/Currencies/CurrencyConverter.cs:26 | only the rate for the pair (from, to) affects the result |
| Currencies.UnitRateKeepsCents | src/MiniBank.Core/Currencies/CurrencyConverter.cs:28 | at rate 1 a whole-cents amount converts to itself |
| LegacyCurrencies.Convert | MiniBank.Core/Currencies/CurrencyConverter.cs:15-25 | a negative amount alone fails; a missing rate fails; a zero rate fails as non-finite; otherwise the result is `Math.Round(amount / rate, 2)` |
| LegacyCurrencies.AtRate | MiniBank.Core/Currencies/CurrencyConverter.cs:24 | the result is whole cents, within half a cent of amount ÷ rate |
| LegacyCurrencies.AtRateNonNegative | MiniBank.Core/Currencies/CurrencyConverter.cs:24 | a non-negative amount at a positive rate converts to a non-negative amount |
| LegacyCurrencies.DividesWhereSrcMultiplies | MiniBank.Core/Currencies/CurrencyConverter.cs:22-24 | the older converter gives the newer converter's answer when fed the reciprocal rate |
| LegacyCurrencies.ReciprocalRate | MiniBank.Core/Currencies/CurrencyConverter.cs:24 | dividing by a rate and multiplying by its inverse give the same rounded amount |
| IntegerConverters.TruncatingDivIsQuotient | MiniBank.Core/CurrencyConverter.cs:21 | C#'s integer division of a non-negative amount by a positive rate gives the whole number of times the rate fits, so the result lies between zero and the amount |
| IntegerConverters.Convert | MiniBank.Core/CurrencyConverter.cs:15-21 | a negative amount alone fails with a user-friendly error; a zero rate fails by division by zero; otherwise the result is the quotient truncated toward zero, bounded by the amount |
| IntegerConverters.RublesConvert | MiniBank.Core/RublesCoverter.cs:15-21 | the same as `Convert`, with the rate keyed by one currency code |
| IntegerConverters.ZeroAmount | MiniBank.Core/CurrencyConverter.cs:15-21 | zero converts to zero at every non-zero rate |
| IntegerConverters.StubRates | MiniBank.Data/CurrencyRateProvider.cs:10-13 | with the random stub's rates in [0, 100), a conversion succeeds exactly when the amount is non-negative and the rate is non-zero, and the result then lies in [0, amount] |
| IntegerConverters.RublesIsPairWithSourceKey | MiniBank.Core/RublesCoverter.cs:15-21 | the rubles converter is the pair converter with the rate looked up by the source code alone |
| TransferValidation.Validate | src/MiniBank.Core/Transfers/Validators/TransferValidator.cs:9-18 | there are no failures exactly when the amount is ≥ 0 and both ids are non-blank; each failure is present exactly when its rule fails; at most one failure per property |
| TransferValidation.BothIdsBlank | src/MiniBank.Core/Transfers/Validators/TransferValidator.cs:12-18 | two blank ids give exactly the two `NotEmpty` failures, in declaration order |
| TransferValidation.ZeroAmountPasses | src/MiniBank.Core/Transfers/Validators/TransferValidator.cs:9-10 | a zero amount passes the amount rule |
| BankAccountValidation.Validate | MiniBank.Core/BankAccounts/Validators/BankAccountValidator.cs:10-17 | there are no failures exactly when the amount is ≥ 0, the user id is non-blank and the user exists; the existence failure carries the message naming the id; at most one failure per property |
| BankAccountValidation.ExistenceNotConsultedWhenBlank | MiniBank.Core/BankAccounts/Validators/BankAccountValidator.cs:13-16 | under the Stop cascade, user existence is not consulted when the id is blank |
| BankAccountValidation.ConsultsOnlyOwnUser | MiniBank.Core/BankAccounts/Validators/BankAccountValidator.cs:16 | only the existence of the account's own user matters |
| UserValidation.ValidateCreate | MiniBank.Core/Users/Validators/UserValidator.cs:9-13 | there are no failures exactly when login and e-mail are non-blank; each failure is present exactly when its rule fails |
| UserValidation.ValidateUpdate | MiniBank.Core/Users/Validators/UserValidator.cs:15-20 | the same as create, with the id also required |
| UserValidation.CreateIgnoresId | MiniBank.Core/Users/Validators/UserValidator.cs:9-13 | the "create" rule set does not look at the id |
| UserValidation.UpdateValidImpliesCreateValid | MiniBank.Core/Users/Validators/UserValidator.cs:9-20 | every "create" failure is also an "update" failure |
| InMemoryBankAccounts.Lookup | MiniBank.Data/BankAccounts/Repositories/BankAccountRepository.cs:14-24 | the first record with the id, mapped; "Account with id … doesn't exist" exactly when no record has the id |
| InMemoryBankAccounts.Overwrite | MiniBank.Data/BankAccounts/Repositories/BankAccountRepository.cs:45-50 | the updated record keeps its id and otherwise holds the given account's fields |
| InMemoryBankAccounts.Overwritten | MiniBank.Data/BankAccounts/Repositories/BankAccountRepository.cs:36-51 | only the first record with the id changes; a missing id changes nothing; the length and all ids are kept |
| InMemoryBankAccounts.LookupAfterOverwrite | MiniBank.Data/BankAccounts/Repositories/BankAccountRepository.cs:36-51 | after `Update(a)`, `GetById(a.id)` returns `a` when the id was stored |
| InMemoryBankAccounts.OverwriteKeepsOthers | MiniBank.Data/BankAccounts/Repositories/BankAccountRepository.cs:36-51 | `Update(a)` changes no other id's `GetById` |
| InMemoryBankAccounts.AppendedDuplicateIsShadowed | MiniBank.Data/BankAccounts/Repositories/BankAccountRepository.cs:31-34 | `Create` does not reject duplicates, and a duplicate id is shadowed by the earlier record |
| InMemoryBankAccounts.CreatedIsFound | MiniBank.Data/BankAccounts/Repositories/BankAccountRepository.cs:31-34 | after `Create(a)` with a new id, `GetById` returns `a` |
| InMemoryBankAccounts.BankAccountRepository.constructor | MiniBank.Data/BankAccounts/Repositories/BankAccountRepository.cs:12 | the storage starts empty |
| InMemoryBankAccounts.BankAccountRepository.GetById | MiniBank.Data/BankAccounts/Repositories/BankAccountRepository.cs:14-24 | answers `Lookup` on the stored list |
| InMemoryBankAccounts.BankAccountRepository.GetAll | MiniBank.Data/BankAccounts/Repositories/BankAccountRepository.cs:26-29 | every stored record, mapped, in order |
| InMemoryBankAccounts.BankAccountRepository.Create | MiniBank.Data/BankAccounts/Repositories/BankAccountRepository.cs:31-34 | appends the mapped account |
| InMemoryBankAccounts.BankAccountRepository.Update | MiniBank.Data/BankAccounts/Repositories/BankAccountRepository.cs:36-51 | fails exactly when the id is missing; the storage becomes `Overwritten` |
| InMemoryBankAccounts.BankAccountRepository.ExistsAccountsForUserById | MiniBank.Data/BankAccounts/Repositories/BankAccountRepository.cs:53-56 | true exactly when some account, closed or not, names the user |
| InMemoryUsers.Lookup | MiniBank.Data/Users/Repositories/UserRepository.cs:19-29 | the first record with the id, mapped; "User with id … doesn't exist" exactly when no record has the id |
| InMemoryUsers.Overwritten | MiniBank.Data/Users/Repositories/UserRepository.cs:41-52 | only the login and e-mail of the first record with the id change; a missing id changes nothing |
| InMemoryUsers.Removed | MiniBank.Data/Users/Repositories/UserRepository.cs:54-64 | the first record with the id is removed, and the rest stay in order |
| InMemoryUsers.CreatedExists | MiniBank.Data/Users/Repositories/UserRepository.cs:36-39 | after `Create(u)`, `ExistsWithId(u.Id)` holds |
| InMemoryUsers.RemovedKeepsOthers | MiniBank.Data/Users/Repositories/UserRepository.cs:54-64 | `DeleteById(id)` changes no other id's `GetById` |
| InMemoryUsers.DeleteRemovesOnlyCopy | MiniBank.Data/Users/Repositories/UserRepository.cs:54-64 | when a single record holds the id, no record holds it after `DeleteById` |
| InMemoryUsers.LookupAfterOverwrite | MiniBank.Data/Users/Repositories/UserRepository.cs:41-52 | after `Update(u)`, a stored user has the new login and e-mail |
| InMemoryUsers.UserRepository.constructor | MiniBank.Data/Users/Repositories/UserRepository.cs:12 | the storage starts empty |
| InMemoryUsers.UserRepository.ExistsWithId | MiniBank.Data/Users/Repositories/UserRepository.cs:14-17 | true exactly when some record has the id |
| InMemoryUsers.UserRepository.GetById | MiniBank.Data/Users/Repositories/UserRepository.cs:19-29 | answers `Lookup` on the stored list |
| InMemoryUsers.UserRepository.GetAll | MiniBank.Data/Users/Repositories/UserRepository.cs:31-34 | every stored record, mapped, in order |
| InMemoryUsers.UserRepository.Create | MiniBank.Data/Users/Repositories/UserRepository.cs:36-39 | appends the mapped user |
| InMemoryUsers.UserRepository.Update | MiniBank.Data/Users/Repositories/UserRepository.cs:41-52 | fails exactly when the id is missing; the storage becomes `Overwritten` |
| InMemoryUsers.UserRepository.DeleteById | MiniBank.Data/Users/Repositories/UserRepository.cs:54-64 | fails exactly when the id is missing; the storage becomes `Removed` |
| InMemoryTransfers.Lookup | MiniBank.Data/Transfers/Repositories/TransfersRepository.cs:14-24 | the first record with the id, mapped; "Transfer with id … doesn't exist" exactly when no record has the id |
| InMemoryTransfers.AppendKeepsRecorded | MiniBank.Data/Transfers/Repositories/TransfersRepository.cs:31-34 | creating a transfer never changes what a recorded id looks up to |
| InMemoryTransfers.TransferRepository.constructor | MiniBank.Data/Transfers/Repositories/TransfersRepository.cs:12 | the storage starts empty |
| InMemoryTransfers.TransferRepository.GetById | MiniBank.Data/Transfers/Repositories/TransfersRepository.cs:14-24 | answers `Lookup` on the stored list |
| InMemoryTransfers.TransferRepository.GetAll | MiniBank.Data/Transfers/Repositories/TransfersRepository.cs:26-29 | every stored record, mapped, in order |
| InMemoryTransfers.TransferRepository.Create | MiniBank.Data/Transfers/Repositories/TransfersRepository.cs:31-34 | appends the mapped transfer |
| AccountRules.Close | src/MiniBank.Core/BankAccounts/Services/BankAccountService.cs:76-91 | "already closed" comes first, then "has money" for any non-zero balance; success exactly when the account is open and empty; the result is closed at the given time, and nothing else changes |
| AccountRules.Commission | src/MiniBank.Core/BankAccounts/Services/BankAccountService.cs:45-55 | zero between accounts of one user; otherwise `Round2` of 2% of the amount, hence whole cents within half a cent of 2% and non-negative for a non-negative amount |
| AccountRules.CloseIsFinal | src/MiniBank.Core/BankAccounts/Services/BankAccountService.cs:76-79 | a closed account cannot be closed again |
| LegacyBankAccounts.Credit | MiniBank.Core/BankAccounts/Services/BankAccountService.cs:104-112 | the amount, or its conversion, goes to the beneficiary, and between different owners only `Round2(0.98 × ·)` of it; a failed conversion fails the credit |
| LegacyBankAccounts.Settle | MiniBank.Core/BankAccounts/Services/BankAccountService.cs:89-115 | the three guards, in source order; then the sender is debited by the amount as given and the beneficiary is credited |
| LegacyBankAccounts.Outcome | MiniBank.Core/BankAccounts/Services/BankAccountService.cs:84-115 | a missing sender is reported first, then a missing beneficiary; the settled accounts carry the requested ids |
| LegacyBankAccounts.NegativeAmountAccepted | MiniBank.Core/BankAccounts/Services/BankAccountService.cs:99-115 | a negative amount passes the funds check, and the sender's balance grows |
| LegacyBankAccounts.SameOwnerConserves | MiniBank.Core/BankAccounts/Services/BankAccountService.cs:104-115 | between accounts of one owner and one currency, the total is kept |
| LegacyBankAccounts.CrossOwnerCreditBounds | MiniBank.Core/BankAccounts/Services/BankAccountService.cs:109-112 | between different owners, the credit is whole cents, between 0 and the amount, and within half a cent of 98% |
| LegacyBankAccounts.DistinctAccountsSettled | MiniBank.Core/BankAccounts/Services/BankAccountService.cs:117-118 | after both updates, each account holds its settled value, and every other account is unchanged |
| LegacyBankAccounts.SelfTransferCreatesMoney | MiniBank.Core/BankAccounts/Services/BankAccountService.cs:114-118 | a transfer to the same account loses its debit, and the balance grows by the amount |
| LegacyBankAccounts.IntendedSettle | MiniBank.Core/BankAccounts/Services/BankAccountService.cs:89-118 | corrected transfer: a transfer between one account and itself is refused; so is a negative amount, with the newer validator's failure; otherwise the code's `Settle` |
| LegacyBankAccounts.IntendedSenderBounds | MiniBank.Core/BankAccounts/Services/BankAccountService.cs:99-114 | between open, distinct accounts, a non-negative amount the sender covers settles when its credit is computable, and leaves the sender between zero and its old balance, whatever that balance |
| LegacyBankAccounts.IntendedAgreesOnValidRequests | MiniBank.Core/BankAccounts/Services/BankAccountService.cs:89-115 | between distinct accounts with a non-negative amount, the corrected and the written settlement agree |
| LegacyBankAccounts.IntendedOutcome | MiniBank.Core/BankAccounts/Services/BankAccountService.cs:86-118 | both lookups in order, then `IntendedSettle`; a result names the two requested accounts |
| LegacyBankAccounts.OverwriteKeepsBalances | MiniBank.Data/BankAccounts/Repositories/BankAccountRepository.cs:36-51 | an update with a non-negative balance keeps every stored balance non-negative |
| LegacyBankAccounts.IntendedTransferKeepsBalances | MiniBank.Core/BankAccounts/Services/BankAccountService.cs:117-118 | after the two updates of an intended transfer, with no negative rates, no stored balance is negative; the sender holds its debited balance and the beneficiary its credited one |
| LegacyBankAccounts.FoundAccountHasOwner | MiniBank.Core/BankAccounts/Services/BankAccountService.cs:38-49 | while every account names a stored user, a found account does too |
| LegacyBankAccounts.OverwriteKeepsOwners | MiniBank.Data/BankAccounts/Repositories/BankAccountRepository.cs:36-51 | updating with an account whose user is stored keeps every owner stored |
| LegacyBankAccounts.SettleKeepsOwners | MiniBank.Core/BankAccounts/Services/BankAccountService.cs:114-118 | a settled transfer keeps every owner stored |
| LegacyBankAccounts.BankAccountService.constructor | MiniBank.Core/BankAccounts/Services/BankAccountService.cs:19-26 | holds the given repositories and rate source |
| LegacyBankAccounts.BankAccountService.GetById | MiniBank.Core/BankAccounts/Services/BankAccountService.cs:28-31 | answers the repository's `Lookup` |
| LegacyBankAccounts.BankAccountService.GetAll | MiniBank.Core/BankAccounts/Services/BankAccountService.cs:33-36 | every stored account, in order |
| LegacyBankAccounts.BankAccountService.Create | MiniBank.Core/BankAccounts/Services/BankAccountService.cs:38-49 | an unknown user is refused with the source's message and nothing is stored; otherwise the account is stored with its new id and opening date; every owner stays stored |
| LegacyBankAccounts.BankAccountService.CloseById | MiniBank.Core/BankAccounts/Services/BankAccountService.cs:51-69 | a missing account fails; otherwise the result is `Close` of the stored account, written back only on success; every owner stays stored |
| LegacyBankAccounts.BankAccountService.CalculateTransferCommission | MiniBank.Core/BankAccounts/Services/BankAccountService.cs:71-82 | the lookups in order, then `Commission` of the amount as given |
| LegacyBankAccounts.BankAccountService.SettleAccounts | MiniBank.Core/BankAccounts/Services/BankAccountService.cs:89-115 | the step-by-step computation gives `Settle` |
| LegacyBankAccounts.BankAccountService.MakeTransfer | MiniBank.Core/BankAccounts/Services/BankAccountService.cs:84-124 | on failure nothing is stored; on success both accounts are overwritten with their `Outcome` values and the transfer is appended with its new id and date; every owner stays stored |
| LegacyUsers.DeleteKeepsOwners | MiniBank.Core/Users/Services/UserService.cs:42-50 | deleting a user that no account names keeps every owner stored |
| LegacyUsers.UserService.constructor | MiniBank.Core/Users/Services/UserService.cs:14-18 | holds the given repositories |
| LegacyUsers.UserService.GetById | MiniBank.Core/Users/Services/UserService.cs:20-23 | answers the repository's `Lookup` |
| LegacyUsers.UserService.GetAll | MiniBank.Core/Users/Services/UserService.cs:25-28 | every stored user, in order |
| LegacyUsers.UserService.Create | MiniBank.Core/Users/Services/UserService.cs:30-35 | the user is stored with the new id, without validation; afterwards it exists; every owner stays stored |
| LegacyUsers.UserService.Update | MiniBank.Core/Users/Services/UserService.cs:37-40 | fails exactly when the id is missing; only the login and e-mail change |
| LegacyUsers.UserService.DeleteById | MiniBank.Core/Users/Services/UserService.cs:42-50 | a user with any account is refused with "The user has linked accounts" and kept; otherwise the repository deletes; every owner stays stored |
| Persistence.Apply | src/MiniBank.Core/BankAccounts/Repositories/IBankAccountRepository.cs:10-11 | one committed write keeps every record under its own id, never changes recorded transfers, and touches only its own table |
| Persistence.ApplyAll | src/MiniBank.Data/Context/EfUnitOfWork.cs:16-19 | a commit keeps every record under its own id and only appends transfers |
| Persistence.ApplyAllAppend | src/MiniBank.Data/Context/EfUnitOfWork.cs:16-19 | committing two batches one after the other is committing them as one |
| Persistence.ApplyKeepsOwners | src/MiniBank.Core/Users/Services/UserService.cs:69-74 | account writes naming stored users, and deletions of users no account names, keep every owner stored |
| Persistence.FindAccount | src/MiniBank.Core/BankAccounts/Repositories/IBankAccountRepository.cs:9 | the stored account, or "Account with id … doesn't exist" exactly when the id is missing |
| Persistence.FindUser | src/MiniBank.Core/Users/Repositories/IUserRepository.cs:9 | the stored user, or "User with id … doesn't exist" exactly when the id is missing |
| Persistence.UnitOfWork.constructor | src/MiniBank.Data/Context/EfUnitOfWork.cs:11-14 | the given state, with nothing pending |
| Persistence.UnitOfWork.Record | src/MiniBank.Core/BankAccounts/Repositories/IBankAccountRepository.cs:10-11 | a repository write is queued, and the committed state is unchanged |
| Persistence.UnitOfWork.SaveChanges | src/MiniBank.Data/Context/EfUnitOfWork.cs:16-19 | all pending writes are committed in order, and nothing is left pending |
| BankAccounts.Credit | src/MiniBank.Core/BankAccounts/Services/BankAccountService.cs:135-145 | the rounded amount, or its conversion, less `Commission` of that value (zero for one owner); a failed conversion fails the credit |
| BankAccounts.Settle | src/MiniBank.Core/BankAccounts/Services/BankAccountService.cs:117-148 | the three guards in source order, with the funds check on the unrounded amount; then `Round2` of the amount is debited, the credit is added, and the transfer is recorded rounded, in the sender's currency |
| BankAccounts.Located | src/MiniBank.Core/BankAccounts/Services/BankAccountService.cs:111-148 | a missing sender is reported first, then a missing beneficiary; otherwise `Settle` on the stored accounts |
| BankAccounts.Outcome | src/MiniBank.Core/BankAccounts/Services/BankAccountService.cs:107-148 | validation failures come first and stop the transfer; otherwise `Located`; a settled transfer was valid and both accounts were stored |
| BankAccounts.CommittedTransfer | src/MiniBank.Core/BankAccounts/Services/BankAccountService.cs:150-158 | committing a transfer overwrites the sender, then the beneficiary, and appends the transfer; users are untouched |
| BankAccounts.OutcomeAccounts | src/MiniBank.Core/BankAccounts/Services/BankAccountService.cs:132-148 | a settled sender is the stored one less the rounded amount; the beneficiary changes only in balance; the transfer is rounded, in the sender's currency |
| BankAccounts.DistinctAccountsSettled | src/MiniBank.Core/BankAccounts/Services/BankAccountService.cs:147-158 | between two distinct accounts, each holds its settled value after the commit, other accounts are unchanged, and the transfer is appended |
| BankAccounts.SelfTransferLosesDebit | src/MiniBank.Core/BankAccounts/Services/BankAccountService.cs:147-151 | a transfer to the same account loses its debit, and the balance grows by the rounded amount |
| BankAccounts.TransferKeepsOwners | src/MiniBank.Core/BankAccounts/Services/BankAccountService.cs:150-158 | a committed transfer keeps every owner stored |
| BankAccounts.CentsStayCents | src/MiniBank.Core/BankAccounts/Services/BankAccountService.cs:133-148 | whole-cents balances stay whole cents, and the recorded amount is whole cents |
| BankAccounts.CentsBalanceNotOverdrawn | src/MiniBank.Core/BankAccounts/Services/BankAccountService.cs:127-147 | a sender with a whole-cents balance is never left negative |
| BankAccounts.UnroundedCheckCanOverdraw | src/MiniBank.Core/BankAccounts/Services/BankAccountService.cs:127-147 | a balance of 10.006 passes a request of 10.006, is debited 10.01, and goes negative |
| BankAccounts.SameOwnerConserves | src/MiniBank.Core/BankAccounts/Services/BankAccountService.cs:135-148 | between accounts of one owner and one currency, the total is kept |
| BankAccounts.CrossOwnerCreditBounds | src/MiniBank.Core/BankAccounts/Services/BankAccountService.cs:140-145 | between different owners, the credit is the amount less its rounded 2%, between 0 and the amount, and within half a cent of 98% |
| BankAccounts.CrossOwnerExample | src/Tests/MiniBank.Core.Tests/BankAccountTests.cs:491-544 | sending 100 out of 1000 to another owner leaves 900 and credits 98 |
| BankAccounts.ConvertedExample | src/Tests/MiniBank.Core.Tests/BankAccountTests.cs:560-617 | 17.7 out of 1000, converted to 10.17 between different owners, debits 17.7, credits 9.97 and is recorded in the sender's currency |
| BankAccounts.RoundingExample | src/Tests/MiniBank.Core.Tests/BankAccountTests.cs:1030-1094 | a request of 10.123 is moved and recorded as 10.12 |
| BankAccounts.PreviewDiffersFromApplied | src/MiniBank.Core/BankAccounts/Services/BankAccountService.cs:97-145 | the preview charges 2% of the unconverted amount (2 for 100) while the transfer deducts 2% of the converted amount (0.02 at rate 0.0125) |
| BankAccounts.RevisionsCreditDiffer | src/MiniBank.Core/BankAccounts/Services/BankAccountService.cs:140-145 | for 0.25 between different owners, this revision credits 0.25 and the older one 0.24 |
| BankAccounts.NegativeAmountRejected | src/MiniBank.Core/Transfers/Validators/TransferValidator.cs:9-10 | a negative amount is rejected by validation before any account is read |
| BankAccounts.IntendedSettle | src/MiniBank.Core/BankAccounts/Services/BankAccountService.cs:117-148 | corrected transfer: a transfer between one account and itself is refused; the funds check compares the rounded amount, so a balance below it is refused |
| BankAccounts.IntendedSettleNotOverdrawn | src/MiniBank.Core/BankAccounts/Services/BankAccountService.cs:127-147 | between open, distinct accounts whose sender covers the rounded amount and whose credit is computable, the intended settlement succeeds, debits the rounded amount and leaves the sender non-negative, whatever its balance |
| BankAccounts.IntendedRefusesOverdraw | src/MiniBank.Core/BankAccounts/Services/BankAccountService.cs:127-133 | the 10.006 request that overdraws under the written check is refused for lack of funds |
| BankAccounts.IntendedAgreesOnCents | src/MiniBank.Core/BankAccounts/Services/BankAccountService.cs:127-148 | for a whole-cents balance and distinct accounts, every transfer the code settles is settled alike by the correction |
| BankAccounts.IntendedLocated | src/MiniBank.Core/BankAccounts/Services/BankAccountService.cs:111-148 | both lookups in order, then `IntendedSettle` |
| BankAccounts.IntendedOutcome | src/MiniBank.Core/BankAccounts/Services/BankAccountService.cs:107-148 | validation first, then `IntendedLocated` |
| BankAccounts.CreditNonNegative | src/MiniBank.Core/BankAccounts/Services/BankAccountService.cs:135-145 | a non-negative whole-cents amount is credited as a non-negative amount when no rate is negative |
| BankAccounts.IntendedTransferKeepsBalances | src/MiniBank.Core/BankAccounts/Services/BankAccountService.cs:147-158 | committed, an intended transfer leaves no balance negative when none was and no rate is negative; the sender holds its debited balance and the beneficiary its credited one |
| BankAccounts.BankAccountService.constructor | src/MiniBank.Core/BankAccounts/Services/BankAccountService.cs:30-43 | holds the given unit of work and rate source |
| BankAccounts.BankAccountService.Create | src/MiniBank.Core/BankAccounts/Services/BankAccountService.cs:57-69 | on validation failure nothing changes; otherwise the account gets the new id and opening date and is committed by one save; every owner stays stored |
| BankAccounts.BankAccountService.CloseById | src/MiniBank.Core/BankAccounts/Services/BankAccountService.cs:71-95 | a missing account fails; otherwise the result is `Close` of the stored account; on failure nothing changes, and on success the update is committed; every owner stays stored |
| BankAccounts.BankAccountService.CalculateTransferCommission | src/MiniBank.Core/BankAccounts/Services/BankAccountService.cs:97-105 | validation, then the lookups in order, then `Commission` of the amount as given |
| BankAccounts.BankAccountService.SettleAccounts | src/MiniBank.Core/BankAccounts/Services/BankAccountService.cs:117-148 | the step-by-step computation gives `Settle` |
| BankAccounts.BankAccountService.CommitTransfer | src/MiniBank.Core/BankAccounts/Services/BankAccountService.cs:150-158 | both account updates and the transfer are queued in order, then committed by one save |
| BankAccounts.BankAccountService.MakeTransfer | src/MiniBank.Core/BankAccounts/Services/BankAccountService.cs:107-165 | on failure nothing changes; on success both account updates and the transfer (rounded, in the sender's currency, with the new id and date) are committed by one save; every owner stays stored |
| Users.UserService.constructor | src/MiniBank.Core/Users/Services/UserService.cs:20-28 | holds the given unit of work |
| Users.UserService.GetById | src/MiniBank.Core/Users/Services/UserService.cs:30-33 | the stored user, or "User with id … doesn't exist" exactly when the id is missing |
| Users.UserService.Create | src/MiniBank.Core/Users/Services/UserService.cs:35-50 | a "create" validation failure changes nothing; otherwise the user with the new id is committed and exists; every owner stays stored |
| Users.UserService.Update | src/MiniBank.Core/Users/Services/UserService.cs:52-65 | an "update" validation failure or a missing user changes nothing; otherwise the update is committed; every owner stays stored |
| Users.UserService.DeleteById | src/MiniBank.Core/Users/Services/UserService.cs:67-79 | a user with any account is refused with "The user has linked accounts"; a missing user fails; otherwise the deletion is committed and the user is gone; every owner stays stored |

## Findings

Nothing was executed. Each row pairs a lemma about the code as written
with a corrected definition and the property it was evidently meant to
keep: no balance becomes negative, and no money is made or lost. The
service classes keep the behaviour as written, because they model the
code. The corrected definitions stand beside them, and the balance
invariant is proved of those definitions.

| source | as written | input that shows it | evidently intended | confidence | as-written member | corrected member |
|---|---|---|---|---|---|---|
| src/MiniBank.Core/BankAccounts/Services/BankAccountService.cs:127-147 | the funds check compares the requested amount, but the debit is that amount rounded to cents | balance 10.006, request 10.006: the check passes, 10.01 is debited, and the balance ends at -0.004 | compare the balance with the amount that is debited | not executed | BankAccounts.UnroundedCheckCanOverdraw | BankAccounts.IntendedSettleNotOverdrawn |
| src/MiniBank.Core/BankAccounts/Services/BankAccountService.cs:150-151 | a transfer from an account to itself is let through, and the second update overwrites the debit | sender and beneficiary the same open account: the balance grows by the rounded amount | refuse a transfer between an account and itself | not executed | BankAccounts.SelfTransferLosesDebit | BankAccounts.IntendedTransferKeepsBalances |
| MiniBank.Core/BankAccounts/Services/BankAccountService.cs:117-118 | the same self-transfer: the second update overwrites the debit | sender and beneficiary the same open account: the balance grows by the amount | refuse a transfer between an account and itself | not executed | LegacyBankAccounts.SelfTransferCreatesMoney | LegacyBankAccounts.IntendedTransferKeepsBalances |
| MiniBank.Core/BankAccounts/Services/BankAccountService.cs:99 | with no validator, a negative amount passes the funds check | balance 0, request -5 between accounts of one currency: the sender ends at 5 | refuse a negative amount, as the newer revision's validator does | not executed | LegacyBankAccounts.NegativeAmountAccepted | LegacyBankAccounts.IntendedSenderBounds |

## Left out

- Floating point: amounts are exact `real`s. So `double` rounding error, infinities and NaN are not modelled. `Math.Round(x, 2)` is applied to the exact value of `x`.
- BankAccounts.CentsBalanceNotOverdrawn: the invariant that no balance becomes negative holds for the code as written only when the sender's balance is a whole number of cents. The general invariant is proved of the corrected definitions, `BankAccounts.IntendedTransferKeepsBalances` and `LegacyBankAccounts.IntendedTransferKeepsBalances` (see Findings).
- LegacyCurrencies.Convert: a zero rate gives the error `NotFinite`. In C#, `amount / 0.0` gives infinity or NaN without raising an exception.
- Null strings are treated as empty strings.
- `CurrencyCodes` is an enumeration in the source. Here a currency code is a string, and only equality between codes is used.
- The services change the caller's objects in place: ids, dates, the transfer amount and the transfer currency. Here each service method returns the changed object as its result.
- The static lists shared by every instance of an older-revision repository are modelled as one repository object, shared by the services.
- The newer revision's Entity Framework repositories and `MiniBankContext` are not part of this model. `Persistence` states their assumed behaviour:
  - reads see the committed state;
  - writes are queued until `SaveChanges`;
  - `SaveChanges` commits every queued write in order and never fails;
  - creating under an existing id replaces the record;
  - updating a missing record changes nothing.
- Users.UserService.Update and Users.UserService.DeleteById: the error for a missing user (`UserNotFound`) is an assumption about the Entity Framework repository. The source of that repository is not part of this model.
- Validator messages other than the custom "User with id '…' doesn't exist" are represented by FluentValidation's rule codes, not by their English texts.
- `Guid.NewGuid()` and `DateTimeProvider.Now` become parameters (`newId`, `now`). `DateTime` is an integer.
- Exchange rates come from a function parameter. The rate sources are not part of this model:
  - the HTTP source, `CurrencyRateResponse` and its caching;
  - the random integer stubs. For the stubs, only the range of their rates is used, in IntegerConverters.StubRates.
- Logging, `async`/`await`, cancellation tokens, dependency injection and the web layer (controllers, middlewares, DTOs, authentication) are not part of this model.
- The newer revision's account validator is taken to be the one at `MiniBank.Core/BankAccounts/Validators/BankAccountValidator.cs`. No other account validator is among the sources.
- Concurrency is not modelled: every operation runs alone.
