# MiniBanco ledger, modelled in Dafny

This project models the ledger core of MiniBanco's SQL back end. The core is
the three controllers for users, accounts and transactions, plus the
Sequelize schema they rely on. The store is one state: users and accounts
keyed by their string ids, and transactions keyed by an integer id that comes
from a counter. Each HTTP handler is one atomic step from a store to an
answer (a payload or an error with its HTTP status) and a new store.

Files:

- `models.dfy` (`Models`): the rows, their enumerated columns (`role`,
  account `type`, transaction `type`), the error taxonomy, and `Valid`, the
  integrity every reachable state has. `Valid` has three sources:
  - The schema gives primary keys and the two foreign keys: every account's
    owner exists, and every transaction's account exists.
  - The handlers' `!id` and `!name` checks make user ids, account ids and
    user names non-empty. `allowNull: false` forbids only NULL, not `""`.
  - The model's own id counter puts every transaction id below `nextTxId`.
- `guard.dfy` (`Guard`): the check the handlers repeat inline as
  `requestRole !== 'admin' && owner !== requestUserId`. It allows when
  `role == 'admin'` or the caller-declared `userId` is the owner.
- `ledger.dfy` (`Ledger`): `Net` is the signed sum of an account's
  transactions: a `consignacion` (deposit) counts up, a `retiro`
  (withdrawal) counts down. `Drift` is the balance minus that sum.
- `transactions.dfy`, `accounts.dfy`, `users.dfy`: one function per handler.
  Each returns a `Step(reply, db)`, and its contract states the code-ordered
  error checks, that no error path changes the store, and the full new state
  on success. Beside each handler is a `...KeepsLedger` lemma. It proves the
  handler keeps `Valid` and leaves the `Drift` of every surviving account
  unchanged.
- `store.dfy` (`Store.Bank`): the store as a class with fields that the
  mutating handlers reassign in place. Each method's body follows the
  controller step by step, with one exception: `Store.Bank.CreateTransaction`
  checks the transaction type before it writes the balance, the reverse of
  transactionController.js:25-28, so that a refused type writes nothing.
  Each is proved to produce exactly the store and
  answer of the handler function of the same name, and to keep `Valid()`.
  `Valid()` includes the ledger invariant: balance = opening part + `Net`.
  The opening part is kept in a ghost map. It is 0 for every account opened
  with a balance of at least 0, so for those accounts the balance equals
  Σ consignacion − Σ retiro over their transactions. For an account opened
  with a negative balance, the opening part is that negative balance.

The read-only handlers (`getTransactions`, `getAccounts`, `login`,
`getUsers`) are functions of the store's state (`Bank.State()`).

Request fields are `Option<string>`. A field counts as given the way
JavaScript's `!x` reads it: an absent field and `""` are both falsy. An
amount is `Option<int>`, and only an absent amount or `0` is falsy.

The model keeps several quirks of the code:

- Negative amounts pass the `!amount` check.
- A negative opening balance is accepted and records no transaction.
- A type other than `'consignacion'` subtracts from the balance. Only
  `Transactions.CreateTransactionAsWritten` keeps this quirk. Its type is
  then refused by the ENUM column after the balance is saved (see
  "## Findings"). `Transactions.CreateTransaction` and
  `Store.Bank.CreateTransaction` answer 500 for such a type and write nothing.
- A non-admin who sends no `userId` and no `accountId` lists every
  transaction.
- `updateUser` looks the user up (404) before it checks authorization (403).

The model states what the code does, not what a careful ledger would do.
Amounts are not required to be positive. Uniqueness is a lookup before the
insert. Listing is scoped to the owner only when a `userId` is sent.

Writes that the database itself refuses end the handler with 500 and change
nothing, since each handler is one atomic step. These are a value outside an
ENUM column (account `type`, user `role`, transaction `type`) and an account
whose `userId` names no user (the foreign key from `Account.belongsTo(User)`).
The two `onDelete: 'CASCADE'` foreign keys make deleting a user remove that
user's accounts and, through them, those accounts' transactions.

## Model

| member | source | states |
|---|---|---|
| Models.ParseRole | Backend/models_sql/index.js:12 | a role is accepted iff it is 'user' or 'admin', and naming the parsed role gives the input back |
| Models.ParseAccountType | Backend/models_sql/index.js:28 | an account type is accepted iff it is 'ahorro', 'corriente' or 'cdt', and it round-trips |
| Models.ParseTxType | Backend/models_sql/index.js:43 | a transaction type is accepted iff it is 'consignacion' or 'retiro', and it round-trips |
| Models.ValidRowsTraceToUsers | Backend/models_sql/index.js:55-75 | in every state that meets `Valid` (the two foreign keys plus the handlers' non-empty ids), every transaction traces through its account to an existing user, and the counter names a free transaction id |
| Guard.Allows | Backend/controllers_sql/transactionController.js:17 | the ownership check repeated at accountController.js:12 and :69 and userController.js:145: an admin may act on any row; anyone else only on a row whose owner is the id they declared, so a caller who declares no id and is not admin is refused |
| Transactions.CreateTransaction | Backend/controllers_sql/transactionController.js:4-42 | a missing accountId/type or an amount of 0 gives 400; an unknown account gives 404; a non-admin non-owner gets 403; a 'retiro' above the balance gives 'Saldo insuficiente'; no error changes the store. On success a 'consignacion' adds the amount and a 'retiro' subtracts it, only that account changes, a 'retiro' keeps a non-negative balance non-negative, and exactly one row is added under a fresh id with the given account, type and amount, described 'Consignación'/'Retiro' when no description is given; after the checks pass, a type other than 'consignacion' or 'retiro' gives 500 with nothing written |
| Transactions.CreateTransactionAsWritten | Backend/controllers_sql/transactionController.js:21-35 | the code as written: refusals leave the store alone, and for the two enumerated types it behaves exactly like the atomic handler |
| Transactions.AsWrittenUnknownTypeBreaksLedger | Backend/controllers_sql/transactionController.js:25-35 | with any type outside the enumeration that passes the checks, the code answers 500 but has moved the balance by −amount without adding a row, so the ledger drift changes |
| Transactions.AsWrittenTransferExample | Backend/controllers_sql/transactionController.js:25-35 | a "transferencia" of 10 on an account holding 100 leaves it holding 90 with no transaction, where the atomic handler changes nothing |
| Transactions.CreateTransactionKeepsLedger | Backend/controllers_sql/transactionController.js:21-35 | createTransaction keeps the schema's integrity and keeps every account's balance minus its signed transaction sum |
| Transactions.Newest | Backend/controllers_sql/transactionController.js:70-74 | the listing is in strictly descending id order and holds exactly the stored rows that match the filter |
| Transactions.GetTransactions | Backend/controllers_sql/transactionController.js:44-81 | a non-admin naming an account that is missing or not theirs gets 403, and nothing else is refused; otherwise the result is newest first and holds exactly the visible rows: that account's, else a non-admin's own accounts', else all; a non-admin owning no account gets an empty list |
| Transactions.NonAdminSeesOnlyOwn | Backend/controllers_sql/transactionController.js:51-68 | a non-admin who sends a userId never sees a row of another user's account |
| Transactions.UpdateTransaction | Backend/controllers_sql/transactionController.js:83-107 | 404 for an unknown id and 403 for a non-admin who does not own the row's account, neither changing anything; otherwise only the description changes, and a falsy description keeps the old one |
| Transactions.UpdateTransactionKeepsLedger | Backend/controllers_sql/transactionController.js:100-101 | a description edit keeps integrity and every account's drift |
| Accounts.CreateAccount | Backend/controllers_sql/accountController.js:4-43 | 400 without id/type/userId, 403 when a non-admin opens an account for someone else, 409 for a taken id, none changing the store; on success the row holds the given fields and the balance (0 by default), and a positive balance adds exactly one 'consignacion' of that amount described 'Depósito inicial', otherwise no row; after the checks pass, a type outside the enumeration or an owner that does not exist gives 500 with nothing written |
| Accounts.CreateAccountKeepsLedger | Backend/controllers_sql/accountController.js:19-36 | account creation keeps integrity and every existing account's drift, and the new account's drift is 0 when it opened with a balance of at least 0 |
| Accounts.GetAccounts | Backend/controllers_sql/accountController.js:45-57 | all accounts for an admin or when no userId is given, otherwise exactly the accounts that userId owns |
| Accounts.UpdateAccount | Backend/controllers_sql/accountController.js:59-80 | 404 for an unknown account and 403 for a non-admin non-owner, neither changing anything; a type outside the enumeration gives 500 with nothing written; otherwise only the type changes (kept when none is given), and balance and owner stay the same |
| Accounts.UpdateAccountKeepsLedger | Backend/controllers_sql/accountController.js:73-74 | a type edit keeps integrity and every account's drift |
| Accounts.DeleteAccount | Backend/controllers_sql/accountController.js:82-103 | existence is checked first (404), then the admin role (403), and an admin deleting an existing account succeeds; on success the account and every transaction of it are gone, and all other accounts and transactions are unchanged |
| Accounts.DeleteAccountKeepsLedger | Backend/models_sql/index.js:66-70 | after the cascade no transaction outlives its account, and every remaining account keeps its drift |
| Users.CreateAdminIfNotExists | Backend/controllers_sql/userController.js:11-32 | afterwards a user 'admin' exists; it is added with role admin only when absent, and otherwise the store is unchanged |
| Users.BootstrapIdempotent | Backend/controllers_sql/userController.js:14-25 | a second bootstrap changes nothing, and the bootstrap keeps integrity |
| Users.CreateUser | Backend/controllers_sql/userController.js:42-74 | 400 without id/name/password and 409 for a taken id, neither changing anything; the new user is admin iff both the body role and the query role are 'admin'; the stored password is the hash, and the answer is the row without its password |
| Users.CreateUserKeepsLedger | Backend/controllers_sql/userController.js:59-64 | registration keeps integrity and touches no account or transaction |
| Users.Login | Backend/controllers_sql/userController.js:81-104 | 400 without id/password, 404 for an unknown id, 401 when verify rejects the stored hash; it succeeds iff both fields are given, the user exists and verify accepts, and then answers the stored user without its password |
| Users.RegisterThenLogin | Backend/controllers_sql/userController.js:88-99 | a user just registered logs in with the same password and gets back what registration returned, if verify accepts hash's output |
| Users.GetUsers | Backend/controllers_sql/userController.js:111-127 | 403 unless the role is admin; otherwise every user, without passwords |
| Users.UpdateUser | Backend/controllers_sql/userController.js:134-164 | 404 for an unknown user, 403 when a non-admin updates someone else, neither changing anything; a falsy name keeps the old one, the role is kept unless an admin sends one, an admin's role outside the enumeration gives 500 with nothing written, nothing else of the row changes, and the answer has no password |
| Users.UpdateUserKeepsLedger | Backend/controllers_sql/userController.js:148-154 | a user edit keeps integrity and touches no account or transaction |
| Users.DeleteUser | Backend/controllers_sql/userController.js:171-197 | 403 for a non-admin and for 'admin', 404 for an absent user, neither changing anything; an admin deleting an existing user other than 'admin' succeeds, and then the user and every account with that userId are gone, with those accounts' transactions, and everything else is unchanged |
| Users.DeleteUserKeepsLedger | Backend/models_sql/index.js:55-59 | after the cascade no account outlives its owner and no transaction its account, and every remaining account keeps its drift |
| Store.Bank.CreateAdminIfNotExists | Backend/controllers_sql/userController.js:11-32 | the bootstrap in place: the new tables are exactly Users.CreateAdminIfNotExists of the old ones, and the ledger invariant holds |
| Store.Bank.CreateTransaction | Backend/controllers_sql/transactionController.js:4-42 | the handler in place: answer and tables are exactly Transactions.CreateTransaction of the old tables, and balance = opening part + signed sum still holds for every account |
| Store.Bank.UpdateTransaction | Backend/controllers_sql/transactionController.js:83-107 | answer and tables as Transactions.UpdateTransaction; the ledger invariant holds |
| Store.Bank.CreateAccount | Backend/controllers_sql/accountController.js:4-43 | answer and tables as Accounts.CreateAccount; the new account's opening part is 0 when it opened with a balance of at least 0, so its balance is exactly its signed transaction sum |
| Store.Bank.UpdateAccount | Backend/controllers_sql/accountController.js:59-80 | answer and tables as Accounts.UpdateAccount; the ledger invariant holds |
| Store.Bank.DeleteAccount | Backend/controllers_sql/accountController.js:82-103 | answer and tables as Accounts.DeleteAccount; the ledger invariant holds for the accounts that remain |
| Store.Bank.CreateUser | Backend/controllers_sql/userController.js:42-74 | answer and tables as Users.CreateUser; the ledger invariant holds |
| Store.Bank.UpdateUser | Backend/controllers_sql/userController.js:134-164 | answer and tables as Users.UpdateUser; the ledger invariant holds |
| Store.Bank.DeleteUser | Backend/controllers_sql/userController.js:171-197 | answer and tables as Users.DeleteUser; the ledger invariant holds for the accounts that remain |

## Left out

- Concurrency. Each handler is one atomic step. The model does not cover the
  check-then-insert races in createAccount and createUser, the interleaving of
  two createTransaction calls on one account, or the bootstrap running in two
  processes at once.
- Failures of the database other than a refused constraint are not modelled:
  a lost connection, a timeout, or the bootstrap's "tables not ready" branch
  that only logs. These also end in the `catch` blocks' 500.
- Money is an exact `int`. The FLOAT columns for balance and amount, and
  their rounding, are not modelled.
- Transaction ids come from a counter instead of `Date.now()`, so two rows
  never collide. Dates and `createdAt` texts are opaque strings passed in
  (`now`, `date`) in place of `toLocaleString('es-CO')` and `DataTypes.NOW`.
- bcrypt is passed in as two uninterpreted functions, `hash` and `verify`.
  `SALT_ROUNDS` and the hashing algorithm are not modelled.
- Request values are strings and integers. JavaScript's coercions of other
  JSON types are not modelled. Examples are a numeric id, or a string amount
  that `+` would concatenate.
- ENUM values are matched exactly. MySQL's case- and accent-insensitive
  collation, which would store 'RETIRO' as 'retiro', is not modelled. This
  rests on MySQL, not on the code. The omission hides a case: a type
  "RETIRO" skips the exact `type === 'retiro'` funds check at
  transactionController.js:21 and still subtracts. MySQL would then store the
  row as a 'retiro', so a withdrawal could take the balance below zero. The
  model refuses that type with 500, so its non-negativity clause does not
  cover this case.
- Users.DeleteUser, Users.CreateUser and Accounts.CreateAccount match
  primary and foreign keys exactly, as strings. config/database.js:20-26 sets
  no collation, so MySQL's default case- and accent-insensitive one applies,
  and the model does not capture it. Under it, 'ADMIN' passes the exact
  `userId === 'admin'` guard at userController.js:181. `User.destroy` at
  :184 then deletes 'admin' and cascades to its accounts and transactions.
  The `findByPk` lookups at userController.js:48 and accountController.js:16
  answer 409 for 'a1' when 'A1' exists, where the model creates the row. An
  account whose `userId` is 'U1' satisfies the foreign key to user 'u1',
  where the model answers 500. This rests on MySQL, not on the code.
- Transactions.CreateTransaction, Transactions.UpdateTransaction,
  Accounts.CreateAccount, Users.CreateUser and Users.UpdateUser do not model
  the length limit of the text columns. `DataTypes.STRING` is VARCHAR(255)
  for the ids and names (index.js:9, :10, :23), the owner and account keys
  (index.js:26, :42), `createdAtText` (index.js:30), and `date` and
  `description` (index.js:45, :46). In MySQL's strict mode a longer value makes
  the write fail, and the handler's `catch` answers 500. The model accepts
  strings of any length. This rests on MySQL, not on the code. It hides one
  case with the same save-before-insert order as the finding below: a valid
  'consignacion' or 'retiro' with a 300-character description moves the
  balance at transactionController.js:26, the insert at :28 fails, and the
  answer is 500 with no row recorded. Neither
  Transactions.CreateTransaction nor Transactions.CreateTransactionAsWritten
  shows this.
- Accounts.GetAccounts and Users.GetUsers return maps keyed by id. The row
  order of the source's unordered `findAll` is not modelled.
- Express routing, the server bootstrap, the database configuration and
  `syncDatabase` are not modelled. The exchange-rate and SOAP calculator
  clients, the SOAP stub server and the browser front end are not modelled
  either. None of them touches the ledger.

## Findings

| source | as written | input that shows it | evidently intended | confidence | as-written member | corrected member |
|---|---|---|---|---|---|---|
| Backend/controllers_sql/transactionController.js:25-35 | `account.save()` commits `balance - amount` for any type other than 'consignacion' before the row is inserted; the ENUM column then refuses a type that is neither 'consignacion' nor 'retiro', and the handler answers 500 with the balance already changed and no transaction recorded | account A1 with balance 100 and no transactions; POST with type "transferencia", amount 10 by its owner: balance 90, 0 transactions, answer 500 | refuse the request with nothing written, so that the balance stays the signed sum of the account's transactions | medium, not executed: rests on MySQL's default strict mode refusing the ENUM value (without strict mode the row is stored with an empty type, which the signed sum ignores in the same way) | Transactions.CreateTransactionAsWritten | Transactions.CreateTransaction |
