/** The transaction handlers: createTransaction (a deposit or withdrawal on
    one account plus one new row), getTransactions (the owner-scoped listing,
    newest first) and updateTransaction (a description-only edit). */
module Transactions {
  import opened Models
  import opened Guard
  import opened Ledger

  /** `!amount` is true only for an absent amount or 0; negative amounts pass. */
  predicate AmountGiven(a: Option<int>) {
    a.Some? && a.value != 0
  }

  /** The body of a successful createTransaction: the new row and the account after it. */
  datatype Receipt = Receipt(transaction: Transaction, account: Account)

  /** The checks createTransaction makes, in its order, before it writes anything. */
  function Refusal(db: Db, accountId: Option<string>, kind: Option<string>, amount: Option<int>,
                   actor: Option<string>, role: Option<string>): Option<ApiError>
  {
    if !Given(accountId) || !Given(kind) || !AmountGiven(amount) then Some(MissingData)
    else if accountId.value !in db.accounts then Some(NotFound)
    else if !Allows(role, actor, db.accounts[accountId.value].userId) then Some(Forbidden)
    else if kind.value == "retiro" && amount.value > db.accounts[accountId.value].balance then Some(InsufficientFunds)
    else None
  }

  /** The balance update: 'consignacion' adds, every other type subtracts. */
  function NewBalance(balance: int, kind: string, amount: int): int {
    if kind == "consignacion" then balance + amount else balance - amount
  }

  function DefaultDescription(kind: string): string {
    if kind == "consignacion" then "Consignación" else "Retiro"
  }

  /** The row createTransaction inserts, under the next free id. */
  function NewRow(db: Db, accountId: string, k: TxType, kind: string, amount: int,
                  description: Option<string>, date: string): Transaction
  {
    Transaction(db.nextTxId, accountId, k, amount, date, OrElse(description, DefaultDescription(kind)))
  }

  /** createTransaction as one atomic step: when the type is outside the
      column's enumeration the insert fails and nothing is kept. */
  function CreateTransaction(db: Db, accountId: Option<string>, kind: Option<string>, amount: Option<int>,
                             description: Option<string>, actor: Option<string>, role: Option<string>,
                             date: string): (r: Step<Receipt>)
    ensures r.reply.Fail? ==> r.db == db
    ensures r.reply == Fail(MissingData) <==> !Given(accountId) || !Given(kind) || !AmountGiven(amount)
    ensures r.reply == Fail(NotFound) <==>
              Given(accountId) && Given(kind) && AmountGiven(amount) && accountId.value !in db.accounts
    ensures r.reply == Fail(Forbidden) <==>
              Given(accountId) && Given(kind) && AmountGiven(amount) && accountId.value in db.accounts
              && !Allows(role, actor, db.accounts[accountId.value].userId)
    ensures r.reply == Fail(InsufficientFunds) <==>
              Given(accountId) && Given(kind) && AmountGiven(amount) && accountId.value in db.accounts
              && Allows(role, actor, db.accounts[accountId.value].userId)
              && kind.value == "retiro" && amount.value > db.accounts[accountId.value].balance
    ensures r.reply.Ok? <==>
              Refusal(db, accountId, kind, amount, actor, role) == None
              && (kind.value == "consignacion" || kind.value == "retiro")
    ensures r.reply == Fail(Internal) <==>
              Refusal(db, accountId, kind, amount, actor, role) == None
              && kind.value != "consignacion" && kind.value != "retiro"
    ensures r.reply.Ok? ==>
              var id := accountId.value;
              var before := db.accounts[id];
              var t := r.reply.value.transaction;
              && r.db.users == db.users
              // the account: only its balance moves, up for a deposit and down for a withdrawal
              && r.db.accounts == db.accounts[id := r.reply.value.account]
              && r.reply.value.account == before.(balance := r.reply.value.account.balance)
              && (kind.value == "consignacion" ==> r.reply.value.account.balance == before.balance + amount.value)
              && (kind.value == "retiro" ==> r.reply.value.account.balance == before.balance - amount.value)
              // a withdrawal never takes a non-negative balance below zero
              && (kind.value == "retiro" && before.balance >= 0 ==> r.reply.value.account.balance >= 0)
              // exactly one new row, under a fresh id
              && r.db.nextTxId == db.nextTxId + 1
              && r.db.txs == db.txs[db.nextTxId := t]
              && t.id == db.nextTxId && t.accountId == id && TxTypeName(t.kind) == kind.value
              && t.amount == amount.value && t.date == date
              && t.description == (if Given(description) then description.value
                                   else if kind.value == "consignacion" then "Consignación" else "Retiro")
  {
    match Refusal(db, accountId, kind, amount, actor, role)
    case Some(e) => Step(Fail(e), db)
    case None =>
      match ParseTxType(kind.value)
      case None => Step(Fail(Internal), db)
      case Some(k) =>
        var id := accountId.value;
        var account := db.accounts[id].(balance := NewBalance(db.accounts[id].balance, kind.value, amount.value));
        var t := NewRow(db, id, k, kind.value, amount.value, description, date);
        Step(Ok(Receipt(t, account)),
             db.(accounts := db.accounts[id := account], txs := db.txs[db.nextTxId := t], nextTxId := db.nextTxId + 1))
  }

  /** createTransaction as the source runs it: `account.save()` commits the
      new balance before the insert, so an insert refused by the enum column
      answers 500 with the balance already moved and no row recorded. */
  function CreateTransactionAsWritten(db: Db, accountId: Option<string>, kind: Option<string>, amount: Option<int>,
                                      description: Option<string>, actor: Option<string>, role: Option<string>,
                                      date: string): (r: Step<Receipt>)
    ensures Refusal(db, accountId, kind, amount, actor, role).Some? ==> r.db == db && r.reply.Fail?
    ensures Given(kind) && (kind.value == "consignacion" || kind.value == "retiro") ==>
              r == CreateTransaction(db, accountId, kind, amount, description, actor, role, date)
  {
    match Refusal(db, accountId, kind, amount, actor, role)
    case Some(e) => Step(Fail(e), db)
    case None =>
      var id := accountId.value;
      var account := db.accounts[id].(balance := NewBalance(db.accounts[id].balance, kind.value, amount.value));
      var saved := db.(accounts := db.accounts[id := account]);
      match ParseTxType(kind.value)
      case None => Step(Fail(Internal), saved)
      case Some(k) =>
        var t := NewRow(db, id, k, kind.value, amount.value, description, date);
        Step(Ok(Receipt(t, account)),
             saved.(txs := db.txs[db.nextTxId := t], nextTxId := db.nextTxId + 1))
  }

  /** Once every check passes and the type is one of the enumeration, the
      handler's step is the new balance, the new row and the next counter. */
  lemma CreateTransactionAccepted(db: Db, accountId: Option<string>, kind: Option<string>, amount: Option<int>,
                                  description: Option<string>, actor: Option<string>, role: Option<string>,
                                  date: string, k: TxType)
    requires Given(accountId) && Given(kind) && AmountGiven(amount) && accountId.value in db.accounts
    requires Allows(role, actor, db.accounts[accountId.value].userId)
    requires !(kind.value == "retiro" && amount.value > db.accounts[accountId.value].balance)
    requires ParseTxType(kind.value) == Some(k)
    ensures var id := accountId.value;
            var account := db.accounts[id].(balance := NewBalance(db.accounts[id].balance, kind.value, amount.value));
            var t := NewRow(db, id, k, kind.value, amount.value, description, date);
            CreateTransaction(db, accountId, kind, amount, description, actor, role, date)
            == Step(Ok(Receipt(t, account)),
                    db.(accounts := db.accounts[id := account], txs := db.txs[db.nextTxId := t], nextTxId := db.nextTxId + 1))
  {
  }

  /** createTransaction keeps the schema's integrity and leaves every account's
      drift (balance minus the signed sum of its transactions) where it was. */
  lemma CreateTransactionKeepsLedger(db: Db, accountId: Option<string>, kind: Option<string>, amount: Option<int>,
                                     description: Option<string>, actor: Option<string>, role: Option<string>,
                                     date: string)
    requires Valid(db)
    ensures var r := CreateTransaction(db, accountId, kind, amount, description, actor, role, date);
            && Valid(r.db)
            && r.db.accounts.Keys == db.accounts.Keys
            && forall id :: id in db.accounts ==> Drift(r.db, id) == Drift(db, id)
  {
    var r := CreateTransaction(db, accountId, kind, amount, description, actor, role, date);
    if r.reply.Ok? {
      var t := r.reply.value.transaction;
      forall id | id in db.accounts
        ensures Drift(r.db, id) == Drift(db, id)
      {
        NetAppend(db.txs, id, db.nextTxId, t);
      }
    }
  }

  /** The source's createTransaction, given a type outside the enumeration
      that passes every check, answers 500 yet has moved the balance by
      `-amount` without a row to explain it: the drift changes. */
  lemma AsWrittenUnknownTypeBreaksLedger(db: Db, accountId: Option<string>, kind: Option<string>, amount: Option<int>,
                                         description: Option<string>, actor: Option<string>, role: Option<string>,
                                         date: string)
    requires Valid(db)
    requires Refusal(db, accountId, kind, amount, actor, role) == None
    requires kind.value != "consignacion" && kind.value != "retiro"
    ensures var r := CreateTransactionAsWritten(db, accountId, kind, amount, description, actor, role, date);
            && r.reply == Fail(Internal)
            && r.db.txs == db.txs
            && accountId.value in r.db.accounts
            && Drift(r.db, accountId.value) == Drift(db, accountId.value) - amount.value
            && Drift(r.db, accountId.value) != Drift(db, accountId.value)
  {
  }

  /** A concrete case: account "A1" holds 100 and no transactions; a request
      of type "transferencia" for 10 leaves it holding 90, with no row. */
  lemma AsWrittenTransferExample()
    ensures var u := User("u1", "Ana", "h", UserRole, "d");
            var a := Account("A1", "u1", Ahorro, 100, "d");
            var db := Db(map["u1" := u], map["A1" := a], map[], 0);
            var r := CreateTransactionAsWritten(db, Some("A1"), Some("transferencia"), Some(10), None,
                                                Some("u1"), Some("user"), "now");
            && Valid(db) && Drift(db, "A1") == 100
            && r.reply == Fail(Internal) && r.db.txs == map[]
            && r.db.accounts["A1"].balance == 90
            && CreateTransaction(db, Some("A1"), Some("transferencia"), Some(10), None,
                                 Some("u1"), Some("user"), "now") == Step(Fail(Internal), db)
  {
    var u := User("u1", "Ana", "h", UserRole, "d");
    var a := Account("A1", "u1", Ahorro, 100, "d");
    var db := Db(map["u1" := u], map["A1" := a], map[], 0);
    assert Refusal(db, Some("A1"), Some("transferencia"), Some(10), Some("u1"), Some("user")) == None;
  }

  /** The `where` filter getTransactions builds. */
  datatype Scope = All | OneAccount(id: string) | SomeAccounts(ids: set<string>)

  predicate InScope(s: Scope, t: Transaction) {
    match s
    case All => true
    case OneAccount(id) => t.accountId == id
    case SomeAccounts(ids) => t.accountId in ids
  }

  /** `findAll({ where, order: [['id', 'DESC']] })` over the ids below `n`. */
  function Newest(txs: map<int, Transaction>, s: Scope, n: nat): (r: seq<Transaction>)
    requires forall k :: k in txs ==> txs[k].id == k
    ensures forall i, j :: 0 <= i < j < |r| ==> r[i].id > r[j].id
    ensures forall t :: t in r ==> 0 <= t.id < n && t.id in txs && txs[t.id] == t && InScope(s, t)
    ensures forall k :: 0 <= k < n && k in txs && InScope(s, txs[k]) ==> txs[k] in r
  {
    if n == 0 then []
    else
      var rest := Newest(txs, s, n - 1);
      if n - 1 in txs && InScope(s, txs[n - 1]) then [txs[n - 1]] + rest else rest
  }

  /** The ids of the accounts `u` owns (the `map(a => a.id)` of the source). */
  function OwnedAccounts(db: Db, u: string): set<string> {
    set id | id in db.accounts && db.accounts[id].userId == u
  }

  /** Which rows a listing request is meant to see, stated row by row: one
      account's rows, else a non-admin's own accounts' rows, else all rows. */
  predicate Visible(db: Db, accountId: Option<string>, userId: Option<string>, role: Option<string>, t: Transaction) {
    if Given(accountId) then t.accountId == accountId.value
    else if !IsAdmin(role) && Given(userId) then t.accountId in db.accounts && db.accounts[t.accountId].userId == userId.value
    else true
  }

  /** getTransactions: a non-admin naming an account that is not theirs (or
      does not exist) is refused; otherwise exactly the visible rows, newest first. */
  function GetTransactions(db: Db, accountId: Option<string>, userId: Option<string>, role: Option<string>)
    : (r: Reply<seq<Transaction>>)
    requires Valid(db)
    ensures r.Fail? <==>
              Given(accountId) && !IsAdmin(role)
              && (accountId.value !in db.accounts || userId != Some(db.accounts[accountId.value].userId))
    ensures r.Fail? ==> r.error == Forbidden
    ensures r.Ok? ==> forall i, j :: 0 <= i < j < |r.value| ==> r.value[i].id > r.value[j].id
    ensures r.Ok? ==> forall t :: t in r.value <==>
                        t.id in db.txs && db.txs[t.id] == t && Visible(db, accountId, userId, role, t)
    ensures (!Given(accountId) && !IsAdmin(role) && Given(userId) && OwnedAccounts(db, userId.value) == {})
              ==> r == Ok([])
  {
    if Given(accountId) && !IsAdmin(role)
       && (accountId.value !in db.accounts || Some(db.accounts[accountId.value].userId) != userId)
    then Fail(Forbidden)
    else if Given(accountId) then Ok(Newest(db.txs, OneAccount(accountId.value), db.nextTxId))
    else if !IsAdmin(role) && Given(userId) then
      var ids := OwnedAccounts(db, userId.value);
      if ids == {} then
        assert forall t: Transaction :: Visible(db, accountId, userId, role, t) ==> t.accountId in ids;
        Ok([])
      else Ok(Newest(db.txs, SomeAccounts(ids), db.nextTxId))
    else Ok(Newest(db.txs, All, db.nextTxId))
  }

  /** A non-admin who names themselves never sees another user's rows. */
  lemma NonAdminSeesOnlyOwn(db: Db, accountId: Option<string>, userId: Option<string>, role: Option<string>)
    requires Valid(db)
    requires !IsAdmin(role) && Given(userId)
    ensures var r := GetTransactions(db, accountId, userId, role);
            r.Ok? ==> forall t :: t in r.value ==> db.accounts[t.accountId].userId == userId.value
  {
  }

  /** updateTransaction: 404 for an unknown id, 403 for a non-admin who does
      not own the row's account; otherwise only the description changes, and
      a falsy description keeps the old one. */
  function UpdateTransaction(db: Db, txId: int, description: Option<string>, actor: Option<string>, role: Option<string>)
    : (r: Step<Transaction>)
    ensures r.reply.Fail? ==> r.db == db
    ensures r.reply == Fail(NotFound) <==> txId !in db.txs
    ensures r.reply == Fail(Forbidden) <==>
              txId in db.txs && !IsAdmin(role)
              && (db.txs[txId].accountId !in db.accounts || actor != Some(db.accounts[db.txs[txId].accountId].userId))
    ensures r.reply.Fail? ==> r.reply.error == NotFound || r.reply.error == Forbidden
    ensures r.reply.Ok? ==>
              && r.db == db.(txs := db.txs[txId := r.reply.value])
              && r.reply.value == db.txs[txId].(description := r.reply.value.description)
              && r.reply.value.description == (if Given(description) then description.value else db.txs[txId].description)
  {
    if txId !in db.txs then Step(Fail(NotFound), db)
    else
      var tx := db.txs[txId];
      if !IsAdmin(role) && (tx.accountId !in db.accounts || Some(db.accounts[tx.accountId].userId) != actor)
      then Step(Fail(Forbidden), db)
      else
        var tx' := tx.(description := OrElse(description, tx.description));
        Step(Ok(tx'), db.(txs := db.txs[txId := tx']))
  }

  /** updateTransaction keeps integrity and every account's drift. */
  lemma UpdateTransactionKeepsLedger(db: Db, txId: int, description: Option<string>, actor: Option<string>, role: Option<string>)
    requires Valid(db)
    ensures var r := UpdateTransaction(db, txId, description, actor, role);
            && Valid(r.db)
            && r.db.accounts == db.accounts
            && forall id :: id in db.accounts ==> Drift(r.db, id) == Drift(db, id)
  {
    var r := UpdateTransaction(db, txId, description, actor, role);
    forall id | id in db.accounts
      ensures Drift(r.db, id) == Drift(db, id)
    {
      NetFrame(db.txs, r.db.txs, id, db.nextTxId);
    }
  }
}
