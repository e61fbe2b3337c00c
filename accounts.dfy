/** The account handlers: createAccount (with its synthesized initial
    deposit), getAccounts (the role/owner-scoped listing), updateAccount (a
    type-only edit) and deleteAccount (admin only, cascading to the rows). */
module Accounts {
  import opened Models
  import opened Guard
  import opened Ledger

  /** The opening balance: `balance = 0` when the body carries none. */
  function Opening(balance: Option<int>): int {
    if balance.Some? then balance.value else 0
  }

  /** The deposit createAccount records for a positive opening balance. */
  function InitialDeposit(db: Db, id: string, b: int, now: string): Transaction {
    Transaction(db.nextTxId, id, Consignacion, b, now, "Depósito inicial")
  }

  /** createAccount: 400 without id, type or owner; 403 when a non-admin opens
      an account for someone else; 409 for a taken id; 500 (nothing written)
      when the type is outside the enumeration or the owner does not exist.
      Otherwise the new row, and one 'consignacion' for a positive balance. */
  function CreateAccount(db: Db, id: Option<string>, kind: Option<string>, balance: Option<int>,
                         userId: Option<string>, createdAt: Option<string>,
                         actor: Option<string>, role: Option<string>, now: string): (r: Step<Account>)
    ensures r.reply.Fail? ==> r.db == db
    ensures r.reply == Fail(MissingData) <==> !Given(id) || !Given(kind) || !Given(userId)
    ensures r.reply == Fail(Forbidden) <==>
              Given(id) && Given(kind) && Given(userId) && !Allows(role, actor, userId.value)
    ensures r.reply == Fail(Conflict) <==>
              Given(id) && Given(kind) && Given(userId) && Allows(role, actor, userId.value) && id.value in db.accounts
    ensures r.reply.Ok? <==>
              Given(id) && Given(kind) && Given(userId) && Allows(role, actor, userId.value)
              && id.value !in db.accounts && ParseAccountType(kind.value).Some? && userId.value in db.users
    ensures r.reply == Fail(Internal) <==>
              Given(id) && Given(kind) && Given(userId) && Allows(role, actor, userId.value)
              && id.value !in db.accounts && (ParseAccountType(kind.value).None? || userId.value !in db.users)
    ensures r.reply.Ok? ==>
              var a := r.reply.value;
              && a.id == id.value && a.userId == userId.value && AccountTypeName(a.kind) == kind.value
              && a.balance == Opening(balance)
              && a.createdAtText == (if Given(createdAt) then createdAt.value else now)
              && r.db.users == db.users
              && r.db.accounts == db.accounts[id.value := a]
              // a positive opening balance is one initial deposit; otherwise no row is added
              && (a.balance > 0 ==>
                    && r.db.txs == db.txs[db.nextTxId := Transaction(db.nextTxId, a.id, Consignacion, a.balance, now, "Depósito inicial")]
                    && r.db.nextTxId == db.nextTxId + 1)
              && (a.balance <= 0 ==> r.db.txs == db.txs && r.db.nextTxId == db.nextTxId)
  {
    if !Given(id) || !Given(kind) || !Given(userId) then Step(Fail(MissingData), db)
    else if !Allows(role, actor, userId.value) then Step(Fail(Forbidden), db)
    else if id.value in db.accounts then Step(Fail(Conflict), db)
    else match ParseAccountType(kind.value)
      case None => Step(Fail(Internal), db)
      case Some(k) =>
        if userId.value !in db.users then Step(Fail(Internal), db)
        else
          var b := Opening(balance);
          var a := Account(id.value, userId.value, k, b, OrElse(createdAt, now));
          var created := db.(accounts := db.accounts[id.value := a]);
          if b > 0 then
            Step(Ok(a), created.(txs := db.txs[db.nextTxId := InitialDeposit(db, id.value, b, now)],
                                nextTxId := db.nextTxId + 1))
          else Step(Ok(a), created)
  }

  /** createAccount keeps integrity and every existing account's drift; the
      new account's drift is 0 when it opened with a balance of at least 0,
      and the negative opening balance otherwise. */
  lemma CreateAccountKeepsLedger(db: Db, id: Option<string>, kind: Option<string>, balance: Option<int>,
                                 userId: Option<string>, createdAt: Option<string>,
                                 actor: Option<string>, role: Option<string>, now: string)
    requires Valid(db)
    ensures var r := CreateAccount(db, id, kind, balance, userId, createdAt, actor, role, now);
            && Valid(r.db)
            && (forall a :: a in db.accounts ==> a in r.db.accounts && Drift(r.db, a) == Drift(db, a))
            && (r.reply.Ok? ==> Drift(r.db, id.value) == (if Opening(balance) > 0 then 0 else Opening(balance)))
  {
    var r := CreateAccount(db, id, kind, balance, userId, createdAt, actor, role, now);
    if r.reply.Ok? {
      var b := Opening(balance);
      forall a | a in r.db.accounts
        ensures Net(r.db.txs, a, r.db.nextTxId)
                == (if a == id.value then (if b > 0 then b else 0) else Net(db.txs, a, db.nextTxId))
      {
        if a == id.value {
          NetNone(db.txs, a, db.nextTxId);
        }
        if b > 0 {
          NetAppend(db.txs, a, db.nextTxId, InitialDeposit(db, id.value, b, now));
        }
      }
    }
  }

  /** getAccounts: everything for an admin or when no userId is given,
      otherwise exactly the accounts that userId owns. */
  function GetAccounts(db: Db, userId: Option<string>, role: Option<string>): (r: map<string, Account>)
    ensures forall id :: id in r ==> id in db.accounts && r[id] == db.accounts[id]
    ensures forall id :: id in db.accounts && (IsAdmin(role) || !Given(userId)) ==> id in r
    ensures !IsAdmin(role) && Given(userId) ==>
              forall id :: id in db.accounts ==> (id in r <==> db.accounts[id].userId == userId.value)
  {
    if IsAdmin(role) || !Given(userId) then db.accounts
    else map id | id in db.accounts && db.accounts[id].userId == userId.value :: db.accounts[id]
  }

  /** updateAccount: 404 for an unknown account, 403 for a non-admin who does
      not own it, 500 (nothing written) for a type outside the enumeration;
      otherwise only the type changes, and a falsy type keeps the old one. */
  function UpdateAccount(db: Db, accountId: string, kind: Option<string>, actor: Option<string>, role: Option<string>)
    : (r: Step<Account>)
    ensures r.reply.Fail? ==> r.db == db
    ensures r.reply == Fail(NotFound) <==> accountId !in db.accounts
    ensures r.reply == Fail(Forbidden) <==>
              accountId in db.accounts && !Allows(role, actor, db.accounts[accountId].userId)
    ensures r.reply.Ok? <==>
              accountId in db.accounts && Allows(role, actor, db.accounts[accountId].userId)
              && (Given(kind) ==> ParseAccountType(kind.value).Some?)
    ensures r.reply == Fail(Internal) <==>
              accountId in db.accounts && Allows(role, actor, db.accounts[accountId].userId)
              && Given(kind) && ParseAccountType(kind.value).None?
    ensures r.reply.Ok? ==>
              && r.db == db.(accounts := db.accounts[accountId := r.reply.value])
              && r.reply.value == db.accounts[accountId].(kind := r.reply.value.kind)
              && (Given(kind) ==> AccountTypeName(r.reply.value.kind) == kind.value)
              && (!Given(kind) ==> r.reply.value == db.accounts[accountId])
  {
    if accountId !in db.accounts then Step(Fail(NotFound), db)
    else
      var account := db.accounts[accountId];
      if !Allows(role, actor, account.userId) then Step(Fail(Forbidden), db)
      else if !Given(kind) then Step(Ok(account), db.(accounts := db.accounts[accountId := account]))
      else match ParseAccountType(kind.value)
        case None => Step(Fail(Internal), db)
        case Some(k) =>
          var account' := account.(kind := k);
          Step(Ok(account'), db.(accounts := db.accounts[accountId := account']))
  }

  /** updateAccount keeps integrity and every account's drift. */
  lemma UpdateAccountKeepsLedger(db: Db, accountId: string, kind: Option<string>, actor: Option<string>, role: Option<string>)
    requires Valid(db)
    ensures var r := UpdateAccount(db, accountId, kind, actor, role);
            && Valid(r.db)
            && r.db.accounts.Keys == db.accounts.Keys
            && forall id :: id in db.accounts ==> Drift(r.db, id) == Drift(db, id)
  {
  }

  /** The transactions left once account `id` is gone. */
  function WithoutAccount(txs: map<int, Transaction>, id: string): map<int, Transaction> {
    map k | k in txs && txs[k].accountId != id :: txs[k]
  }

  /** deleteAccount: existence is checked first (404), then the admin role
      (403); on success the account and every row of it are gone and nothing
      else changes. */
  function DeleteAccount(db: Db, accountId: string, role: Option<string>): (r: Step<()>)
    ensures r.reply.Fail? ==> r.db == db
    ensures r.reply == Fail(NotFound) <==> accountId !in db.accounts
    ensures r.reply == Fail(Forbidden) <==> accountId in db.accounts && !IsAdmin(role)
    ensures r.reply.Ok? <==> accountId in db.accounts && IsAdmin(role)
    ensures r.reply.Ok? ==>
              && r.db.users == db.users && r.db.nextTxId == db.nextTxId
              && r.db.txs.Keys <= db.txs.Keys
              && r.db.accounts.Keys == db.accounts.Keys - {accountId}
              && (forall id :: id in r.db.accounts ==> r.db.accounts[id] == db.accounts[id])
              && (forall k :: k in r.db.txs ==> r.db.txs[k].accountId != accountId)
              && (forall k :: k in db.txs ==>
                    (k in r.db.txs <==> db.txs[k].accountId != accountId)
                    && (k in r.db.txs ==> r.db.txs[k] == db.txs[k]))
  {
    if accountId !in db.accounts then Step(Fail(NotFound), db)
    else if !IsAdmin(role) then Step(Fail(Forbidden), db)
    else Step(Ok(()), db.(accounts := db.accounts - {accountId}, txs := WithoutAccount(db.txs, accountId)))
  }

  /** deleteAccount keeps integrity (no row outlives its account) and the
      drift of every account that remains. */
  lemma DeleteAccountKeepsLedger(db: Db, accountId: string, role: Option<string>)
    requires Valid(db)
    ensures var r := DeleteAccount(db, accountId, role);
            && Valid(r.db)
            && forall id :: id in r.db.accounts ==> id in db.accounts && Drift(r.db, id) == Drift(db, id)
  {
    var r := DeleteAccount(db, accountId, role);
    forall id | id in r.db.accounts
      ensures Net(r.db.txs, id, r.db.nextTxId) == Net(db.txs, id, db.nextTxId)
    {
      NetFrame(db.txs, r.db.txs, id, db.nextTxId);
    }
  }
}
