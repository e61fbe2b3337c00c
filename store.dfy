/** The store as the controllers see it: three tables the handlers read and
    rewrite in place. Each mutating handler is a method of `Bank`, run as one
    atomic step, and is proved to leave the tables exactly as the handler
    function of the same name says. `Valid()` is the schema's integrity plus
    the ledger invariant: every balance is its opening part plus the signed
    sum of its account's transactions. */
module Store {
  import opened Models
  import opened Guard
  import Ledger
  import Transactions
  import Accounts
  import Users

  class Bank {
    var users: map<string, User>
    var accounts: map<string, Account>
    var txs: map<int, Transaction>
    var nextTxId: nat
    /** The part of each balance no transaction records: 0 for an account
        opened with a balance of at least 0, its (negative) opening balance otherwise. */
    ghost var opening: map<string, int>

    function State(): Db
      reads this
    {
      Db(users, accounts, txs, nextTxId)
    }

    ghost predicate Valid()
      reads this
    {
      Ledger.Balanced(State(), opening)
    }

    constructor ()
      ensures Valid() && State() == Empty() && opening == map[]
    {
      users, accounts, txs, nextTxId := map[], map[], map[], 0;
      opening := map[];
    }

    method CreateAdminIfNotExists(hash: string -> string, now: string)
      requires Valid()
      modifies this
      ensures Valid() && opening == old(opening)
      ensures State() == Users.CreateAdminIfNotExists(old(State()), hash, now)
    {
      if Users.AdminId !in users {
        users := users[Users.AdminId := Users.AdminUser(hash, now)];
      }
    }

    method CreateTransaction(accountId: Option<string>, kind: Option<string>, amount: Option<int>,
                             description: Option<string>, actor: Option<string>, role: Option<string>, date: string)
      returns (res: Reply<Transactions.Receipt>)
      requires Valid()
      modifies this
      ensures Valid() && opening == old(opening)
      ensures Step(res, State())
              == Transactions.CreateTransaction(old(State()), accountId, kind, amount, description, actor, role, date)
    {
      ghost var db0 := State();
      ghost var spec := Transactions.CreateTransaction(db0, accountId, kind, amount, description, actor, role, date);
      CreateTransactionBalanced(db0, opening, accountId, kind, amount, description, actor, role, date);
      if !Given(accountId) || !Given(kind) || !Transactions.AmountGiven(amount) {
        return Fail(MissingData);
      }
      if accountId.value !in accounts {
        return Fail(NotFound);
      }
      var account := accounts[accountId.value];
      if !Allows(role, actor, account.userId) {
        return Fail(Forbidden);
      }
      if kind.value == "retiro" && amount.value > account.balance {
        return Fail(InsufficientFunds);
      }
      // The source saves the new balance before the insert that the ENUM
      // column refuses; this atomic step checks the type first, so a refused
      // type writes nothing.
      var k := ParseTxType(kind.value);
      if k.None? {
        return Fail(Internal);
      }
      Transactions.CreateTransactionAccepted(db0, accountId, kind, amount, description, actor, role, date, k.value);
      account := account.(balance := Transactions.NewBalance(account.balance, kind.value, amount.value));
      var tx := Transactions.NewRow(State(), accountId.value, k.value, kind.value, amount.value, description, date);
      accounts := accounts[accountId.value := account];
      txs := txs[nextTxId := tx];
      nextTxId := nextTxId + 1;
      res := Ok(Transactions.Receipt(tx, account));
      assert State() == db0.(accounts := db0.accounts[accountId.value := account],
                             txs := db0.txs[db0.nextTxId := tx], nextTxId := db0.nextTxId + 1);
    }

    method UpdateTransaction(txId: int, description: Option<string>, actor: Option<string>, role: Option<string>)
      returns (res: Reply<Transaction>)
      requires Valid()
      modifies this
      ensures Valid() && opening == old(opening)
      ensures Step(res, State()) == Transactions.UpdateTransaction(old(State()), txId, description, actor, role)
    {
      Transactions.UpdateTransactionKeepsLedger(State(), txId, description, actor, role);
      if txId !in txs {
        return Fail(NotFound);
      }
      var tx := txs[txId];
      if !IsAdmin(role) {
        if tx.accountId !in accounts || Some(accounts[tx.accountId].userId) != actor {
          return Fail(Forbidden);
        }
      }
      tx := tx.(description := if Given(description) then description.value else tx.description);
      txs := txs[txId := tx];
      res := Ok(tx);
    }

    method CreateAccount(id: Option<string>, kind: Option<string>, balance: Option<int>,
                         userId: Option<string>, createdAt: Option<string>,
                         actor: Option<string>, role: Option<string>, now: string)
      returns (res: Reply<Account>)
      requires Valid()
      modifies this
      ensures Valid()
      ensures Step(res, State())
              == Accounts.CreateAccount(old(State()), id, kind, balance, userId, createdAt, actor, role, now)
      ensures res.Fail? ==> opening == old(opening)
      ensures res.Ok? ==> opening == old(opening)[res.value.id := if res.value.balance > 0 then 0 else res.value.balance]
    {
      ghost var spec := Accounts.CreateAccount(State(), id, kind, balance, userId, createdAt, actor, role, now);
      CreateAccountBalanced(State(), opening, id, kind, balance, userId, createdAt, actor, role, now);
      if !Given(id) || !Given(kind) || !Given(userId) {
        return Fail(MissingData);
      }
      if !Allows(role, actor, userId.value) {
        return Fail(Forbidden);
      }
      if id.value in accounts {
        return Fail(Conflict);
      }
      // The insert is refused for a type outside the enumeration and, by the
      // foreign key, for an owner that does not exist.
      var k := ParseAccountType(kind.value);
      if k.None? || userId.value !in users {
        return Fail(Internal);
      }
      var b := if balance.Some? then balance.value else 0;
      var account := Account(id.value, userId.value, k.value, b, if Given(createdAt) then createdAt.value else now);
      accounts := accounts[id.value := account];
      if b > 0 {
        txs := txs[nextTxId := Transaction(nextTxId, id.value, Consignacion, b, now, "Depósito inicial")];
        nextTxId := nextTxId + 1;
      }
      opening := opening[id.value := if b > 0 then 0 else b];
      res := Ok(account);
      assert Step(res, State()) == spec;
    }

    method UpdateAccount(accountId: string, kind: Option<string>, actor: Option<string>, role: Option<string>)
      returns (res: Reply<Account>)
      requires Valid()
      modifies this
      ensures Valid() && opening == old(opening)
      ensures Step(res, State()) == Accounts.UpdateAccount(old(State()), accountId, kind, actor, role)
    {
      Accounts.UpdateAccountKeepsLedger(State(), accountId, kind, actor, role);
      if accountId !in accounts {
        return Fail(NotFound);
      }
      var account := accounts[accountId];
      if !Allows(role, actor, account.userId) {
        return Fail(Forbidden);
      }
      if Given(kind) {
        var k := ParseAccountType(kind.value);
        if k.None? {
          return Fail(Internal);
        }
        account := account.(kind := k.value);
      }
      accounts := accounts[accountId := account];
      res := Ok(account);
    }

    method DeleteAccount(accountId: string, role: Option<string>) returns (res: Reply<()>)
      requires Valid()
      modifies this
      ensures Valid()
      ensures Step(res, State()) == Accounts.DeleteAccount(old(State()), accountId, role)
      ensures opening == old(opening) - (if res.Ok? then {accountId} else {})
    {
      Accounts.DeleteAccountKeepsLedger(State(), accountId, role);
      if accountId !in accounts {
        return Fail(NotFound);
      }
      if !IsAdmin(role) {
        return Fail(Forbidden);
      }
      accounts := accounts - {accountId};
      txs := Accounts.WithoutAccount(txs, accountId);
      opening := opening - {accountId};
      res := Ok(());
    }

    method CreateUser(id: Option<string>, name: Option<string>, password: Option<string>,
                      role: Option<string>, queryRole: Option<string>, hash: string -> string, now: string)
      returns (res: Reply<PublicUser>)
      requires Valid()
      modifies this
      ensures Valid() && opening == old(opening)
      ensures Step(res, State()) == Users.CreateUser(old(State()), id, name, password, role, queryRole, hash, now)
    {
      Users.CreateUserKeepsLedger(State(), id, name, password, role, queryRole, hash, now);
      if !Given(id) || !Given(name) || !Given(password) {
        return Fail(MissingData);
      }
      if id.value in users {
        return Fail(Conflict);
      }
      var user := User(id.value, name.value, hash(password.value), Users.GrantedRole(role, queryRole), now);
      users := users[id.value := user];
      res := Ok(Strip(user));
    }

    method UpdateUser(userId: string, name: Option<string>, role: Option<string>,
                      actor: Option<string>, requestRole: Option<string>)
      returns (res: Reply<PublicUser>)
      requires Valid()
      modifies this
      ensures Valid() && opening == old(opening)
      ensures Step(res, State()) == Users.UpdateUser(old(State()), userId, name, role, actor, requestRole)
    {
      Users.UpdateUserKeepsLedger(State(), userId, name, role, actor, requestRole);
      if userId !in users {
        return Fail(NotFound);
      }
      if !Allows(requestRole, actor, userId) {
        return Fail(Forbidden);
      }
      var user := users[userId];
      user := user.(name := if Given(name) then name.value else user.name);
      if Given(role) && IsAdmin(requestRole) {
        var r := ParseRole(role.value);
        if r.None? {
          return Fail(Internal);
        }
        user := user.(role := r.value);
      }
      users := users[userId := user];
      res := Ok(Strip(user));
    }

    method DeleteUser(userId: string, role: Option<string>) returns (res: Reply<()>)
      requires Valid()
      modifies this
      ensures Valid()
      ensures Step(res, State()) == Users.DeleteUser(old(State()), userId, role)
      ensures opening == map id | id in old(opening) && id in accounts :: old(opening)[id]
    {
      Users.DeleteUserKeepsLedger(State(), userId, role);
      if !IsAdmin(role) {
        return Fail(Forbidden);
      }
      if userId == Users.AdminId {
        return Fail(Forbidden);
      }
      if userId !in users {
        return Fail(NotFound);
      }
      users := users - {userId};
      accounts := Users.WithoutOwner(accounts, userId);
      txs := Users.WithinAccounts(txs, accounts);
      opening := map id | id in opening && id in accounts :: opening[id];
      res := Ok(());
    }
  }

  /** createTransaction keeps the ledger invariant with the same opening parts. */
  lemma CreateTransactionBalanced(db: Db, opening: map<string, int>, accountId: Option<string>, kind: Option<string>,
                                  amount: Option<int>, description: Option<string>, actor: Option<string>,
                                  role: Option<string>, date: string)
    requires Ledger.Balanced(db, opening)
    ensures Ledger.Balanced(Transactions.CreateTransaction(db, accountId, kind, amount, description, actor, role, date).db, opening)
  {
    Transactions.CreateTransactionKeepsLedger(db, accountId, kind, amount, description, actor, role, date);
  }

  /** createAccount keeps the ledger invariant, recording the new account's opening part. */
  lemma CreateAccountBalanced(db: Db, opening: map<string, int>, id: Option<string>, kind: Option<string>,
                              balance: Option<int>, userId: Option<string>, createdAt: Option<string>,
                              actor: Option<string>, role: Option<string>, now: string)
    requires Ledger.Balanced(db, opening)
    ensures var r := Accounts.CreateAccount(db, id, kind, balance, userId, createdAt, actor, role, now);
            var b := Accounts.Opening(balance);
            Ledger.Balanced(r.db, if r.reply.Ok? then opening[id.value := if b > 0 then 0 else b] else opening)
  {
    Accounts.CreateAccountKeepsLedger(db, id, kind, balance, userId, createdAt, actor, role, now);
  }
}
