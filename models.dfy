/** The three tables of the ledger (users, accounts, transactions), their
    enumerated columns, and the integrity the schema enforces: primary keys,
    required fields and the two cascading foreign keys. */
module Models {

  datatype Option<+T> = None | Some(value: T)

  /** A request field as JavaScript's `!x` reads it: absent and "" are both falsy. */
  predicate Given(s: Option<string>) {
    s.Some? && s.value != ""
  }

  /** `s || fallback` on a request field. */
  function OrElse(s: Option<string>, fallback: string): string {
    if Given(s) then s.value else fallback
  }

  /** The `role` column: ENUM('user', 'admin'). */
  datatype Role = UserRole | AdminRole

  function RoleName(r: Role): string {
    match r
    case UserRole => "user"
    case AdminRole => "admin"
  }

  /** What the enum column accepts; anything else is refused by the store. */
  function ParseRole(s: string): (r: Option<Role>)
    ensures r.Some? <==> s == "user" || s == "admin"
    ensures r.Some? ==> RoleName(r.value) == s
  {
    if s == "user" then Some(UserRole)
    else if s == "admin" then Some(AdminRole)
    else None
  }

  /** The account `type` column: ENUM('ahorro', 'corriente', 'cdt'). */
  datatype AccountType = Ahorro | Corriente | Cdt

  function AccountTypeName(k: AccountType): string {
    match k
    case Ahorro => "ahorro"
    case Corriente => "corriente"
    case Cdt => "cdt"
  }

  function ParseAccountType(s: string): (r: Option<AccountType>)
    ensures r.Some? <==> s == "ahorro" || s == "corriente" || s == "cdt"
    ensures r.Some? ==> AccountTypeName(r.value) == s
  {
    if s == "ahorro" then Some(Ahorro)
    else if s == "corriente" then Some(Corriente)
    else if s == "cdt" then Some(Cdt)
    else None
  }

  /** The transaction `type` column: ENUM('consignacion', 'retiro'), a deposit or a withdrawal. */
  datatype TxType = Consignacion | Retiro

  function TxTypeName(k: TxType): string {
    match k
    case Consignacion => "consignacion"
    case Retiro => "retiro"
  }

  function ParseTxType(s: string): (r: Option<TxType>)
    ensures r.Some? <==> s == "consignacion" || s == "retiro"
    ensures r.Some? ==> TxTypeName(r.value) == s
  {
    if s == "consignacion" then Some(Consignacion)
    else if s == "retiro" then Some(Retiro)
    else None
  }

  /** A row of `users`; `password` holds the bcrypt hash, never the password. */
  datatype User = User(id: string, name: string, password: string, role: Role, createdAt: string)

  /** A user as the handlers return it: the row without its `password` field. */
  datatype PublicUser = PublicUser(id: string, name: string, role: Role, createdAt: string)

  function Strip(u: User): PublicUser {
    PublicUser(u.id, u.name, u.role, u.createdAt)
  }

  /** A row of `accounts`; money is an exact integer here, not a FLOAT. */
  datatype Account = Account(id: string, userId: string, kind: AccountType, balance: int, createdAtText: string)

  /** A row of `transactions`. */
  datatype Transaction = Transaction(id: int, accountId: string, kind: TxType, amount: int, date: string, description: string)

  /** The whole store. Transaction ids come from the counter `nextTxId`. */
  datatype Db = Db(users: map<string, User>, accounts: map<string, Account>, txs: map<int, Transaction>, nextTxId: nat)

  function Empty(): Db {
    Db(map[], map[], map[], 0)
  }

  /** The integrity every reachable state has. From the schema: each key is
      its row's primary key, every account's owner exists and every
      transaction's account exists (the two foreign keys). From the handlers'
      `!id`/`!name` checks: user and account ids and user names are non-empty.
      From this model's id counter: transaction ids lie below `nextTxId`, so
      the counter always names a free id. The two foreign keys together make
      every transaction trace through its account to a user. */
  predicate Valid(db: Db) {
    && (forall id :: id in db.users ==>
          db.users[id].id == id && id != "" && db.users[id].name != "")
    && (forall id :: id in db.accounts ==>
          db.accounts[id].id == id && id != "" && db.accounts[id].userId in db.users)
    && (forall n :: n in db.txs ==>
          db.txs[n].id == n && 0 <= n < db.nextTxId && db.txs[n].accountId in db.accounts)
  }

  /** A corollary of `Valid`, spelled out: in every valid state the counter
      names a free transaction id, and every transaction traces through its
      account to an existing user. */
  lemma ValidRowsTraceToUsers(db: Db)
    requires Valid(db)
    ensures db.nextTxId !in db.txs
    ensures forall n :: n in db.txs ==>
              db.txs[n].accountId in db.accounts && db.accounts[db.txs[n].accountId].userId in db.users
  {
  }

  /** The errors the handlers answer with, one per HTTP status and message. */
  datatype ApiError =
    | MissingData        // 400, a required field is falsy
    | InsufficientFunds  // 400, 'Saldo insuficiente'
    | BadCredentials     // 401
    | Forbidden          // 403
    | NotFound           // 404
    | Conflict           // 409, the primary key is taken
    | Internal           // 500, the store refused the write

  datatype Reply<+T> = Ok(value: T) | Fail(error: ApiError)

  /** One handler's answer together with the store it leaves behind. */
  datatype Step<+T> = Step(reply: Reply<T>, db: Db)
}
