/** The user directory: the idempotent admin bootstrap, registration, login,
    the admin-only listing, self-or-admin updates and the admin-only delete
    that cascades to the user's accounts. Password hashing is the external
    capability `hash`/`verify`, passed in as functions. */
module Users {
  import opened Models
  import opened Guard
  import opened Ledger

  const AdminId: string := "admin"

  /** The bootstrap admin row, its password hashed from 'admin123'. */
  function AdminUser(hash: string -> string, now: string): User {
    User(AdminId, "Administrador", hash("admin123"), AdminRole, now)
  }

  /** createAdminIfNotExists: adds the admin row only when no user has id 'admin'. */
  function CreateAdminIfNotExists(db: Db, hash: string -> string, now: string): (r: Db)
    ensures AdminId in r.users
    ensures AdminId in db.users ==> r == db
    ensures AdminId !in db.users ==> r == db.(users := db.users[AdminId := AdminUser(hash, now)])
    ensures AdminId !in db.users ==> r.users[AdminId].role == AdminRole
  {
    if AdminId in db.users then db
    else db.(users := db.users[AdminId := AdminUser(hash, now)])
  }

  /** Running the bootstrap a second time changes nothing, and it keeps integrity. */
  lemma BootstrapIdempotent(db: Db, hash: string -> string, now: string, later: string)
    requires Valid(db)
    ensures var once := CreateAdminIfNotExists(db, hash, now);
            && Valid(once)
            && CreateAdminIfNotExists(once, hash, later) == once
  {
  }

  /** The role a new user gets: 'admin' only when both the body and the
      caller's query ask for it. */
  function GrantedRole(role: Option<string>, queryRole: Option<string>): Role {
    if role == Some("admin") && IsAdmin(queryRole) then AdminRole else UserRole
  }

  /** createUser: 400 without id, name or password; 409 for a taken id;
      otherwise the new row with the hashed password, returned without it. */
  function CreateUser(db: Db, id: Option<string>, name: Option<string>, password: Option<string>,
                      role: Option<string>, queryRole: Option<string>,
                      hash: string -> string, now: string): (r: Step<PublicUser>)
    ensures r.reply.Fail? ==> r.db == db
    ensures r.reply == Fail(MissingData) <==> !Given(id) || !Given(name) || !Given(password)
    ensures r.reply == Fail(Conflict) <==> Given(id) && Given(name) && Given(password) && id.value in db.users
    ensures r.reply.Fail? ==> r.reply.error == MissingData || r.reply.error == Conflict
    ensures r.reply.Ok? ==>
              Given(id) && id.value in r.db.users &&
              var u := r.db.users[id.value];
              && r.db == db.(users := db.users[id.value := u])
              && u.id == id.value && u.name == name.value && u.password == hash(password.value)
              && u.createdAt == now
              && (u.role == AdminRole <==> role == Some("admin") && queryRole == Some("admin"))
              && r.reply.value == Strip(u)
  {
    if !Given(id) || !Given(name) || !Given(password) then Step(Fail(MissingData), db)
    else if id.value in db.users then Step(Fail(Conflict), db)
    else
      var u := User(id.value, name.value, hash(password.value), GrantedRole(role, queryRole), now);
      Step(Ok(Strip(u)), db.(users := db.users[id.value := u]))
  }

  /** createUser keeps integrity and touches neither accounts nor transactions. */
  lemma CreateUserKeepsLedger(db: Db, id: Option<string>, name: Option<string>, password: Option<string>,
                              role: Option<string>, queryRole: Option<string>,
                              hash: string -> string, now: string)
    requires Valid(db)
    ensures var r := CreateUser(db, id, name, password, role, queryRole, hash, now);
            Valid(r.db) && r.db.accounts == db.accounts && r.db.txs == db.txs && r.db.nextTxId == db.nextTxId
  {
  }

  /** login: 400 without id or password, 404 for an unknown id, 401 when the
      password does not verify against the stored hash; otherwise the stored
      user without its password. */
  function Login(db: Db, id: Option<string>, password: Option<string>, verify: (string, string) -> bool)
    : (r: Reply<PublicUser>)
    ensures r == Fail(MissingData) <==> !Given(id) || !Given(password)
    ensures r == Fail(NotFound) <==> Given(id) && Given(password) && id.value !in db.users
    ensures r == Fail(BadCredentials) <==>
              Given(id) && Given(password) && id.value in db.users
              && !verify(password.value, db.users[id.value].password)
    ensures r.Ok? <==>
              Given(id) && Given(password) && id.value in db.users
              && verify(password.value, db.users[id.value].password)
    ensures r.Ok? ==> Given(id) && id.value in db.users && r.value == Strip(db.users[id.value])
  {
    if !Given(id) || !Given(password) then Fail(MissingData)
    else if id.value !in db.users then Fail(NotFound)
    else if !verify(password.value, db.users[id.value].password) then Fail(BadCredentials)
    else Ok(Strip(db.users[id.value]))
  }

  /** A user just registered can log in with the same password, and gets back
      what registration returned, provided `verify` accepts `hash`'s output. */
  lemma RegisterThenLogin(db: Db, id: Option<string>, name: Option<string>, password: Option<string>,
                          role: Option<string>, queryRole: Option<string>,
                          hash: string -> string, verify: (string, string) -> bool, now: string)
    requires Given(id) && Given(name) && Given(password) && id.value !in db.users
    requires verify(password.value, hash(password.value))
    ensures var r := CreateUser(db, id, name, password, role, queryRole, hash, now);
            r.reply.Ok? && Login(r.db, id, password, verify) == Ok(r.reply.value)
  {
  }

  /** getUsers: 403 unless the caller's role is admin; otherwise every user, without passwords. */
  function GetUsers(db: Db, role: Option<string>): (r: Reply<map<string, PublicUser>>)
    ensures r.Fail? <==> !IsAdmin(role)
    ensures r.Fail? ==> r.error == Forbidden
    ensures r.Ok? ==> r.value.Keys == db.users.Keys
    ensures r.Ok? ==> forall id :: id in r.value ==> r.value[id] == Strip(db.users[id])
  {
    if !IsAdmin(role) then Fail(Forbidden)
    else Ok(map id | id in db.users :: Strip(db.users[id]))
  }

  /** updateUser: 404 for an unknown user (checked first), 403 when a
      non-admin edits someone else; a falsy name keeps the old one, and the
      role changes only at an admin's request (500, nothing written, when the
      new role is outside the enumeration). */
  function UpdateUser(db: Db, userId: string, name: Option<string>, role: Option<string>,
                      actor: Option<string>, requestRole: Option<string>): (r: Step<PublicUser>)
    ensures r.reply.Fail? ==> r.db == db
    ensures r.reply == Fail(NotFound) <==> userId !in db.users
    ensures r.reply == Fail(Forbidden) <==> userId in db.users && !Allows(requestRole, actor, userId)
    ensures r.reply.Ok? <==>
              userId in db.users && Allows(requestRole, actor, userId)
              && (Given(role) && IsAdmin(requestRole) ==> ParseRole(role.value).Some?)
    ensures r.reply == Fail(Internal) <==>
              userId in db.users && Allows(requestRole, actor, userId)
              && Given(role) && IsAdmin(requestRole) && ParseRole(role.value).None?
    ensures r.reply.Ok? ==>
              userId in db.users && userId in r.db.users &&
              var before := db.users[userId];
              var u := r.db.users[userId];
              && r.db == db.(users := db.users[userId := u])
              && u == before.(name := u.name, role := u.role)
              && u.name == (if Given(name) then name.value else before.name)
              && (!(Given(role) && IsAdmin(requestRole)) ==> u.role == before.role)
              && (Given(role) && IsAdmin(requestRole) ==> RoleName(u.role) == role.value)
              && r.reply.value == Strip(u)
  {
    if userId !in db.users then Step(Fail(NotFound), db)
    else if !Allows(requestRole, actor, userId) then Step(Fail(Forbidden), db)
    else
      var u := db.users[userId].(name := OrElse(name, db.users[userId].name));
      if Given(role) && IsAdmin(requestRole) then
        match ParseRole(role.value)
        case None => Step(Fail(Internal), db)
        case Some(newRole) =>
          var u' := u.(role := newRole);
          Step(Ok(Strip(u')), db.(users := db.users[userId := u']))
      else Step(Ok(Strip(u)), db.(users := db.users[userId := u]))
  }

  /** updateUser keeps integrity and touches neither accounts nor transactions. */
  lemma UpdateUserKeepsLedger(db: Db, userId: string, name: Option<string>, role: Option<string>,
                              actor: Option<string>, requestRole: Option<string>)
    requires Valid(db)
    ensures var r := UpdateUser(db, userId, name, role, actor, requestRole);
            Valid(r.db) && r.db.accounts == db.accounts && r.db.txs == db.txs && r.db.nextTxId == db.nextTxId
  {
  }

  /** The accounts that remain once `userId`'s are gone. */
  function WithoutOwner(accounts: map<string, Account>, userId: string): map<string, Account> {
    map id | id in accounts && accounts[id].userId != userId :: accounts[id]
  }

  /** The transactions that remain once the accounts outside `kept` are gone. */
  function WithinAccounts(txs: map<int, Transaction>, kept: map<string, Account>): map<int, Transaction> {
    map k | k in txs && txs[k].accountId in kept :: txs[k]
  }

  /** deleteUser: 403 for a non-admin, 403 for the bootstrap admin, 404 for an
      unknown user; otherwise the user, every account it owns and (by the
      foreign key's cascade) every transaction of those accounts are gone. */
  function DeleteUser(db: Db, userId: string, role: Option<string>): (r: Step<()>)
    ensures r.reply.Fail? ==> r.db == db
    ensures r.reply == Fail(Forbidden) <==> !IsAdmin(role) || userId == AdminId
    ensures r.reply == Fail(NotFound) <==> IsAdmin(role) && userId != AdminId && userId !in db.users
    ensures r.reply.Ok? <==> IsAdmin(role) && userId != AdminId && userId in db.users
    ensures r.reply.Ok? ==>
              && r.db.users.Keys == db.users.Keys - {userId}
              && r.db.accounts.Keys <= db.accounts.Keys
              && r.db.txs.Keys <= db.txs.Keys
              && (forall u :: u in r.db.users ==> r.db.users[u] == db.users[u])
              && (forall a :: a in db.accounts ==>
                    (a in r.db.accounts <==> db.accounts[a].userId != userId)
                    && (a in r.db.accounts ==> r.db.accounts[a] == db.accounts[a]))
              && (forall k :: k in db.txs ==>
                    (k in r.db.txs <==> db.txs[k].accountId in r.db.accounts)
                    && (k in r.db.txs ==> r.db.txs[k] == db.txs[k]))
              && r.db.nextTxId == db.nextTxId
  {
    if !IsAdmin(role) then Step(Fail(Forbidden), db)
    else if userId == AdminId then Step(Fail(Forbidden), db)
    else if userId !in db.users then Step(Fail(NotFound), db)
    else
      var accounts := WithoutOwner(db.accounts, userId);
      Step(Ok(()), db.(users := db.users - {userId}, accounts := accounts, txs := WithinAccounts(db.txs, accounts)))
  }

  /** deleteUser keeps integrity (no account outlives its owner, no row its
      account) and the drift of every account that remains. */
  lemma DeleteUserKeepsLedger(db: Db, userId: string, role: Option<string>)
    requires Valid(db)
    ensures var r := DeleteUser(db, userId, role);
            && Valid(r.db)
            && forall id :: id in r.db.accounts ==> id in db.accounts && Drift(r.db, id) == Drift(db, id)
  {
    var r := DeleteUser(db, userId, role);
    forall id | id in r.db.accounts
      ensures Net(r.db.txs, id, r.db.nextTxId) == Net(db.txs, id, db.nextTxId)
    {
      NetFrame(db.txs, r.db.txs, id, db.nextTxId);
    }
  }
}
