/** The four SQLite tables of the bot (users, items, command_logs,
    user_sessions) as values, the administrator seed and the audit log. */
module Store {

  datatype Option<T> = None | Some(value: T)

  /** A werkzeug password hash, kept abstract: it records the password it was
      generated from, and checking a candidate compares against that. */
  datatype PasswordHash = PasswordHash(secret: string)

  function GeneratePasswordHash(password: string): PasswordHash
  {
    PasswordHash(password)
  }

  predicate CheckPasswordHash(hash: PasswordHash, password: string)
  {
    hash.secret == password
  }

  /** A row of `users`, keyed by its unique username. */
  datatype User = User(facebookId: string, passwordHash: PasswordHash, lastLogin: Option<int>)

  /** A row of `items`, keyed by its unique item id. */
  datatype Item = Item(name: string, count: nat, createdAt: int, updatedAt: int)

  /** The material the session token is hashed from: the sender and the time
      of issue. */
  datatype SessionToken = SessionToken(facebookId: string, issuedAt: int)

  /** A row of `user_sessions`; rows are kept in insertion order. */
  datatype Session = Session(facebookId: string, token: SessionToken, expiresAt: int, createdAt: int)

  /** A row of `command_logs`. */
  datatype LogRecord = LogRecord(
    facebookId: string,
    command: string,
    parameters: Option<string>,
    success: bool,
    errorMessage: Option<string>,
    timestamp: int)

  /** The whole database. */
  datatype Store = Store(
    users: map<string, User>,
    items: map<string, Item>,
    logs: seq<LogRecord>,
    sessions: seq<Session>)

  const AdminUsername: string := "admin"
  const AdminFacebookId: string := "admin_fb_id"
  const AdminPassword: string := "admin123"

  /** `facebook_id` is declared UNIQUE: no two users carry the same sender id. */
  ghost predicate UniqueFacebookIds(users: map<string, User>)
  {
    forall u, v :: u in users && v in users && u != v ==> users[u].facebookId != users[v].facebookId
  }

  /** Some user other than `username` already carries `facebookId`. */
  predicate FacebookIdTaken(users: map<string, User>, facebookId: string, username: string)
  {
    exists u :: u in users && u != username && users[u].facebookId == facebookId
  }

  const EmptyStore: Store := Store(map[], map[], [], [])

  /** The administrator row `init_database` inserts when there is no user
      named admin; `None` when that INSERT would violate the UNIQUE
      constraint on `facebook_id`. */
  function SeedAdmin(st: Store): (r: Option<Store>)
    ensures r.None? <==> AdminUsername !in st.users && FacebookIdTaken(st.users, AdminFacebookId, AdminUsername)
    ensures r.Some? ==>
      (AdminUsername in r.value.users && r.value.items == st.items
       && r.value.logs == st.logs && r.value.sessions == st.sessions)
    ensures r.Some? && AdminUsername in st.users ==> r.value == st
    ensures r.Some? && AdminUsername !in st.users ==>
      r.value.users == st.users[AdminUsername := User(AdminFacebookId, GeneratePasswordHash(AdminPassword), None)]
  {
    if AdminUsername in st.users then Some(st)
    else if FacebookIdTaken(st.users, AdminFacebookId, AdminUsername) then None
    else Some(st.(users := st.users[AdminUsername := User(AdminFacebookId, GeneratePasswordHash(AdminPassword), None)]))
  }

  /** A freshly created database: empty tables and the administrator. */
  function SeededStore(): (st: Store)
    ensures st.users.Keys == {AdminUsername} && st.items == map[] && st.logs == [] && st.sessions == []
    ensures st.users[AdminUsername].facebookId == AdminFacebookId
    ensures CheckPasswordHash(st.users[AdminUsername].passwordHash, AdminPassword)
  {
    EmptyStore.(users := map[AdminUsername := User(AdminFacebookId, GeneratePasswordHash(AdminPassword), None)])
  }

  /** Inserting the administrator keeps sender ids unique. */
  lemma SeedAdminKeepsUnique(st: Store)
    requires UniqueFacebookIds(st.users)
    requires SeedAdmin(st).Some?
    ensures UniqueFacebookIds(SeedAdmin(st).value.users)
  {
  }

  /** `log_command`: one row appended to `command_logs`, nothing else touched. */
  function AppendLog(st: Store, facebookId: string, command: string, parameters: Option<string>,
                     success: bool, errorMessage: Option<string>, now: int): (r: Store)
    ensures r.users == st.users && r.items == st.items && r.sessions == st.sessions
    ensures |r.logs| == |st.logs| + 1 && r.logs[..|st.logs|] == st.logs
    ensures r.logs[|st.logs|] == LogRecord(facebookId, command, parameters, success, errorMessage, now)
  {
    st.(logs := st.logs + [LogRecord(facebookId, command, parameters, success, errorMessage, now)])
  }
}
