/** The credential check and the session ledger: `authenticate_user` and
    `is_user_authenticated`. */
module Sessions {
  import opened Store

  /** Sessions last 24 hours from issue; the clock counts seconds. */
  const SessionDuration: nat := 24 * 60 * 60

  /** A session row that would pass the query's WHERE clause for `facebookId`
      at time `now`: same sender, `expires_at` strictly after now. */
  predicate Live(s: Session, facebookId: string, now: int)
  {
    s.facebookId == facebookId && s.expiresAt > now
  }

  /** The row the query returns (`ORDER BY created_at DESC LIMIT 1`): the
      index of the most recently inserted live session of `facebookId`. */
  function LatestLiveSession(sessions: seq<Session>, facebookId: string, now: int): (r: Option<nat>)
    ensures r.Some? ==> r.value < |sessions| && Live(sessions[r.value], facebookId, now)
    ensures r.Some? ==> forall j :: r.value < j < |sessions| ==> !Live(sessions[j], facebookId, now)
    ensures r.None? <==> forall j :: 0 <= j < |sessions| ==> !Live(sessions[j], facebookId, now)
  {
    if sessions == [] then None
    else if Live(sessions[|sessions| - 1], facebookId, now) then Some(|sessions| - 1)
    else LatestLiveSession(sessions[..|sessions| - 1], facebookId, now)
  }

  /** Some user row currently carries `facebookId` (the query's JOIN). */
  predicate FacebookIdBound(users: map<string, User>, facebookId: string)
  {
    exists u :: u in users && users[u].facebookId == facebookId
  }

  /** `is_user_authenticated`: the sender has a session that has not expired
      and some user row still carries the sender's id. */
  predicate IsUserAuthenticated(st: Store, facebookId: string, now: int): (r: bool)
    ensures r <==> (exists i :: 0 <= i < |st.sessions| && Live(st.sessions[i], facebookId, now))
                   && FacebookIdBound(st.users, facebookId)
  {
    LatestLiveSession(st.sessions, facebookId, now).Some? && FacebookIdBound(st.users, facebookId)
  }

  /** What `authenticate_user` returns; `IntegrityError` stands for the
      exception SQLite raises when the UPDATE would give a second user the
      same `facebook_id`. */
  datatype LoginResult = LoginResult(success: bool, message: string) | IntegrityError(detail: string)

  const InvalidCredentials: string := "Invalid credentials"
  const AuthenticationSuccessful: string := "Authentication successful"
  const UniqueFacebookIdViolation: string := "UNIQUE constraint failed: users.facebook_id"

  /** The credential check: the username exists and the password matches its hash. */
  predicate ValidCredentials(users: map<string, User>, username: string, password: string): (r: bool)
    ensures r <==> username in users && users[username].passwordHash == GeneratePasswordHash(password)
  {
    username in users && CheckPasswordHash(users[username].passwordHash, password)
  }

  /** The session `authenticate_user` inserts for `facebookId` at `now`. */
  function NewSession(facebookId: string, now: int): Session
  {
    Session(facebookId, SessionToken(facebookId, now), now + SessionDuration, now)
  }

  /** `authenticate_user`: the new store and the returned pair. */
  function AuthenticateUser(st: Store, facebookId: string, username: string, password: string, now: int)
    : (r: (Store, LoginResult))
    ensures r.0.items == st.items && r.0.logs == st.logs && r.0.users.Keys == st.users.Keys
    ensures r.1 == LoginResult(true, AuthenticationSuccessful)
        <==> ValidCredentials(st.users, username, password) && !FacebookIdTaken(st.users, facebookId, username)
    ensures r.1 != LoginResult(true, AuthenticationSuccessful) ==> r.0 == st
    ensures r.1.IntegrityError? ==> r.1.detail == UniqueFacebookIdViolation
  {
    if !ValidCredentials(st.users, username, password) then
      (st, LoginResult(false, InvalidCredentials))
    else if FacebookIdTaken(st.users, facebookId, username) then
      (st, IntegrityError(UniqueFacebookIdViolation))
    else
      var user := st.users[username].(facebookId := facebookId, lastLogin := Some(now));
      (st.(users := st.users[username := user], sessions := st.sessions + [NewSession(facebookId, now)]),
       LoginResult(true, AuthenticationSuccessful))
  }

  /** Unknown username or wrong password: "Invalid credentials", and users
      and sessions stay as they were. Otherwise the user is rebound to the
      sender and exactly one session, expiring 24 hours later, is appended —
      unless another user already holds the sender id, in which case the
      store is unchanged and the UNIQUE constraint fails. */
  lemma AuthenticateUserOutcomes(st: Store, facebookId: string, username: string, password: string, now: int)
    ensures var (st', r) := AuthenticateUser(st, facebookId, username, password, now);
      && st'.items == st.items && st'.logs == st.logs
      && (r == LoginResult(false, InvalidCredentials) <==> !ValidCredentials(st.users, username, password))
      && (r.IntegrityError? <==>
            ValidCredentials(st.users, username, password) && FacebookIdTaken(st.users, facebookId, username))
      && (r == LoginResult(true, AuthenticationSuccessful) <==>
            ValidCredentials(st.users, username, password) && !FacebookIdTaken(st.users, facebookId, username))
      && (r.IntegrityError? || r.success || r.message == InvalidCredentials)
      && (!(r.LoginResult? && r.success) ==> st' == st)
      && (r.LoginResult? && r.success ==>
            && st'.sessions == st.sessions + [NewSession(facebookId, now)]
            && st'.users.Keys == st.users.Keys
            && st'.users[username].facebookId == facebookId
            && st'.users[username].lastLogin == Some(now)
            && st'.users[username].passwordHash == st.users[username].passwordHash
            && forall u :: u in st.users && u != username ==> st'.users[u] == st.users[u])
  {
  }

  /** A login keeps sender ids unique. */
  lemma AuthenticateUserKeepsUnique(st: Store, facebookId: string, username: string, password: string, now: int)
    requires UniqueFacebookIds(st.users)
    ensures UniqueFacebookIds(AuthenticateUser(st, facebookId, username, password, now).0.users)
  {
  }

  /** A live session found before an append is still live after it. */
  lemma {:induction false} LiveSurvivesAppend(sessions: seq<Session>, s: Session, facebookId: string, now: int)
    ensures LatestLiveSession(sessions + [s], facebookId, now).Some?
        <==> LatestLiveSession(sessions, facebookId, now).Some? || Live(s, facebookId, now)
  {
    var all := sessions + [s];
    if LatestLiveSession(sessions, facebookId, now).Some? {
      var i := LatestLiveSession(sessions, facebookId, now).value;
      assert all[i] == sessions[i];
    } else if !Live(s, facebookId, now) {
      forall j | 0 <= j < |all| ensures !Live(all[j], facebookId, now) {
        if j < |sessions| { assert all[j] == sessions[j]; }
      }
    }
  }

  /** The session window: after a successful login at time `t`, the sender is
      authenticated at every `t'` with t <= t' < t + 24h, and from t + 24h on
      the new session counts for nothing — the sender is authenticated then
      exactly when an older session of theirs is still live. */
  lemma {:induction false} SessionWindow(st: Store, facebookId: string, username: string, password: string, t: int, t': int)
    requires AuthenticateUser(st, facebookId, username, password, t).1 == LoginResult(true, AuthenticationSuccessful)
    requires t <= t'
    ensures var st' := AuthenticateUser(st, facebookId, username, password, t).0;
      (IsUserAuthenticated(st', facebookId, t') <==>
       t' < t + SessionDuration || LatestLiveSession(st.sessions, facebookId, t').Some?)
  {
    var st' := AuthenticateUser(st, facebookId, username, password, t).0;
    assert st'.users[username].facebookId == facebookId;
    assert FacebookIdBound(st'.users, facebookId);
    LiveSurvivesAppend(st.sessions, NewSession(facebookId, t), facebookId, t');
  }

  /** Rebinding a username to a new sender ends the old sender's
      authentication: their sessions remain, but no user row carries their id
      any more. */
  lemma {:induction false} RebindRevokesPreviousSender(
    st: Store, facebookId: string, username: string, password: string, now: int, later: int)
    requires UniqueFacebookIds(st.users)
    requires username in st.users && st.users[username].facebookId != facebookId
    requires AuthenticateUser(st, facebookId, username, password, now).1.LoginResult?
    requires AuthenticateUser(st, facebookId, username, password, now).1.success
    ensures !IsUserAuthenticated(AuthenticateUser(st, facebookId, username, password, now).0,
                                 st.users[username].facebookId, later)
  {
    var previous := st.users[username].facebookId;
    var st' := AuthenticateUser(st, facebookId, username, password, now).0;
    forall u | u in st'.users ensures st'.users[u].facebookId != previous {
      if u != username {
        assert st'.users[u] == st.users[u];
      }
    }
  }
}
