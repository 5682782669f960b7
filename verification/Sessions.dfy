/**
 Login with lockout, and refresh-token sessions with single-use rotation (internal/auth/jwt.go).

 bcrypt, SHA-256, JWT signing and the random source are parameters. Each call is one atomic step with
 one reading of the clock; a failing database statement has no effect.
 */
module Sessions {
  import opened Common
  import opened AsciiStrings

  /** Fifteen minutes, in nanoseconds. */
  const LOCK_TIME := 15 * 60 * 1_000_000_000
  const MAX_FAILED := 5

  datatype User = User(
    id: string,
    email: string,
    passwordHash: string,
    status: string,
    failedLogins: nat,
    lockedUntil: Option<int>,
    lastLogin: Option<(int, string)>)

  datatype Session = Session(
    sessionId: string,
    userId: string,
    refreshHash: string,
    ip: string,
    expiresAt: int,
    revokedAt: Option<int>,
    revokeReason: string)

  /** The two tables, in primary-key order. */
  datatype Db = Db(users: seq<User>, sessions: seq<Session>)

  datatype Config = Config(verifyPassword: (string, string) -> bool, hashRefresh: string -> string, refreshTtl: int)

  /** What the random source hands out for one new session. */
  datatype Minted = Minted(sessionId: string, refreshToken: string)

  /** Which of a call's statements the database refuses. */
  datatype Faults = Faults(lookup: bool, save: bool, create: bool)

  /** A token pair; the access token is represented by its claims' session. */
  datatype TokenPair = TokenPair(accessSession: string, refreshToken: string)

  datatype Error = InvalidCredentials | LookupFailed | UserNotFound | UserSuspended | UserLocked | InvalidToken
                 | SessionRevoked | RevokeFailed | CreateFailed

  datatype Result = Issued(pair: TokenPair) | Failed(error: Error)

  /** UserSession.IsActive */
  predicate IsActive(s: Session, now: int) {
    s.revokedAt.None? && now < s.expiresAt
  }

  /** SELECT ... WHERE email = ?, from index `from` on. */
  function ByEmail(users: seq<User>, email: string, from: nat := 0): (i: Option<nat>)
    requires from <= |users|
    ensures i.Some? ==> i.value < |users| && users[i.value].email == email
    decreases |users| - from
  {
    if from == |users| then None
    else if users[from].email == email then Some(from)
    else ByEmail(users, email, from + 1)
  }

  function ById(users: seq<User>, id: string, from: nat := 0): (i: Option<nat>)
    requires from <= |users|
    ensures i.Some? ==> i.value < |users| && users[i.value].id == id
    decreases |users| - from
  {
    if from == |users| then None
    else if users[from].id == id then Some(from)
    else ById(users, id, from + 1)
  }

  function ByHash(sessions: seq<Session>, h: string, from: nat := 0): (i: Option<nat>)
    requires from <= |sessions|
    ensures i.Some? ==> i.value < |sessions| && sessions[i.value].refreshHash == h
    ensures i.None? ==> forall k :: from <= k < |sessions| ==> sessions[k].refreshHash != h
    decreases |sessions| - from
  {
    if from == |sessions| then None
    else if sessions[from].refreshHash == h then Some(from)
    else ByHash(sessions, h, from + 1)
  }

  function BySessionId(sessions: seq<Session>, id: string, from: nat := 0): (i: Option<nat>)
    requires from <= |sessions|
    ensures i.Some? ==> i.value < |sessions| && sessions[i.value].sessionId == id
    ensures i.None? ==> forall k :: from <= k < |sessions| ==> sessions[k].sessionId != id
    decreases |sessions| - from
  {
    if from == |sessions| then None
    else if sessions[from].sessionId == id then Some(from)
    else BySessionId(sessions, id, from + 1)
  }

  // ---------------------------------------------------------------------------
  // The calls as steps of the tables
  // ---------------------------------------------------------------------------

  /** issueTokens: a new session, unless the database or the unique index on session_id refuses it. */
  function IssueTokens(cfg: Config, db: Db, userId: string, ip: string, now: int, minted: Minted, fault: bool)
    : (Result, Db)
  {
    if fault || BySessionId(db.sessions, minted.sessionId).Some? then (Failed(CreateFailed), db)
    else
      var s := Session(minted.sessionId, userId, cfg.hashRefresh(minted.refreshToken), ip,
                       now + cfg.refreshTtl, None, "");
      (Issued(TokenPair(minted.sessionId, minted.refreshToken)), db.(sessions := db.sessions + [s]))
  }

  /** A wrong password: the fifth and every later one locks the account. */
  function Penalised(u: User, now: int): User {
    var failed := u.failedLogins + 1;
    u.(failedLogins := failed, lockedUntil := if failed >= MAX_FAILED then Some(now + LOCK_TIME) else u.lockedUntil)
  }

  function Welcomed(u: User, now: int, ip: string): User {
    u.(failedLogins := 0, lockedUntil := None, lastLogin := Some((now, ip)))
  }

  predicate Locked(u: User, now: int) {
    u.lockedUntil.Some? && u.lockedUntil.value > now
  }

  function LoginStep(cfg: Config, db: Db, email: string, password: string, ip: string, now: int, minted: Minted,
                     faults: Faults)
    : (Result, Db)
  {
    if faults.lookup then (Failed(LookupFailed), db)
    else
      match ByEmail(db.users, ToLower(TrimSpace(email)))
      case None => (Failed(InvalidCredentials), db)
      case Some(i) =>
        var u := db.users[i];
        if u.status != "active" then (Failed(UserSuspended), db)
        else if Locked(u, now) then (Failed(UserLocked), db)
        else if !cfg.verifyPassword(u.passwordHash, password) then
          (Failed(InvalidCredentials), if faults.save then db else db.(users := db.users[i := Penalised(u, now)]))
        else
          var saved := if faults.save then db else db.(users := db.users[i := Welcomed(u, now, ip)]);
          IssueTokens(cfg, saved, u.id, ip, now, minted, faults.create)
  }

  function RefreshStep(cfg: Config, db: Db, token: string, ip: string, now: int, minted: Minted, faults: Faults)
    : (Result, Db)
  {
    if token == "" then (Failed(InvalidToken), db)
    else if faults.lookup then (Failed(InvalidToken), db)
    else
      match ByHash(db.sessions, cfg.hashRefresh(token))
      case None => (Failed(InvalidToken), db)
      case Some(i) =>
        var s := db.sessions[i];
        if !IsActive(s, now) then (Failed(SessionRevoked), db)
        else
          match ById(db.users, s.userId)
          case None => (Failed(UserNotFound), db)
          case Some(k) =>
            if db.users[k].status != "active" then (Failed(UserSuspended), db)
            else if faults.save then (Failed(RevokeFailed), db)
            else
              var rotated := s.(revokedAt := Some(now), revokeReason := "rotated");
              IssueTokens(cfg, db.(sessions := db.sessions[i := rotated]),
                          db.users[k].id, ip, now, minted, faults.create)
  }

  /** The sessions after an UPDATE of the one with this session id, revoked before or not. */
  function Revoked(sessions: seq<Session>, id: string, now: int): (r: seq<Session>)
    ensures |r| == |sessions|
    ensures forall k :: 0 <= k < |r| ==>
              r[k] == if sessions[k].sessionId == id then sessions[k].(revokedAt := Some(now), revokeReason := "logout")
                      else sessions[k]
  {
    if sessions == [] then []
    else
      var s := sessions[0];
      [if s.sessionId == id then s.(revokedAt := Some(now), revokeReason := "logout") else s]
      + Revoked(sessions[1..], id, now)
  }

  /** Logout of the given claims' session; empty claims do nothing. */
  function LogoutStep(db: Db, sessionId: string, now: int, fault: bool): Db {
    if sessionId == "" || fault then db else db.(sessions := Revoked(db.sessions, sessionId, now))
  }

  /** VerifyAndCheckSession, for a token whose signature and expiry are in order. */
  predicate Accepts(db: Db, accessSession: string, now: int) {
    match BySessionId(db.sessions, accessSession)
    case None => false
    case Some(i) => IsActive(db.sessions[i], now)
  }

  // ---------------------------------------------------------------------------
  // The service
  // ---------------------------------------------------------------------------

  class Service {
    const cfg: Config
    var users: seq<User>
    var sessions: seq<Session>

    function Tables(): Db
      reads this
    {
      Db(users, sessions)
    }

    constructor (cfg: Config, db: Db)
      ensures this.cfg == cfg && Tables() == db
    {
      this.cfg := cfg;
      users, sessions := db.users, db.sessions;
    }

    method Issue(userId: string, ip: string, now: int, minted: Minted, fault: bool) returns (r: Result)
      modifies this`sessions
      ensures (r, Tables()) == IssueTokens(cfg, old(Tables()), userId, ip, now, minted, fault)
    {
      if fault || BySessionId(sessions, minted.sessionId).Some? {
        return Failed(CreateFailed);
      }
      var s := Session(minted.sessionId, userId, cfg.hashRefresh(minted.refreshToken), ip,
                       now + cfg.refreshTtl, None, "");
      sessions := sessions + [s];
      return Issued(TokenPair(minted.sessionId, minted.refreshToken));
    }

    method Login(email: string, password: string, ip: string, now: int, minted: Minted, faults: Faults)
      returns (r: Result)
      modifies this
      ensures (r, Tables()) == LoginStep(cfg, old(Tables()), email, password, ip, now, minted, faults)
    {
      var normalised := ToLower(TrimSpace(email));
      if faults.lookup {
        return Failed(LookupFailed);
      }
      var found := ByEmail(users, normalised);
      if found.None? {
        return Failed(InvalidCredentials);
      }
      var user := users[found.value];
      if user.status != "active" {
        return Failed(UserSuspended);
      }
      if user.lockedUntil.Some? && user.lockedUntil.value > now {
        return Failed(UserLocked);
      }
      if !cfg.verifyPassword(user.passwordHash, password) {
        user := user.(failedLogins := user.failedLogins + 1);
        if user.failedLogins >= MAX_FAILED {
          user := user.(lockedUntil := Some(now + LOCK_TIME));
        }
        if !faults.save {
          users := users[found.value := user];
        }
        return Failed(InvalidCredentials);
      }
      user := user.(failedLogins := 0);
      user := user.(lockedUntil := None);
      user := user.(lastLogin := Some((now, ip)));
      if !faults.save {
        users := users[found.value := user];
      }
      r := Issue(user.id, ip, now, minted, faults.create);
    }

    method Refresh(token: string, ip: string, now: int, minted: Minted, faults: Faults) returns (r: Result)
      modifies this
      ensures (r, Tables()) == RefreshStep(cfg, old(Tables()), token, ip, now, minted, faults)
    {
      if token == "" || faults.lookup {
        return Failed(InvalidToken);
      }
      var found := ByHash(sessions, cfg.hashRefresh(token));
      if found.None? {
        return Failed(InvalidToken);
      }
      var session := sessions[found.value];
      if !IsActive(session, now) {
        return Failed(SessionRevoked);
      }
      var owner := ById(users, session.userId);
      if owner.None? {
        return Failed(UserNotFound);
      }
      if users[owner.value].status != "active" {
        return Failed(UserSuspended);
      }
      if faults.save {
        return Failed(RevokeFailed);
      }
      var rotated := session.(revokedAt := Some(now));
      rotated := rotated.(revokeReason := "rotated");
      sessions := sessions[found.value := rotated];
      r := Issue(users[owner.value].id, ip, now, minted, faults.create);
    }

    method Logout(sessionId: string, now: int, fault: bool) returns (ok: bool)
      modifies this`sessions
      ensures ok == (sessionId == "" || !fault) && Tables() == LogoutStep(old(Tables()), sessionId, now, fault)
    {
      if sessionId == "" {
        return true;
      }
      if fault {
        return false;
      }
      sessions := Revoked(sessions, sessionId, now);
      return true;
    }

    method VerifyAndCheckSession(accessSession: string, now: int) returns (ok: bool)
      ensures ok == Accepts(Tables(), accessSession, now)
    {
      var found := BySessionId(sessions, accessSession);
      ok := found.Some? && IsActive(sessions[found.value], now);
    }
  }
}
