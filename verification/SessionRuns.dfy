/** What holds over every run of login, refresh and logout steps (internal/auth/jwt.go). */
module SessionRuns {
  import opened Common
  import opened AsciiStrings
  import opened Sessions

  datatype Step =
    | Login(email: string, password: string, ip: string, now: int, minted: Minted, faults: Faults)
    | Refresh(token: string, ip: string, now: int, minted: Minted, faults: Faults)
    | Logout(sessionId: string, now: int, fault: bool)

  function Next(cfg: Config, db: Db, step: Step): Db {
    match step
    case Login(email, password, ip, now, minted, faults) =>
      LoginStep(cfg, db, email, password, ip, now, minted, faults).1
    case Refresh(token, ip, now, minted, faults) => RefreshStep(cfg, db, token, ip, now, minted, faults).1
    case Logout(sessionId, now, fault) => LogoutStep(db, sessionId, now, fault)
  }

  function Run(cfg: Config, db: Db, steps: seq<Step>): Db
    decreases steps
  {
    if steps == [] then db else Run(cfg, Next(cfg, db, steps[0]), steps[1..])
  }

  // ---------------------------------------------------------------------------
  // Revoked sessions stay revoked, and their access tokens stay refused
  // ---------------------------------------------------------------------------

  /** No session is lost, renamed, extended or brought back to life. */
  ghost predicate OnlyRevokes(before: seq<Session>, after: seq<Session>) {
    && |before| <= |after|
    && forall k :: 0 <= k < |before| ==>
         && after[k].sessionId == before[k].sessionId && after[k].refreshHash == before[k].refreshHash
         && after[k].userId == before[k].userId && after[k].expiresAt == before[k].expiresAt
         && (before[k].revokedAt.Some? ==> after[k].revokedAt.Some?)
  }

  lemma {:induction false} RunOnlyRevokes(cfg: Config, db: Db, steps: seq<Step>)
    ensures OnlyRevokes(db.sessions, Run(cfg, db, steps).sessions)
    decreases steps
  {
    if steps != [] {
      StepSessions(cfg, db, steps[0]);
      hide Next;
      RunOnlyRevokes(cfg, Next(cfg, db, steps[0]), steps[1..]);
    }
  }

  lemma {:induction false} SameFirst(before: seq<Session>, after: seq<Session>, id: string, from: nat)
    requires OnlyRevokes(before, after) && from <= |before|
    requires BySessionId(before, id, from).Some?
    ensures BySessionId(after, id, from) == BySessionId(before, id, from)
    decreases |before| - from
  {
    if from < |before| && before[from].sessionId != id {
      SameFirst(before, after, id, from + 1);
    }
  }

  /**
   An access token that is refused once, because its session is revoked or expired,
   is refused at every later time of every run.
   */
  lemma RefusedStaysRefused(cfg: Config, db: Db, steps: seq<Step>, accessSession: string, now: int, later: int)
    requires BySessionId(db.sessions, accessSession).Some? && !Accepts(db, accessSession, now) && now <= later
    ensures !Accepts(Run(cfg, db, steps), accessSession, later)
  {
    RunOnlyRevokes(cfg, db, steps);
    SameFirst(db.sessions, Run(cfg, db, steps).sessions, accessSession, 0);
  }

  /** The first session with this id is revoked. */
  predicate RevokedById(db: Db, sessionId: string) {
    var i := BySessionId(db.sessions, sessionId);
    i.Some? && db.sessions[i.value].revokedAt.Some?
  }

  /** The access token of a revoked session is refused at all times and after every run. */
  lemma RevokedStaysRefused(cfg: Config, db: Db, steps: seq<Step>, sessionId: string, later: int)
    requires RevokedById(db, sessionId)
    ensures !Accepts(Run(cfg, db, steps), sessionId, later)
  {
    RunOnlyRevokes(cfg, db, steps);
    SameFirst(db.sessions, Run(cfg, db, steps).sessions, sessionId, 0);
  }

  /** After a logout the session's access token is refused for good, over every run that follows. */
  lemma LogoutRefuses(cfg: Config, db: Db, sessionId: string, now: int, steps: seq<Step>, later: int)
    requires sessionId != "" && BySessionId(db.sessions, sessionId).Some?
    ensures !Accepts(Run(cfg, LogoutStep(db, sessionId, now, false), steps), sessionId, later)
  {
    SameFirst(db.sessions, Revoked(db.sessions, sessionId, now), sessionId, 0);
    RevokedStaysRefused(cfg, LogoutStep(db, sessionId, now, false), steps, sessionId, later);
  }

  /** After a rotation the old session's access token is refused for good, over every run that follows. */
  lemma RotationRefuses(cfg: Config, db: Db, step: Step, steps: seq<Step>, later: int)
    requires step.Refresh? && Rotates(cfg, db, step)
    ensures var k := ByHash(db.sessions, cfg.hashRefresh(step.token)).value;
            BySessionId(db.sessions, db.sessions[k].sessionId) == Some(k)
            ==> !Accepts(Run(cfg, Next(cfg, db, step), steps), db.sessions[k].sessionId, later)
  {
    var k := ByHash(db.sessions, cfg.hashRefresh(step.token)).value;
    var id := db.sessions[k].sessionId;
    if BySessionId(db.sessions, id) == Some(k) {
      StepSessions(cfg, db, step);
      SameFirst(db.sessions, Next(cfg, db, step).sessions, id, 0);
      assert Next(cfg, db, step).sessions[k].revokedAt.Some?;
      RevokedStaysRefused(cfg, Next(cfg, db, step), steps, id, later);
    }
  }

  // ---------------------------------------------------------------------------
  // Session conservation
  // ---------------------------------------------------------------------------

  /** A user's sessions that are not revoked, expired ones included. */
  function Unrevoked(sessions: seq<Session>, userId: string): nat {
    if sessions == [] then 0
    else
      var s := sessions[|sessions| - 1];
      Unrevoked(sessions[..|sessions| - 1], userId) + if s.userId == userId && s.revokedAt.None? then 1 else 0
  }

  /** A user's sessions that a request could still use at time `now`. */
  function ActiveSessions(sessions: seq<Session>, userId: string, now: int): nat {
    if sessions == [] then 0
    else
      var s := sessions[|sessions| - 1];
      ActiveSessions(sessions[..|sessions| - 1], userId, now) + if s.userId == userId && IsActive(s, now) then 1 else 0
  }

  lemma {:induction false} ActiveAreUnrevoked(sessions: seq<Session>, userId: string, now: int)
    ensures ActiveSessions(sessions, userId, now) <= Unrevoked(sessions, userId)
  {
    if sessions != [] { ActiveAreUnrevoked(sessions[..|sessions| - 1], userId, now); }
  }

  /** The step is a login of this user that hands out tokens. */
  predicate LogsIn(cfg: Config, db: Db, step: Step, userId: string) {
    step.Login? &&
    var r := LoginStep(cfg, db, step.email, step.password, step.ip, step.now, step.minted, step.faults).0;
    var i := ByEmail(db.users, ToLower(TrimSpace(step.email)));
    r.Issued? && i.Some? && db.users[i.value].id == userId
  }

  function Logins(cfg: Config, db: Db, steps: seq<Step>, userId: string): nat
    decreases steps
  {
    if steps == [] then 0
    else (if LogsIn(cfg, db, steps[0], userId) then 1 else 0) + Logins(cfg, Next(cfg, db, steps[0]), steps[1..], userId)
  }

  lemma UnrevokedAppend(sessions: seq<Session>, s: Session, userId: string)
    ensures Unrevoked(sessions + [s], userId)
            == Unrevoked(sessions, userId) + if s.userId == userId && s.revokedAt.None? then 1 else 0
  {
    assert (sessions + [s])[..|sessions|] == sessions;
  }

  lemma {:induction false} UnrevokedUpdate(sessions: seq<Session>, k: nat, s: Session, userId: string)
    requires k < |sessions| && sessions[k].revokedAt.None? && s.revokedAt.Some?
    ensures Unrevoked(sessions[k := s], userId)
            == Unrevoked(sessions, userId) - if sessions[k].userId == userId then 1 else 0
  {
    var n := |sessions| - 1;
    if k == n {
      assert sessions[k := s][..n] == sessions[..n];
    } else {
      assert sessions[k := s][..n] == sessions[..n][k := s];
      UnrevokedUpdate(sessions[..n], k, s, userId);
    }
  }

  lemma {:induction false} UnrevokedShrinks(before: seq<Session>, after: seq<Session>, userId: string)
    requires OnlyRevokes(before, after) && |before| == |after|
    ensures Unrevoked(after, userId) <= Unrevoked(before, userId)
  {
    if before != [] { UnrevokedShrinks(before[..|before| - 1], after[..|before| - 1], userId); }
  }

  lemma StepConserves(cfg: Config, db: Db, step: Step, userId: string)
    ensures Unrevoked(Next(cfg, db, step).sessions, userId)
            <= Unrevoked(db.sessions, userId) + if LogsIn(cfg, db, step, userId) then 1 else 0
  {
    var after := Next(cfg, db, step).sessions;
    match step {
      case Login(_, _, _, _, _, _) =>
        if |after| > |db.sessions| {
          UnrevokedAppend(db.sessions, after[|db.sessions|], userId);
        }
      case Refresh(_, _, _, _, _) =>
        RefreshConserves(cfg, db, step, userId);
      case Logout(_, _, _) =>
        UnrevokedShrinks(db.sessions, after, userId);
    }
  }

  lemma RefreshConserves(cfg: Config, db: Db, step: Step, userId: string)
    requires step.Refresh?
    ensures Unrevoked(Next(cfg, db, step).sessions, userId) <= Unrevoked(db.sessions, userId)
  {
    var after := Next(cfg, db, step).sessions;
    if after != db.sessions {
      var k := ByHash(db.sessions, cfg.hashRefresh(step.token)).value;
      var rotated := after[k];
      var spent := db.sessions[k := rotated];
      UnrevokedUpdate(db.sessions, k, rotated, userId);
      if |after| > |spent| {
        assert after == spent + [after[|spent|]];
        UnrevokedAppend(spent, after[|spent|], userId);
      } else {
        assert after == spent;
      }
    }
  }

  /**
   Session conservation: over every run, a user's sessions that are not revoked, and so the active ones
   at any time, never outnumber the ones at the start and the user's successful logins.
   */
  lemma {:induction false} ActiveNeverOutnumberLogins(cfg: Config, db: Db, steps: seq<Step>, userId: string, now: int)
    ensures Unrevoked(Run(cfg, db, steps).sessions, userId)
        <= Unrevoked(db.sessions, userId) + Logins(cfg, db, steps, userId)
    ensures ActiveSessions(Run(cfg, db, steps).sessions, userId, now)
            <= Unrevoked(db.sessions, userId) + Logins(cfg, db, steps, userId)
    decreases steps
  {
    if steps != [] {
      StepConserves(cfg, db, steps[0], userId);
      ActiveNeverOutnumberLogins(cfg, Next(cfg, db, steps[0]), steps[1..], userId, now);
    }
    ActiveAreUnrevoked(Run(cfg, db, steps).sessions, userId, now);
  }

  // ---------------------------------------------------------------------------
  // A refresh token is exchanged once
  // ---------------------------------------------------------------------------

  /** The step exchanges its refresh token: the session behind it is revoked, whether or not a new one comes. */
  predicate Rotates(cfg: Config, db: Db, step: Step) {
    step.Refresh? && step.token != "" && !step.faults.lookup && !step.faults.save &&
    match ByHash(db.sessions, cfg.hashRefresh(step.token))
    case None => false
    case Some(k) =>
      IsActive(db.sessions[k], step.now) &&
      match ById(db.users, db.sessions[k].userId)
      case None => false
      case Some(i) => db.users[i].status == "active"
  }

  lemma OnlyRotationIssues(cfg: Config, db: Db, step: Step)
    requires step.Refresh?
    ensures RefreshStep(cfg, db, step.token, step.ip, step.now, step.minted, step.faults).0.Issued?
        ==> Rotates(cfg, db, step)
    ensures !Rotates(cfg, db, step) ==> Next(cfg, db, step) == db
  {}

  function Exchanges(cfg: Config, db: Db, steps: seq<Step>, token: string): nat
    decreases steps
  {
    if steps == [] then 0
    else (if Rotates(cfg, db, steps[0]) && steps[0].token == token then 1 else 0)
         + Exchanges(cfg, Next(cfg, db, steps[0]), steps[1..], token)
  }

  /** The random source and SHA-256: a new refresh token's hash is in no stored session. */
  ghost predicate FreshlyMinted(cfg: Config, db: Db, step: Step) {
    !step.Logout? ==> forall s :: s in db.sessions ==> s.refreshHash != cfg.hashRefresh(step.minted.refreshToken)
  }

  ghost predicate FreshRun(cfg: Config, db: Db, steps: seq<Step>)
    decreases steps
  {
    steps == [] || (FreshlyMinted(cfg, db, steps[0]) && FreshRun(cfg, Next(cfg, db, steps[0]), steps[1..]))
  }

  /** Every session with this hash is revoked, and there is one. */
  ghost predicate Spent(sessions: seq<Session>, h: string) {
    && (exists k :: 0 <= k < |sessions| && sessions[k].refreshHash == h)
    && forall k :: 0 <= k < |sessions| && sessions[k].refreshHash == h ==> sessions[k].revokedAt.Some?
  }

  ghost predicate DistinctHashes(sessions: seq<Session>) {
    forall i, j :: 0 <= i < j < |sessions| ==> sessions[i].refreshHash != sessions[j].refreshHash
  }

  /** What one step does to the list of sessions: at most one new one, with the minted hash. */
  lemma StepSessions(cfg: Config, db: Db, step: Step)
    ensures var after := Next(cfg, db, step).sessions;
            OnlyRevokes(db.sessions, after) && |after| <= |db.sessions| + 1
            && (|after| == |db.sessions| + 1 ==>
                  !step.Logout? && after[|db.sessions|].refreshHash == cfg.hashRefresh(step.minted.refreshToken))
  {
    hide Penalised, Welcomed, Locked;
  }

  lemma StepKeepsDistinct(cfg: Config, db: Db, step: Step)
    requires DistinctHashes(db.sessions) && FreshlyMinted(cfg, db, step)
    ensures DistinctHashes(Next(cfg, db, step).sessions)
  {
    StepSessions(cfg, db, step);
    assert forall k :: 0 <= k < |db.sessions| ==> db.sessions[k] in db.sessions;
  }

  lemma StepKeepsSpent(cfg: Config, db: Db, step: Step, h: string)
    requires Spent(db.sessions, h) && FreshlyMinted(cfg, db, step)
    ensures Spent(Next(cfg, db, step).sessions, h)
  {
    StepSessions(cfg, db, step);
    var k :| 0 <= k < |db.sessions| && db.sessions[k].refreshHash == h;
    assert db.sessions[k] in db.sessions;
    assert Next(cfg, db, step).sessions[k].refreshHash == h;
  }

  lemma RotationSpends(cfg: Config, db: Db, step: Step)
    requires Rotates(cfg, db, step) && DistinctHashes(db.sessions) && FreshlyMinted(cfg, db, step)
    ensures Spent(Next(cfg, db, step).sessions, cfg.hashRefresh(step.token))
  {
    var k := ByHash(db.sessions, cfg.hashRefresh(step.token)).value;
    StepSessions(cfg, db, step);
    var after := Next(cfg, db, step).sessions;
    assert after[k].revokedAt.Some?;
    assert db.sessions[k] in db.sessions;
  }

  lemma {:induction false} SpentNeverExchanged(cfg: Config, db: Db, steps: seq<Step>, token: string)
    requires Spent(db.sessions, cfg.hashRefresh(token)) && FreshRun(cfg, db, steps)
    ensures Exchanges(cfg, db, steps, token) == 0
    decreases steps
  {
    if steps != [] {
      StepKeepsSpent(cfg, db, steps[0], cfg.hashRefresh(token));
      SpentNeverExchanged(cfg, Next(cfg, db, steps[0]), steps[1..], token);
    }
  }

  /** Single use: over every run, each refresh token is exchanged at most once. */
  lemma {:induction false} RefreshTokenSingleUse(cfg: Config, db: Db, steps: seq<Step>, token: string)
    requires DistinctHashes(db.sessions) && FreshRun(cfg, db, steps)
    ensures Exchanges(cfg, db, steps, token) <= 1
    decreases steps
  {
    if steps != [] {
      var after := Next(cfg, db, steps[0]);
      if Rotates(cfg, db, steps[0]) && steps[0].token == token {
        RotationSpends(cfg, db, steps[0]);
        SpentNeverExchanged(cfg, after, steps[1..], token);
      } else {
        StepKeepsDistinct(cfg, db, steps[0]);
        RefreshTokenSingleUse(cfg, after, steps[1..], token);
      }
    }
  }

  // ---------------------------------------------------------------------------
  // Lockout
  // ---------------------------------------------------------------------------

  /** The step reaches the password check of the account at index `i`. */
  predicate Evaluates(db: Db, step: Step, i: nat) {
    && step.Login? && !step.faults.lookup
    && ByEmail(db.users, ToLower(TrimSpace(step.email))) == Some(i)
    && db.users[i].status == "active" && !Locked(db.users[i], step.now)
  }

  /** A wrong password is evaluated for the account, and its record is saved. */
  predicate EvaluatesWrong(cfg: Config, db: Db, step: Step, i: nat) {
    Evaluates(db, step, i) && !step.faults.save && !cfg.verifyPassword(db.users[i].passwordHash, step.password)
  }

  function WrongEvaluations(cfg: Config, db: Db, steps: seq<Step>, i: nat): nat
    decreases steps
  {
    if steps == [] then 0
    else (if EvaluatesWrong(cfg, db, steps[0], i) then 1 else 0)
         + WrongEvaluations(cfg, Next(cfg, db, steps[0]), steps[1..], i)
  }

  /** No step of the run passes the account's password check. */
  predicate NoSuccess(cfg: Config, db: Db, steps: seq<Step>, i: nat)
    decreases steps
  {
    steps == [] ||
    ((Evaluates(db, steps[0], i) ==> !cfg.verifyPassword(db.users[i].passwordHash, steps[0].password))
     && NoSuccess(cfg, Next(cfg, db, steps[0]), steps[1..], i))
  }

  /** The clock does not go back, and stays within the span. */
  ghost predicate Within(steps: seq<Step>, from: int, to: int) {
    && (forall k :: 0 <= k < |steps| ==> from <= steps[k].now <= to)
    && (forall j, k :: 0 <= j < k < |steps| ==> steps[j].now <= steps[k].now)
  }

  /** What `n` wrong evaluations since `from`, the last at `last`, leave in the account's record. */
  ghost predicate Counted(u: User, n: nat, from: int, last: int) {
    && u.failedLogins >= n && from <= last
    && (n >= MAX_FAILED ==> u.lockedUntil.Some? && u.lockedUntil.value >= last + LOCK_TIME
                            && (n - MAX_FAILED) * LOCK_TIME <= last - from)
  }

  /** Other than by a saved success, a step changes the account only by a wrong evaluation. */
  lemma AccountAfterStep(cfg: Config, db: Db, step: Step, i: nat)
    requires i < |db.users|
    requires !(Evaluates(db, step, i) && cfg.verifyPassword(db.users[i].passwordHash, step.password)
               && !step.faults.save)
    ensures var after := Next(cfg, db, step);
            && |after.users| == |db.users|
            && after.users[i]
               == if EvaluatesWrong(cfg, db, step, i) then Penalised(db.users[i], step.now) else db.users[i]
  {
  }

  lemma {:induction false} LockoutCount(cfg: Config, db: Db, steps: seq<Step>, i: nat, n: nat, from: int, last: int,
                                        to: int)
    requires i < |db.users| && Counted(db.users[i], n, from, last) && last <= to
    requires Within(steps, last, to) && NoSuccess(cfg, db, steps, i)
    ensures (n + WrongEvaluations(cfg, db, steps, i) - MAX_FAILED) * LOCK_TIME <= to - from
    decreases steps
  {
    if steps != [] {
      var step, after := steps[0], Next(cfg, db, steps[0]);
      AccountAfterStep(cfg, db, step, i);
      hide Next, Evaluates;
      assert Within(steps[1..], step.now, to);
      if EvaluatesWrong(cfg, db, step, i) {
        assert (n + 1 - MAX_FAILED) * LOCK_TIME == (n - MAX_FAILED) * LOCK_TIME + LOCK_TIME;
        LockoutCount(cfg, after, steps[1..], i, n + 1, from, step.now, to);
      } else {
        assert Within(steps[1..], last, to);
        LockoutCount(cfg, after, steps[1..], i, n, from, last, to);
      }
    }
  }

  /**
   Lockout bound: in any span of length T in which no login passes the account's password check, at most
   5 + T / 15 minutes wrong passwords are evaluated and recorded, whatever the attempts and the other calls are.
   */
  lemma LockoutBound(cfg: Config, db: Db, steps: seq<Step>, i: nat, from: int, to: int)
    requires i < |db.users| && from <= to && Within(steps, from, to) && NoSuccess(cfg, db, steps, i)
    ensures WrongEvaluations(cfg, db, steps, i) <= MAX_FAILED + (to - from) / LOCK_TIME
  {
    LockoutCount(cfg, db, steps, i, 0, from, from, to);
  }

  /** A login that passes and is saved clears the account's lockout. */
  lemma SuccessClearsLockout(cfg: Config, db: Db, step: Step, i: nat)
    requires i < |db.users| && Evaluates(db, step, i) && !step.faults.save
    requires cfg.verifyPassword(db.users[i].passwordHash, step.password)
    ensures var after := Next(cfg, db, step);
            && |after.users| == |db.users| && after.users[i].failedLogins == 0 && after.users[i].lockedUntil.None?
            && after.users[i].lastLogin == Some((step.now, step.ip))
  {
  }

  lemma {:induction false} FewMissesNeverLock(cfg: Config, db: Db, steps: seq<Step>, i: nat, n: nat)
    requires i < |db.users| && db.users[i].failedLogins <= n && db.users[i].lockedUntil.None?
    requires n + WrongEvaluations(cfg, db, steps, i) < MAX_FAILED
    ensures var after := Run(cfg, db, steps); i < |after.users| && after.users[i].lockedUntil.None?
    decreases steps
  {
    if steps != [] {
      var step, after := steps[0], Next(cfg, db, steps[0]);
      if Evaluates(db, step, i) && cfg.verifyPassword(db.users[i].passwordHash, step.password) && !step.faults.save {
        SuccessClearsLockout(cfg, db, step, i);
        FewMissesNeverLock(cfg, after, steps[1..], i, n);
      } else {
        AccountAfterStep(cfg, db, step, i);
        hide Next;
        FewMissesNeverLock(cfg, after, steps[1..], i, if EvaluatesWrong(cfg, db, step, i) then n + 1 else n);
      }
    }
  }

  /**
   No false alarm: after a saved successful login, fewer than five wrong passwords never lock the account, over every
   run.
   */
  lemma NoLockBeforeFiveMisses(cfg: Config, db: Db, login: Step, steps: seq<Step>, i: nat)
    requires i < |db.users| && Evaluates(db, login, i) && !login.faults.save
    requires cfg.verifyPassword(db.users[i].passwordHash, login.password)
    requires WrongEvaluations(cfg, Next(cfg, db, login), steps, i) < MAX_FAILED
    ensures var after := Run(cfg, Next(cfg, db, login), steps);
            i < |after.users| && forall now :: !Locked(after.users[i], now)
  {
    SuccessClearsLockout(cfg, db, login, i);
    FewMissesNeverLock(cfg, Next(cfg, db, login), steps, i, 0);
  }

  /** A guess at time `t`. */
  function Guess(email: string, t: int): Step {
    Login(email, "guess", "", t, Minted("", ""), Faults(false, false, false))
  }

  /** `n` guesses, the first at time `t`, `gap` apart. */
  function Guesses(email: string, t: int, gap: int, n: nat): seq<Step>
    decreases n
  {
    if n == 0 then [] else [Guess(email, t)] + Guesses(email, t + gap, gap, n - 1)
  }

  /** The table holds the one account that is being guessed at. */
  ghost predicate Target(cfg: Config, db: Db, email: string) {
    && |db.users| == 1 && db.users[0].email == email == ToLower(TrimSpace(email)) && db.users[0].status == "active"
    && !cfg.verifyPassword(db.users[0].passwordHash, "guess")
  }

  lemma {:induction false} FirstGuesses(cfg: Config, db: Db, email: string, n: nat, rest: seq<Step>)
    requires Target(cfg, db, email) && db.users[0].failedLogins + n <= MAX_FAILED && db.users[0].lockedUntil.None?
    ensures exists after: Db ::
              && Target(cfg, after, email) && after.users[0].failedLogins == db.users[0].failedLogins + n
              && (after.users[0].lockedUntil.None? || after.users[0].lockedUntil == Some(LOCK_TIME))
              && WrongEvaluations(cfg, db, Guesses(email, 0, 0, n) + rest, 0)
                 == n + WrongEvaluations(cfg, after, rest, 0)
    decreases n
  {
    if n == 0 {
      assert Guesses(email, 0, 0, n) + rest == rest;
    } else {
      var steps := Guesses(email, 0, 0, n) + rest;
      var next := Next(cfg, db, steps[0]);
      assert steps[1..] == Guesses(email, 0, 0, n - 1) + rest;
      assert next.users[0] == Penalised(db.users[0], 0);
      if n == 1 {
        assert steps[1..] == rest;
      } else {
        FirstGuesses(cfg, next, email, n - 1, rest);
      }
    }
  }

  lemma {:induction false} LaterGuesses(cfg: Config, db: Db, email: string, t: int, n: nat)
    requires Target(cfg, db, email) && db.users[0].failedLogins >= MAX_FAILED - 1
    requires db.users[0].lockedUntil.Some? ==> db.users[0].lockedUntil.value <= t
    ensures WrongEvaluations(cfg, db, Guesses(email, t, LOCK_TIME, n), 0) == n
    decreases n
  {
    if n > 0 {
      var steps := Guesses(email, t, LOCK_TIME, n);
      assert steps[1..] == Guesses(email, t + LOCK_TIME, LOCK_TIME, n - 1);
      LaterGuesses(cfg, Next(cfg, db, steps[0]), email, t + LOCK_TIME, n - 1);
    }
  }

  /** The bound is exact: five guesses at once and one at the end of every lock are all evaluated. */
  lemma LockoutBoundAttained(cfg: Config, db: Db, email: string, n: nat)
    requires Target(cfg, db, email) && db.users[0].failedLogins == 0 && db.users[0].lockedUntil.None?
    ensures WrongEvaluations(cfg, db, Guesses(email, 0, 0, MAX_FAILED) + Guesses(email, LOCK_TIME, LOCK_TIME, n), 0)
            == MAX_FAILED + n
  {
    FirstGuesses(cfg, db, email, MAX_FAILED, Guesses(email, LOCK_TIME, LOCK_TIME, n));
    var after: Db :|
      && Target(cfg, after, email) && after.users[0].failedLogins == MAX_FAILED
      && (after.users[0].lockedUntil.None? || after.users[0].lockedUntil == Some(LOCK_TIME))
      && WrongEvaluations(cfg, db, Guesses(email, 0, 0, MAX_FAILED) + Guesses(email, LOCK_TIME, LOCK_TIME, n), 0)
         == MAX_FAILED + WrongEvaluations(cfg, after, Guesses(email, LOCK_TIME, LOCK_TIME, n), 0);
    LaterGuesses(cfg, after, email, LOCK_TIME, n);
  }
}
