/**
 What a login or a rotation is for (internal/auth/jwt.go): who gets a session, how long it is accepted, and that its
 refresh token can be exchanged.
 */
module SessionLife {
  import opened Common
  import opened AsciiStrings
  import opened Sessions
  import opened SessionRuns

  /** What a login or refresh answers; a logout answers no tokens. */
  function Outcome(cfg: Config, db: Db, step: Step): Option<Result> {
    match step
    case Login(email, password, ip, now, minted, faults) =>
      Some(LoginStep(cfg, db, email, password, ip, now, minted, faults).0)
    case Refresh(token, ip, now, minted, faults) => Some(RefreshStep(cfg, db, token, ip, now, minted, faults).0)
    case Logout(_, _, _) => None
  }

  /** The step hands out `pair`. */
  predicate HandsOut(cfg: Config, db: Db, step: Step, pair: TokenPair) {
    Outcome(cfg, db, step) == Some(Issued(pair))
  }

  /** Row `k` is the one session behind `pair`, good until `until` unless it is revoked. */
  ghost predicate Backs(cfg: Config, sessions: seq<Session>, k: nat, pair: TokenPair, until: int) {
    && BySessionId(sessions, pair.accessSession) == Some(k)
    && k < |sessions| && sessions[k].sessionId == pair.accessSession
    && sessions[k].refreshHash == cfg.hashRefresh(pair.refreshToken) && sessions[k].expiresAt == until
  }

  lemma {:induction false} AppendFindsNew(sessions: seq<Session>, s: Session, from: nat)
    requires from <= |sessions| && BySessionId(sessions, s.sessionId, from).None?
    ensures BySessionId(sessions + [s], s.sessionId, from) == Some(|sessions|)
    decreases |sessions| - from
  {
    if from < |sessions| {
      AppendFindsNew(sessions, s, from + 1);
    }
  }

  lemma IssuedBacks(cfg: Config, db: Db, userId: string, ip: string, now: int, minted: Minted, fault: bool)
    requires IssueTokens(cfg, db, userId, ip, now, minted, fault).0.Issued?
    ensures var r := IssueTokens(cfg, db, userId, ip, now, minted, fault); var n := |db.sessions|;
            && Backs(cfg, r.1.sessions, n, r.0.pair, now + cfg.refreshTtl)
            && |r.1.sessions| == n + 1 && r.1.sessions[..n] == db.sessions && r.1.users == db.users
            && r.1.sessions[n].revokedAt.None? && r.1.sessions[n].userId == userId && r.1.sessions[n].ip == ip
  {
    AppendFindsNew(db.sessions, IssueTokens(cfg, db, userId, ip, now, minted, fault).1.sessions[|db.sessions|], 0);
  }

  /** Tokens handed out come with a new session that is not revoked and expires after the configured time. */
  lemma HandedOutBacks(cfg: Config, db: Db, step: Step, pair: TokenPair)
    requires HandsOut(cfg, db, step, pair)
    ensures var after, n := Next(cfg, db, step).sessions, |db.sessions|;
            Backs(cfg, after, n, pair, step.now + cfg.refreshTtl) && |after| == n + 1
            && after[n].revokedAt.None? && after[n].ip == step.ip
  {
    match step {
      case Login(email, _, ip, now, minted, faults) =>
        var i := ByEmail(db.users, ToLower(TrimSpace(email))).value;
        var saved := if faults.save then db else db.(users := db.users[i := Welcomed(db.users[i], now, ip)]);
        IssuedBacks(cfg, saved, db.users[i].id, ip, now, minted, faults.create);
      case Refresh(token, ip, now, minted, faults) =>
        var i := ByHash(db.sessions, cfg.hashRefresh(token)).value;
        var rotated := db.sessions[i].(revokedAt := Some(now), revokeReason := "rotated");
        var k := ById(db.users, db.sessions[i].userId).value;
        IssuedBacks(cfg, db.(sessions := db.sessions[i := rotated]), db.users[k].id, ip, now, minted, faults.create);
    }
  }

  // ---------------------------------------------------------------------------
  // How long a session is accepted
  // ---------------------------------------------------------------------------

  /** The step revokes the session at row `k`: a logout of its id, or an exchange of its refresh token. */
  predicate Ends(cfg: Config, db: Db, step: Step, k: nat)
    requires k < |db.sessions|
  {
    match step
    case Login(_, _, _, _, _, _) => false
    case Refresh(token, _, _, _, _) =>
      Rotates(cfg, db, step) && ByHash(db.sessions, cfg.hashRefresh(token)) == Some(k)
    case Logout(sessionId, _, fault) => sessionId != "" && !fault && sessionId == db.sessions[k].sessionId
  }

  predicate EverEnds(cfg: Config, db: Db, steps: seq<Step>, k: nat)
    requires k < |db.sessions|
    decreases steps
  {
    steps != [] &&
    (Ends(cfg, db, steps[0], k) ||
     (k < |Next(cfg, db, steps[0]).sessions| && EverEnds(cfg, Next(cfg, db, steps[0]), steps[1..], k)))
  }

  lemma StepEnds(cfg: Config, db: Db, step: Step, k: nat)
    requires k < |db.sessions| && db.sessions[k].revokedAt.None?
    ensures k < |Next(cfg, db, step).sessions|
    ensures Next(cfg, db, step).sessions[k].revokedAt.Some? <==> Ends(cfg, db, step, k)
  {
    hide Penalised, Welcomed, Locked;
  }

  lemma {:induction false} RunEnds(cfg: Config, db: Db, steps: seq<Step>, k: nat)
    requires k < |db.sessions| && db.sessions[k].revokedAt.None?
    ensures k < |Run(cfg, db, steps).sessions|
    ensures Run(cfg, db, steps).sessions[k].revokedAt.Some? <==> EverEnds(cfg, db, steps, k)
    decreases steps
  {
    hide Next, Ends, OnlyRevokes;
    if steps != [] {
      var next := Next(cfg, db, steps[0]);
      StepEnds(cfg, db, steps[0], k);
      if Ends(cfg, db, steps[0], k) {
        StaysRevoked(cfg, next, steps[1..], k);
      } else {
        RunEnds(cfg, next, steps[1..], k);
      }
    }
  }

  lemma StaysRevoked(cfg: Config, db: Db, steps: seq<Step>, k: nat)
    requires k < |db.sessions| && db.sessions[k].revokedAt.Some?
    ensures k < |Run(cfg, db, steps).sessions| && Run(cfg, db, steps).sessions[k].revokedAt.Some?
  {
    RunOnlyRevokes(cfg, db, steps);
  }

  lemma BackedForever(cfg: Config, db: Db, steps: seq<Step>, k: nat, pair: TokenPair, until: int)
    requires Backs(cfg, db.sessions, k, pair, until)
    ensures Backs(cfg, Run(cfg, db, steps).sessions, k, pair, until)
    ensures Run(cfg, db, steps).sessions[k].userId == db.sessions[k].userId
  {
    RunOnlyRevokes(cfg, db, steps);
    SameFirst(db.sessions, Run(cfg, db, steps).sessions, pair.accessSession, 0);
  }

  /**
   The life of a session, over every run: the access token that a login or a rotation hands out is accepted exactly
   until the refresh lifetime is over or a step of the run logs the session out or exchanges its refresh token.
   */
  lemma AcceptedUntilEnded(cfg: Config, db: Db, step: Step, pair: TokenPair, steps: seq<Step>, t: int)
    requires HandsOut(cfg, db, step, pair)
    ensures |Next(cfg, db, step).sessions| == |db.sessions| + 1
    ensures Accepts(Run(cfg, Next(cfg, db, step), steps), pair.accessSession, t)
        <==> t < step.now + cfg.refreshTtl && !EverEnds(cfg, Next(cfg, db, step), steps, |db.sessions|)
  {
    hide Next, EverEnds, HandsOut, Run;
    HandedOutBacks(cfg, db, step, pair);
    RunEnds(cfg, Next(cfg, db, step), steps, |db.sessions|);
    BackedForever(cfg, Next(cfg, db, step), steps, |db.sessions|, pair, step.now + cfg.refreshTtl);
  }

  // ---------------------------------------------------------------------------
  // Accounts
  // ---------------------------------------------------------------------------

  /** No step adds or removes an account, renames it, changes its password or its status. */
  ghost predicate SameAccounts(before: seq<User>, after: seq<User>) {
    |before| == |after| && forall i :: 0 <= i < |before| ==>
      && after[i].id == before[i].id && after[i].email == before[i].email && after[i].status == before[i].status
      && after[i].passwordHash == before[i].passwordHash
  }

  lemma {:induction false} RunKeepsAccounts(cfg: Config, db: Db, steps: seq<Step>)
    ensures SameAccounts(db.users, Run(cfg, db, steps).users)
    decreases steps
  {
    if steps != [] {
      StepKeepsAccounts(cfg, db, steps[0]);
      hide Next;
      RunKeepsAccounts(cfg, Next(cfg, db, steps[0]), steps[1..]);
    }
  }

  lemma StepKeepsAccounts(cfg: Config, db: Db, step: Step)
    ensures SameAccounts(db.users, Next(cfg, db, step).users)
  {}

  lemma {:induction false} SameById(before: seq<User>, after: seq<User>, id: string, from: nat)
    requires SameAccounts(before, after) && from <= |before|
    ensures ById(after, id, from) == ById(before, id, from)
    decreases |before| - from
  {
    if from < |before| {
      SameById(before, after, id, from + 1);
    }
  }

  /** The primary key and the unique index of the table of users. */
  ghost predicate Keyed(users: seq<User>) {
    forall i, j :: 0 <= i < j < |users| ==> users[i].id != users[j].id && users[i].email != users[j].email
  }

  lemma {:induction false} FindsById(users: seq<User>, i: nat, from: nat)
    requires Keyed(users) && from <= i < |users|
    ensures ById(users, users[i].id, from) == Some(i)
    decreases i - from
  {
    if from < i {
      FindsById(users, i, from + 1);
    }
  }

  lemma {:induction false} FindsByEmail(users: seq<User>, i: nat, from: nat)
    requires Keyed(users) && from <= i < |users|
    ensures ByEmail(users, users[i].email, from) == Some(i)
    decreases i - from
  {
    if from < i {
      FindsByEmail(users, i, from + 1);
    }
  }

  /** The account's owner, if it is active and not locked. */
  predicate Admits(cfg: Config, u: User, email: string, password: string, now: int) {
    && u.email == ToLower(TrimSpace(email)) && u.status == "active" && cfg.verifyPassword(u.passwordHash, password)
    && (u.lockedUntil.Some? ==> u.lockedUntil.value <= now)
  }

  /**
   A login hands out tokens exactly to the owner of an active account that is not locked, when the database and the
   random source allow it; the session is the owner's. Otherwise no session changes.
   */
  lemma LoginIffAdmitted(cfg: Config, db: Db, step: Step)
    requires step.Login? && Keyed(db.users)
    ensures Outcome(cfg, db, step).value.Issued?
        <==> (exists i :: 0 <= i < |db.users| && Admits(cfg, db.users[i], step.email, step.password, step.now))
             && !step.faults.lookup && !step.faults.create && BySessionId(db.sessions, step.minted.sessionId).None?
    ensures forall i :: 0 <= i < |db.users| && Admits(cfg, db.users[i], step.email, step.password, step.now)
                        && Outcome(cfg, db, step).value.Issued?
              ==> |Next(cfg, db, step).sessions| == |db.sessions| + 1
                  && Next(cfg, db, step).sessions[|db.sessions|].userId == db.users[i].id
    ensures !Outcome(cfg, db, step).value.Issued? ==> Next(cfg, db, step).sessions == db.sessions
  {
    hide Penalised, Welcomed;
    forall i | 0 <= i < |db.users| && db.users[i].email == ToLower(TrimSpace(step.email))
      ensures ByEmail(db.users, ToLower(TrimSpace(step.email))) == Some(i)
    {
      FindsByEmail(db.users, i, 0);
    }
  }

  // ---------------------------------------------------------------------------
  // The refresh token can be exchanged
  // ---------------------------------------------------------------------------

  lemma {:induction false} FindsByHash(sessions: seq<Session>, k: nat, h: string, from: nat)
    requires from <= k < |sessions| && sessions[k].refreshHash == h
    requires forall j :: from <= j < k ==> sessions[j].refreshHash != h
    ensures ByHash(sessions, h, from) == Some(k)
    decreases k - from
  {
    if from < k {
      FindsByHash(sessions, k, h, from + 1);
    }
  }

  /** The new session belongs to an active user. */
  lemma HandedOutToActive(cfg: Config, db: Db, step: Step, pair: TokenPair)
    requires HandsOut(cfg, db, step, pair) && Keyed(db.users)
    ensures var after := Next(cfg, db, step);
            |after.sessions| == |db.sessions| + 1
            && var i := ById(after.users, after.sessions[|db.sessions|].userId);
               i.Some? && after.users[i.value].status == "active"
  {
    StepKeepsAccounts(cfg, db, step);
    var after := Next(cfg, db, step);
    match step {
      case Login(email, _, ip, now, minted, faults) =>
        var i := ByEmail(db.users, ToLower(TrimSpace(email))).value;
        assert after.sessions[|db.sessions|].userId == db.users[i].id;
        FindsById(db.users, i, 0);
        SameById(db.users, after.users, db.users[i].id, 0);
      case Refresh(token, ip, now, minted, faults) =>
        var i := ByHash(db.sessions, cfg.hashRefresh(token)).value;
        assert after.users == db.users;
        var k := ById(db.users, db.sessions[i].userId).value;
        assert after.sessions[|db.sessions|].userId == db.users[k].id;
    }
  }

  /**
   The refresh token that comes with it, over every run: presented at time `t` with no fault it is exchanged, for a
   session of the same user, exactly as long as the access token is accepted.
   */
  lemma ExchangedWhileAccepted(cfg: Config, db: Db, step: Step, pair: TokenPair, steps: seq<Step>, again: Step)
    requires HandsOut(cfg, db, step, pair) && Keyed(db.users) && FreshlyMinted(cfg, db, step)
    requires again.Refresh? && again.token == pair.refreshToken != "" && again.faults == Faults(false, false, false)
    requires BySessionId(Run(cfg, Next(cfg, db, step), steps).sessions, again.minted.sessionId).None?
    ensures var now := Run(cfg, Next(cfg, db, step), steps);
            && |Next(cfg, db, step).sessions| == |db.sessions| + 1
            && (Outcome(cfg, now, again).value.Issued? <==> Accepts(now, pair.accessSession, again.now))
            && (Outcome(cfg, now, again).value.Issued? ==>
                  |Next(cfg, now, again).sessions| == |now.sessions| + 1
                  && Next(cfg, now, again).sessions[|now.sessions|].userId
                     == Next(cfg, db, step).sessions[|db.sessions|].userId)
  {
    var after, n := Next(cfg, db, step), |db.sessions|;
    var now := Run(cfg, after, steps);
    var until := step.now + cfg.refreshTtl;
    HandedOutBacks(cfg, db, step, pair);
    HandedOutToActive(cfg, db, step, pair);
    BackedForever(cfg, after, steps, n, pair, until);
    RunKeepsAccounts(cfg, after, steps);
    SameById(after.users, now.users, after.sessions[n].userId, 0);
    MintedHash(cfg, db, step, pair);
    RunOnlyRevokes(cfg, after, steps);
    StepSessions(cfg, db, step);
    HashNotBefore(cfg, db, after, now, cfg.hashRefresh(pair.refreshToken));
    FindsByHash(now.sessions, n, cfg.hashRefresh(pair.refreshToken), 0);
    ExchangeOf(cfg, now, again, n);
  }

  lemma MintedHash(cfg: Config, db: Db, step: Step, pair: TokenPair)
    requires HandsOut(cfg, db, step, pair)
    ensures pair == TokenPair(step.minted.sessionId, step.minted.refreshToken)
  {}

  lemma HashNotBefore(cfg: Config, db: Db, after: Db, now: Db, h: string)
    requires OnlyRevokes(db.sessions, after.sessions) && OnlyRevokes(after.sessions, now.sessions)
    requires forall s :: s in db.sessions ==> s.refreshHash != h
    ensures forall j :: 0 <= j < |db.sessions| ==> now.sessions[j].refreshHash != h
  {
    forall j | 0 <= j < |db.sessions| ensures now.sessions[j].refreshHash != h {
      assert db.sessions[j] in db.sessions;
    }
  }

  /** Without faults, presenting the token of row `n` exchanges it exactly if the row is active. */
  lemma ExchangeOf(cfg: Config, db: Db, step: Step, n: nat)
    requires step.Refresh? && step.token != "" && step.faults == Faults(false, false, false)
    requires ByHash(db.sessions, cfg.hashRefresh(step.token)) == Some(n) && n < |db.sessions|
    requires var i := ById(db.users, db.sessions[n].userId); i.Some? && db.users[i.value].status == "active"
    requires BySessionId(db.sessions, step.minted.sessionId).None?
    ensures Outcome(cfg, db, step).value.Issued? <==> IsActive(db.sessions[n], step.now)
    ensures Outcome(cfg, db, step).value.Issued? ==>
              |Next(cfg, db, step).sessions| == |db.sessions| + 1
              && Next(cfg, db, step).sessions[|db.sessions|].userId == db.sessions[n].userId
  {
    RotationKeepsIds(db.sessions, n, step.now, step.minted.sessionId, 0);
  }

  lemma {:induction false} RotationKeepsIds(sessions: seq<Session>, n: nat, now: int, id: string, from: nat)
    requires n < |sessions| && from <= |sessions|
    requires BySessionId(sessions, id, from).None?
    ensures BySessionId(sessions[n := sessions[n].(revokedAt := Some(now), revokeReason := "rotated")], id, from).None?
    decreases |sessions| - from
  {
    if from < |sessions| {
      RotationKeepsIds(sessions, n, now, id, from + 1);
    }
  }
}
