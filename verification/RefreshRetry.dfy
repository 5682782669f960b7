/**
 What becomes of the requests that meet a 401 (frontend/src/lib/api/client.ts): one refresh serves them all, and after
 it they are sent again with the tokens it brought, or fail with the tokens dropped.
 */
module RefreshRetry {
  import opened Common
  import opened Sessions
  import opened RefreshClient
  import SessionRuns
  import SessionLife

  // ---------------------------------------------------------------------------
  // One request
  // ---------------------------------------------------------------------------

  /** A request goes on after its promise: sent again with the tokens kept, or gone and the tokens dropped. */
  lemma ResumedRequest(c: Client, r: nat)
    requires r in c.requests && c.requests[r].Waiting? && c.requests[r].promise in c.resolved
    ensures var c', ok := Resume(c, r), c.resolved[c.requests[r].promise];
            && (ok ==> c'.requests == c.requests[r := Fetching]
                       && c'.accessToken == c.accessToken && c'.refreshToken == c.refreshToken)
            && (!ok ==> c'.requests == c.requests - {r} && c'.accessToken == "" == c'.refreshToken)
  {}

  /**
   In every interleaving a request ends in two ways only: its fetch answered other than by 401, or its refresh failed,
   and then the tokens are dropped with it.
   */
  lemma RequestEndsIff(cfg: Config, w: World, step: Step, r: nat)
    requires r in w.client.requests
    ensures r !in Next(cfg, w, step).client.requests
        <==> (step == Finished(r) && w.client.requests[r].Fetching?)
             || (step == ResumeRequest(r) && w.client.requests[r].Waiting?
                 && w.client.requests[r].promise in w.client.resolved
                 && !w.client.resolved[w.client.requests[r].promise])
    ensures r !in Next(cfg, w, step).client.requests && step == ResumeRequest(r)
        ==> Next(cfg, w, step).client.accessToken == "" == Next(cfg, w, step).client.refreshToken
  {
    hide RefreshStep, LoginStep, SessionRuns.Next, SessionRuns.Rotates;
  }

  // ---------------------------------------------------------------------------
  // The two tokens belong together
  // ---------------------------------------------------------------------------

  /** The service has issued these two tokens together. */
  ghost predicate IssuedTogether(cfg: Config, sessions: seq<Session>, access: string, refresh: string) {
    exists k :: 0 <= k < |sessions| && sessions[k].sessionId == access
                && sessions[k].refreshHash == cfg.hashRefresh(refresh)
  }

  /** The tab has no tokens or an issued pair, and so has every response on its way. */
  ghost predicate TokensMatch(cfg: Config, w: World) {
    var c, sessions := w.client, w.db.sessions;
    && ((c.accessToken == "" && c.refreshToken == "") || IssuedTogether(cfg, sessions, c.accessToken, c.refreshToken))
    && forall p :: p in c.calls && PairOf(c.calls[p]).Some?
         ==> var pair := PairOf(c.calls[p]).value; IssuedTogether(cfg, sessions, pair.accessSession, pair.refreshToken)
  }

  lemma IssuedStays(cfg: Config, db: Db, step: SessionRuns.Step, access: string, refresh: string)
    requires IssuedTogether(cfg, db.sessions, access, refresh)
    ensures IssuedTogether(cfg, SessionRuns.Next(cfg, db, step).sessions, access, refresh)
  {
    hide SessionRuns.Next;
    SessionRuns.StepSessions(cfg, db, step);
    var k :| 0 <= k < |db.sessions| && db.sessions[k].sessionId == access
             && db.sessions[k].refreshHash == cfg.hashRefresh(refresh);
    assert SessionRuns.Next(cfg, db, step).sessions[k].sessionId == access;
  }

  lemma HandedOutIssued(cfg: Config, db: Db, step: SessionRuns.Step, pair: TokenPair)
    requires SessionLife.HandsOut(cfg, db, step, pair)
    ensures IssuedTogether(cfg, SessionRuns.Next(cfg, db, step).sessions, pair.accessSession, pair.refreshToken)
  {
    hide SessionRuns.Next, SessionLife.HandsOut;
    SessionLife.HandedOutBacks(cfg, db, step, pair);
    assert SessionRuns.Next(cfg, db, step).sessions[|db.sessions|].sessionId == pair.accessSession;
  }

  /** The step of the service behind a step of the world. */
  function ServiceStep(w: World, step: Step): Option<SessionRuns.Step> {
    match step
    case Serve(p, ip, now, minted, faults) =>
      if p in w.client.calls && w.client.calls[p].Sent?
      then Some(SessionRuns.Refresh(w.client.calls[p].token, ip, now, minted, faults)) else None
    case SignIn(email, password, ip, now, minted, faults) =>
      Some(SessionRuns.Login(email, password, ip, now, minted, faults))
    case Elsewhere(other) => Some(other)
    case _ => None
  }

  lemma ServiceStepIs(cfg: Config, w: World, step: Step)
    ensures Next(cfg, w, step).db
        == match ServiceStep(w, step) case None => w.db case Some(s) => SessionRuns.Next(cfg, w.db, s)
  {
    hide RefreshStep, LoginStep, LogoutStep, SessionRuns.Rotates;
  }

  lemma StepKeepsTokensMatch(cfg: Config, w: World, step: Step)
    requires TokensMatch(cfg, w)
    ensures TokensMatch(cfg, Next(cfg, w, step))
  {
    ServiceStepIs(cfg, w, step);
    var c, w' := w.client, Next(cfg, w, step);
    var s := ServiceStep(w, step);
    forall access, refresh | IssuedTogether(cfg, w.db.sessions, access, refresh)
      ensures IssuedTogether(cfg, w'.db.sessions, access, refresh)
    {
      if s.Some? {
        IssuedStays(cfg, w.db, s.value, access, refresh);
      }
    }
    forall pair | s.Some? && SessionLife.HandsOut(cfg, w.db, s.value, pair)
      ensures IssuedTogether(cfg, w'.db.sessions, pair.accessSession, pair.refreshToken)
    {
      HandedOutIssued(cfg, w.db, s.value, pair);
    }
    hide IssuedTogether, RefreshStep, LoginStep, SessionRuns.Rotates, SessionRuns.Next;
  }

  /** In every interleaving the tab's two tokens were issued together, or it has none. */
  lemma {:induction false} TokensStayTogether(cfg: Config, w: World, steps: seq<Step>)
    requires TokensMatch(cfg, w)
    ensures TokensMatch(cfg, Run(cfg, w, steps))
    decreases steps
  {
    if steps != [] {
      StepKeepsTokensMatch(cfg, w, steps[0]);
      hide Next, TokensMatch;
      TokensStayTogether(cfg, Next(cfg, w, steps[0]), steps[1..]);
    }
  }

  // ---------------------------------------------------------------------------
  // One refresh for all requests that meet a 401
  // ---------------------------------------------------------------------------

  function Unauthorizeds(rs: seq<nat>): seq<Step> {
    if rs == [] then [] else [Unauthorized(rs[0])] + Unauthorizeds(rs[1..])
  }

  function Resumes(rs: seq<nat>): seq<Step> {
    if rs == [] then [] else [ResumeRequest(rs[0])] + Resumes(rs[1..])
  }

  ghost predicate Distinct(rs: seq<nat>) {
    forall i, j :: 0 <= i < j < |rs| ==> rs[i] != rs[j]
  }

  /** The requests with those of `rs` set to `v`. */
  ghost function Setting(requests: map<nat, Request>, rs: seq<nat>, v: Request): map<nat, Request> {
    map r | r in requests.Keys + (set x | x in rs) :: if r in rs then v else requests[r]
  }

  lemma SettingFirst(requests: map<nat, Request>, rs: seq<nat>, v: Request)
    requires rs != []
    ensures Setting(requests[rs[0] := v], rs[1..], v) == Setting(requests, rs, v)
  {
    assert rs == [rs[0]] + rs[1..];
  }

  lemma SettingTwice(requests: map<nat, Request>, rs: seq<nat>, v: Request, v': Request)
    ensures Setting(Setting(requests, rs, v), rs, v') == Setting(requests, rs, v')
  {}

  lemma {:induction false} RunAppend(cfg: Config, w: World, xs: seq<Step>, ys: seq<Step>)
    ensures Run(cfg, w, xs + ys) == Run(cfg, Run(cfg, w, xs), ys)
    decreases xs
  {
    hide Next;
    if xs == [] {
      assert xs + ys == ys;
    } else {
      assert (xs + ys)[1..] == xs[1..] + ys;
      RunAppend(cfg, Next(cfg, w, xs[0]), xs[1..], ys);
    }
  }

  /** Every further 401 joins the refresh in flight; nothing is sent for it. */
  lemma {:induction false} AllJoin(cfg: Config, w: World, p: nat, rs: seq<nat>)
    requires w.client.inflight == Some(p) && Distinct(rs)
    requires forall r :: r in rs ==> r in w.client.requests && w.client.requests[r].Fetching?
    ensures Run(cfg, w, Unauthorizeds(rs))
         == w.(client := w.client.(requests := Setting(w.client.requests, rs, Waiting(p))))
    decreases |rs|
  {
    if rs == [] {
      assert Setting(w.client.requests, rs, Waiting(p)) == w.client.requests;
    } else {
      var w' := Next(cfg, w, Unauthorized(rs[0]));
      RunCons(cfg, w, Unauthorized(rs[0]), Unauthorizeds(rs[1..]));
      assert w' == w.(client := w.client.(requests := w.client.requests[rs[0] := Waiting(p)]));
      SettingFirst(w.client.requests, rs, Waiting(p));
      AllJoin(cfg, w', p, rs[1..]);
    }
  }

  /** After a refresh that succeeded, every request that waits for it is sent again, and nothing else changes. */
  lemma {:induction false} AllRetry(cfg: Config, w: World, p: nat, rs: seq<nat>)
    requires p in w.client.resolved && w.client.resolved[p] && Distinct(rs)
    requires forall r :: r in rs ==> r in w.client.requests && w.client.requests[r] == Waiting(p)
    ensures Run(cfg, w, Resumes(rs)) == w.(client := w.client.(requests := Setting(w.client.requests, rs, Fetching)))
    decreases |rs|
  {
    if rs == [] {
      assert Setting(w.client.requests, rs, Fetching) == w.client.requests;
    } else {
      var w' := Next(cfg, w, ResumeRequest(rs[0]));
      RunCons(cfg, w, ResumeRequest(rs[0]), Resumes(rs[1..]));
      assert w' == w.(client := w.client.(requests := w.client.requests[rs[0] := Fetching]));
      SettingFirst(w.client.requests, rs, Fetching);
      AllRetry(cfg, w', p, rs[1..]);
    }
  }

  /** After one that failed, every request that waits for it fails, and the tokens are dropped. */
  lemma {:induction false} AllFail(cfg: Config, w: World, p: nat, rs: seq<nat>)
    requires p in w.client.resolved && !w.client.resolved[p] && Distinct(rs) && rs != []
    requires forall r :: r in rs ==> r in w.client.requests && w.client.requests[r] == Waiting(p)
    ensures Run(cfg, w, Resumes(rs))
         == w.(client := w.client.(accessToken := "", refreshToken := "",
                                   requests := w.client.requests - (set r | r in rs)))
    decreases |rs|
  {
    hide RefreshStep, LoginStep, SessionRuns.Next, SessionRuns.Rotates;
    var w' := Next(cfg, w, ResumeRequest(rs[0]));
    var gone := w.client.requests - {rs[0]};
    RunCons(cfg, w, ResumeRequest(rs[0]), Resumes(rs[1..]));
    assert w' == w.(client := w.client.(accessToken := "", refreshToken := "", requests := gone));
    assert rs == [rs[0]] + rs[1..];
    if rs[1..] != [] {
      AllFail(cfg, w', p, rs[1..]);
    }
    assert gone - (set r | r in rs[1..]) == w.client.requests - (set r | r in rs);
  }

  /** The tab with no refresh out and a token in hand; `rs` are requests that are about to be answered 401. */
  ghost predicate Ready(w: World, rs: seq<nat>) {
    && w.client.inflight.None? && w.client.calls == map[] && w.client.refreshToken != "" && rs != [] && Distinct(rs)
    && forall r :: r in rs ==> r in w.client.requests && w.client.requests[r].Fetching?
  }

  /** The 401s come in, and the service answers the one call that they lead to. */
  function UpToAnswer(rs: seq<nat>, serve: Step): seq<Step> {
    Unauthorizeds(rs) + [serve]
  }

  lemma OneCall(cfg: Config, w: World, rs: seq<nat>, serve: Step)
    requires Ready(w, rs) && serve.Serve? && serve.p == w.client.nextPromise
    ensures var c, p := w.client, serve.p;
            var refresh := SessionRuns.Refresh(c.refreshToken, serve.ip, serve.now, serve.minted, serve.faults);
            var answer := SessionLife.Outcome(cfg, w.db, refresh).value;
            var w' := Run(cfg, w, UpToAnswer(rs, serve));
            && w'.db == SessionRuns.Next(cfg, w.db, refresh) && w'.presented == w.presented + [c.refreshToken]
            && w'.client == c.(inflight := Some(p), nextPromise := p + 1,
                               calls := map[p := Answered(c.refreshToken, answer)],
                               requests := Setting(c.requests, rs, Waiting(p)))
  {
    hide Next, Setting, SessionLife.Outcome, SessionRuns.Next;
    var c, p := w.client, serve.p;
    var w1 := Next(cfg, w, Unauthorized(rs[0]));
    FirstCall(cfg, w, rs[0]);
    RunCons(cfg, w, Unauthorized(rs[0]), Unauthorizeds(rs[1..]));
    assert forall r :: r in rs[1..] ==> r in rs && r != rs[0];
    AllJoin(cfg, w1, p, rs[1..]);
    SettingFirst(c.requests, rs, Waiting(p));
    RunAppend(cfg, w, Unauthorizeds(rs), [serve]);
    var w2 := Run(cfg, w, Unauthorizeds(rs));
    RunCons(cfg, w2, serve, []);
    assert [serve] + [] == [serve];
    Served(cfg, w2, serve);
  }

  lemma FirstCall(cfg: Config, w: World, r: nat)
    requires w.client.inflight.None? && w.client.calls == map[] && w.client.refreshToken != ""
    requires r in w.client.requests && w.client.requests[r].Fetching?
    ensures var c, p := w.client, w.client.nextPromise;
            Next(cfg, w, Unauthorized(r))
            == w.(client := c.(inflight := Some(p), nextPromise := p + 1, calls := map[p := Sent(c.refreshToken)],
                               requests := c.requests[r := Waiting(p)]),
                  presented := w.presented + [c.refreshToken])
  {
    hide RefreshStep, LoginStep, SessionRuns.Next, SessionRuns.Rotates;
    var c, p := w.client, w.client.nextPromise;
    assert c.calls[p := Sent(c.refreshToken)] == map[p := Sent(c.refreshToken)];
    assert p in c.calls[p := Sent(c.refreshToken)] && p !in c.calls;
  }

  lemma Served(cfg: Config, w: World, serve: Step)
    requires serve.Serve? && serve.p in w.client.calls && w.client.calls[serve.p].Sent?
    requires w.client.calls.Keys == {serve.p}
    ensures var p, token := serve.p, w.client.calls[serve.p].token;
            var refresh := SessionRuns.Refresh(token, serve.ip, serve.now, serve.minted, serve.faults);
            var w' := Next(cfg, w, serve);
            && w'.db == SessionRuns.Next(cfg, w.db, refresh) && w'.presented == w.presented
            && w'.client
               == w.client.(calls := map[p := Answered(token, SessionLife.Outcome(cfg, w.db, refresh).value)])
  {
    hide RefreshStep, LoginStep, SessionRuns.Rotates;
  }

  /**
   The promise of the single flight: any number of requests answered 401 lead to one call to /auth/refresh. When its
   response arrives with a new pair, every one of them is sent again, the tab holds exactly that pair, and its access
   token is accepted for as long as the service lets the new session live.
   */
  lemma RefreshServesAll(cfg: Config, w: World, rs: seq<nat>, serve: Step, pair: TokenPair, t: int)
    requires Ready(w, rs) && serve.Serve? && serve.p == w.client.nextPromise
    requires var refresh := SessionRuns.Refresh(w.client.refreshToken, serve.ip, serve.now, serve.minted, serve.faults);
             SessionLife.HandsOut(cfg, w.db, refresh, pair)
    ensures var p := serve.p;
            var w' := Run(cfg, w, UpToAnswer(rs, serve) + ([Respond(p), Body(p)] + Resumes(rs)));
            && w'.client.accessToken == pair.accessSession && w'.client.refreshToken == pair.refreshToken
            && w'.client.inflight.None? && w'.client.calls == map[]
            && w'.client.requests == Setting(w.client.requests, rs, Fetching)
            && w'.presented == w.presented + [w.client.refreshToken]
            && (Accepts(w'.db, w'.client.accessToken, t) <==> t < serve.now + cfg.refreshTtl)
  {
    var c, p := w.client, serve.p;
    var refresh := SessionRuns.Refresh(c.refreshToken, serve.ip, serve.now, serve.minted, serve.faults);
    OneCall(cfg, w, rs, serve);
    var w1 := Run(cfg, w, UpToAnswer(rs, serve));
    var w2 := AfterBody(cfg, w1, p, pair, Resumes(rs));
    SettingTwice(c.requests, rs, Waiting(p), Fetching);
    AllRetry(cfg, w2, p, rs);
    RunAppend(cfg, w, UpToAnswer(rs, serve), [Respond(p), Body(p)] + Resumes(rs));
    SessionLife.AcceptedUntilEnded(cfg, w.db, refresh, pair, [], t);
  }

  lemma AfterBody(cfg: Config, w: World, p: nat, pair: TokenPair, rest: seq<Step>) returns (w': World)
    requires p in w.client.calls && w.client.calls[p].Answered? && w.client.calls[p].result == Issued(pair)
    ensures w' == w.(client := EndCall(SetTokens(w.client, pair), p, true))
    ensures Run(cfg, w, [Respond(p), Body(p)] + rest) == Run(cfg, w', rest)
  {
    var w1 := Next(cfg, w, Respond(p));
    w' := Next(cfg, w1, Body(p));
    assert [Respond(p), Body(p)] + rest == [Respond(p)] + ([Body(p)] + rest);
    RunCons(cfg, w, Respond(p), [Body(p)] + rest);
    RunCons(cfg, w1, Body(p), rest);
    assert w1.client.calls - {p} == w.client.calls - {p};
  }

  lemma RefusalEnds(cfg: Config, w: World, p: nat)
    requires p in w.client.calls && w.client.calls[p].Answered? && w.client.calls[p].result.Failed?
    ensures Next(cfg, w, Respond(p)) == w.(client := EndCall(w.client, p, false))
  {
    hide RefreshStep, LoginStep, SessionRuns.Next, SessionRuns.Rotates;
  }

  /** When the service refuses, every one of them fails, and the tab is signed out. */
  lemma RefusedRefreshSignsOut(cfg: Config, w: World, rs: seq<nat>, serve: Step)
    requires Ready(w, rs) && serve.Serve? && serve.p == w.client.nextPromise
    requires var refresh := SessionRuns.Refresh(w.client.refreshToken, serve.ip, serve.now, serve.minted, serve.faults);
             SessionLife.Outcome(cfg, w.db, refresh).value.Failed?
    ensures var w' := Run(cfg, w, UpToAnswer(rs, serve) + ([Respond(serve.p)] + Resumes(rs)));
            && w'.client.accessToken == "" == w'.client.refreshToken && w'.client.inflight.None?
            && w'.client.requests == w.client.requests - (set r | r in rs)
            && w'.presented == w.presented + [w.client.refreshToken]
  {
    hide Next, SessionLife.Outcome, SessionRuns.Next, Run;
    var c, p := w.client, serve.p;
    OneCall(cfg, w, rs, serve);
    var w1 := Run(cfg, w, UpToAnswer(rs, serve));
    var w2 := Next(cfg, w1, Respond(p));
    RunAppend(cfg, w, UpToAnswer(rs, serve), [Respond(p)] + Resumes(rs));
    RunCons(cfg, w1, Respond(p), Resumes(rs));
    RefusalEnds(cfg, w1, p);
    AllFail(cfg, w2, p, rs);
    assert Setting(c.requests, rs, Waiting(p)) - (set r | r in rs) == c.requests - (set r | r in rs);
  }
}
