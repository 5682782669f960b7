/**
 The single-flight token refresh of one browser tab (frontend/src/lib/api/client.ts) against the panel's
 session service. The code between two awaits is one atomic step; the steps of any number of requests,
 the network and the service interleave freely. An absent token is the empty string.
 */
module RefreshClient {
  import opened Common
  import opened Sessions
  import SessionRuns

  /** A call to /auth/refresh, from its fetch to the end of its promise. */
  datatype Call =
    | Sent(token: string)
    | Answered(token: string, result: Result)  // the response is on its way, or lost as a failure
    | Reading(token: string, pair: TokenPair)  // res.ok seen, awaiting res.json()

  /** An authenticated request: awaiting its own fetch, or the promise that tryRefresh returned. */
  datatype Request = Fetching | Waiting(promise: nat)

  datatype Client = Client(
    accessToken: string,
    refreshToken: string,
    inflight: Option<nat>,         // the module variable inflightRefresh
    resolved: map<nat, bool>,      // promises of tryRefresh that have ended, with their values
    calls: map<nat, Call>,         // outstanding calls by promise
    requests: map<nat, Request>,
    nextPromise: nat)

  const START := Client("", "", None, map[], map[], map[], 0)

  /** tryRefresh, up to its first await, on behalf of request `r`. */
  function TryRefresh(c: Client, r: nat): Client {
    if c.inflight.Some? then c.(requests := c.requests[r := Waiting(c.inflight.value)])
    else
      var p := c.nextPromise;
      var begun := c.(inflight := Some(p), nextPromise := p + 1, requests := c.requests[r := Waiting(p)]);
      if c.refreshToken == "" then begun.(resolved := c.resolved[p := false])  // returns before the try block
      else begun.(calls := c.calls[p := Sent(c.refreshToken)])
  }

  /** The end of the try block of call `p`: the finally clause clears the module variable. */
  function EndCall(c: Client, p: nat, ok: bool): Client {
    c.(inflight := None, calls := c.calls - {p}, resolved := c.resolved[p := ok])
  }

  /** The response of call `p` arrives. */
  function OnResponse(c: Client, p: nat): Client
    requires p in c.calls && c.calls[p].Answered?
  {
    match c.calls[p].result
    case Failed(_) => EndCall(c, p, false)
    case Issued(pair) => c.(calls := c.calls[p := Reading(c.calls[p].token, pair)])
  }

  function SetTokens(c: Client, pair: TokenPair): Client {
    c.(accessToken := pair.accessSession, refreshToken := pair.refreshToken)
  }

  /** The body of call `p` arrives. */
  function OnBody(c: Client, p: nat): Client
    requires p in c.calls && c.calls[p].Reading?
  {
    EndCall(SetTokens(c, c.calls[p].pair), p, true)
  }

  /** Request `r` goes on after its promise: it retries, or drops the tokens and fails. */
  function Resume(c: Client, r: nat): Client
    requires r in c.requests && c.requests[r].Waiting? && c.requests[r].promise in c.resolved
  {
    if c.resolved[c.requests[r].promise] then c.(requests := c.requests[r := Fetching])
    else c.(accessToken := "", refreshToken := "", requests := c.requests - {r})
  }

  // ---------------------------------------------------------------------------
  // The tab, the network and the service together
  // ---------------------------------------------------------------------------

  /** `rotated` records the refresh tokens that the service has exchanged, `presented` those the tab has sent. */
  datatype World = World(db: Db, client: Client, rotated: set<string>, presented: seq<string>)

  datatype Step =
    | NewRequest(r: nat)
    | Unauthorized(r: nat)                      // the request's fetch answers 401
    | Finished(r: nat)                          // it answers anything else
    | Serve(p: nat, ip: string, now: int, minted: Minted, faults: Faults)
    | LoseCall(p: nat)                          // the call fails before the service sees it
    | Respond(p: nat)
    | LoseResponse(p: nat)                      // the fetch fails after the service has answered
    | Body(p: nat)
    | LoseBody(p: nat)                          // res.json() fails
    | ResumeRequest(r: nat)
    | SignIn(email: string, password: string, ip: string, now: int, minted: Minted, faults: Faults)
    | Elsewhere(step: SessionRuns.Step)         // another client of the service

  /** A step out of turn does nothing. */
  function Next(cfg: Config, w: World, step: Step): World {
    var c := w.client;
    match step
    case NewRequest(r) =>
      if r in c.requests then w else w.(client := c.(requests := c.requests[r := Fetching]))
    case Unauthorized(r) =>
      if r !in c.requests || !c.requests[r].Fetching? then w
      else
        var c' := TryRefresh(c, r);
        w.(client := c', presented := if c'.calls != c.calls then w.presented + [c.refreshToken] else w.presented)
    case Finished(r) =>
      if r !in c.requests || !c.requests[r].Fetching? then w else w.(client := c.(requests := c.requests - {r}))
    case Serve(p, ip, now, minted, faults) =>
      if p !in c.calls || !c.calls[p].Sent? then w
      else
        var token := c.calls[p].token;
        var r := RefreshStep(cfg, w.db, token, ip, now, minted, faults);
        var rotates := SessionRuns.Rotates(cfg, w.db, SessionRuns.Refresh(token, ip, now, minted, faults));
        World(r.1, c.(calls := c.calls[p := Answered(token, r.0)]),
              if rotates then w.rotated + {token} else w.rotated, w.presented)
    case LoseCall(p) =>
      if p !in c.calls || !c.calls[p].Sent? then w else w.(client := EndCall(c, p, false))
    case Respond(p) =>
      if p !in c.calls || !c.calls[p].Answered? then w else w.(client := OnResponse(c, p))
    case LoseResponse(p) =>
      if p !in c.calls || !c.calls[p].Answered? then w else w.(client := EndCall(c, p, false))
    case Body(p) =>
      if p !in c.calls || !c.calls[p].Reading? then w else w.(client := OnBody(c, p))
    case LoseBody(p) =>
      if p !in c.calls || !c.calls[p].Reading? then w else w.(client := EndCall(c, p, false))
    case ResumeRequest(r) =>
      if r !in c.requests || !c.requests[r].Waiting? || c.requests[r].promise !in c.resolved then w
      else w.(client := Resume(c, r))
    case SignIn(email, password, ip, now, minted, faults) =>
      var r := LoginStep(cfg, w.db, email, password, ip, now, minted, faults);
      w.(db := r.1, client := match r.0 case Issued(pair) => SetTokens(c, pair) case Failed(_) => c)
    case Elsewhere(other) =>
      w.(db := SessionRuns.Next(cfg, w.db, other),
         rotated := if SessionRuns.Rotates(cfg, w.db, other) then w.rotated + {other.token} else w.rotated)
  }

  function Run(cfg: Config, w: World, steps: seq<Step>): World
    decreases steps
  {
    if steps == [] then w else Run(cfg, Next(cfg, w, steps[0]), steps[1..])
  }

  // ---------------------------------------------------------------------------
  // One refresh at a time
  // ---------------------------------------------------------------------------

  /** An outstanding call is the one the module variable names; its promise has not ended. */
  ghost predicate SingleFlight(c: Client) {
    && (forall p :: p in c.calls ==> c.inflight == Some(p) && p !in c.resolved)
    && (forall p :: p in c.calls || p in c.resolved ==> p < c.nextPromise)
  }

  lemma StepKeepsSingleFlight(cfg: Config, w: World, step: Step)
    requires SingleFlight(w.client)
    ensures SingleFlight(Next(cfg, w, step).client)
  {}

  /** In every interleaving at most one call to /auth/refresh is outstanding. */
  lemma {:induction false} AtMostOneRefresh(cfg: Config, w: World, steps: seq<Step>)
    requires SingleFlight(w.client)
    ensures SingleFlight(Run(cfg, w, steps).client)
    ensures forall p, q :: p in Run(cfg, w, steps).client.calls && q in Run(cfg, w, steps).client.calls ==> p == q
    decreases steps
  {
    if steps != [] {
      StepKeepsSingleFlight(cfg, w, steps[0]);
      AtMostOneRefresh(cfg, Next(cfg, w, steps[0]), steps[1..]);
    }
  }

  /** A request that waits has something to wait for: its promise has ended, or its call is still out. */
  ghost predicate Attended(c: Client) {
    && (forall r :: r in c.requests && c.requests[r].Waiting?
             ==> c.requests[r].promise in c.resolved || c.requests[r].promise in c.calls)
    && (c.inflight.Some? ==> c.inflight.value in c.resolved || c.inflight.value in c.calls)
  }

  lemma StepKeepsAttended(cfg: Config, w: World, step: Step)
    requires Attended(w.client)
    ensures Attended(Next(cfg, w, step).client)
  {
    hide RefreshStep, LoginStep, SessionRuns.Next, SessionRuns.Rotates;
  }

  /**
   No request is forgotten: in every interleaving each waiting request's promise has ended or has a call outstanding.
   */
  lemma {:induction false} NoRequestForgotten(cfg: Config, w: World, steps: seq<Step>)
    requires Attended(w.client)
    ensures Attended(Run(cfg, w, steps).client)
    decreases steps
  {
    if steps != [] {
      StepKeepsAttended(cfg, w, steps[0]);
      hide Next, Attended;
      NoRequestForgotten(cfg, Next(cfg, w, steps[0]), steps[1..]);
    }
  }

  // ---------------------------------------------------------------------------
  // A rotated token is not presented again
  // ---------------------------------------------------------------------------

  /** The service has rotated, and the new pair has yet to reach the tab. */
  predicate SuccessPending(c: Client) {
    exists p :: p in c.calls && (c.calls[p].Reading? || (c.calls[p].Answered? && c.calls[p].result.Issued?))
  }

  function PairOf(call: Call): Option<TokenPair> {
    match call
    case Sent(_) => None
    case Answered(_, Issued(pair)) => Some(pair)
    case Answered(_, Failed(_)) => None
    case Reading(_, pair) => Some(pair)
  }

  /** A token that the tab holds, or that is on its way to it, and that may still be exchanged. */
  predicate Holds(c: Client, token: string) {
    || (c.refreshToken == token && !SuccessPending(c))
    || exists p :: p in c.calls &&
         (c.calls[p] == Sent(token) || (PairOf(c.calls[p]).Some? && PairOf(c.calls[p]).value.refreshToken == token))
  }

  /** No token that the tab could still use has been rotated. */
  ghost predicate TokensLive(w: World) {
    forall t :: t in w.rotated ==> t != "" && !Holds(w.client, t)
  }

  /**
   The premises, at one step: the random source mints new tokens; every rotation succeeds and its response
   reaches the tab; nobody else presents the tab's tokens.
   */
  ghost predicate Delivered(cfg: Config, w: World, step: Step) {
    match step
    case Serve(p, ip, now, minted, faults) =>
      p in w.client.calls && w.client.calls[p].Sent? ==>
        var token := w.client.calls[p].token;
        && minted.refreshToken !in w.rotated + {token}
        && (SessionRuns.Rotates(cfg, w.db, SessionRuns.Refresh(token, ip, now, minted, faults))
            ==> RefreshStep(cfg, w.db, token, ip, now, minted, faults).0.Issued?)
    case LoseResponse(p) => p in w.client.calls && w.client.calls[p].Answered? ==> w.client.calls[p].result.Failed?
    case LoseBody(p) => p !in w.client.calls || !w.client.calls[p].Reading?
    case SignIn(_, _, _, _, minted, _) => minted.refreshToken !in w.rotated
    case Elsewhere(other) => other.Refresh? ==> !Holds(w.client, other.token)
    case _ => true
  }

  ghost predicate AllDelivered(cfg: Config, w: World, steps: seq<Step>)
    decreases steps
  {
    steps == [] || (Delivered(cfg, w, steps[0]) && AllDelivered(cfg, Next(cfg, w, steps[0]), steps[1..]))
  }

  lemma StepKeepsTokensLive(cfg: Config, w: World, step: Step)
    requires SingleFlight(w.client) && TokensLive(w) && Delivered(cfg, w, step)
    ensures TokensLive(Next(cfg, w, step))
  {
    var c, w' := w.client, Next(cfg, w, step);
    match step {
      case Serve(p, ip, now, minted, faults) =>
        ServeKeepsTokensLive(cfg, w, step);
      case LoseCall(p) => EndKeepsTokensLive(cfg, w, step, p);
      case LoseResponse(p) => EndKeepsTokensLive(cfg, w, step, p);
      case Respond(p) => RespondKeepsTokensLive(cfg, w, step, p);
      case Body(p) => BodyKeepsTokensLive(cfg, w, step, p);
      case Unauthorized(r) => UnauthorizedKeepsTokensLive(cfg, w, step, r);
      case SignIn(_, _, _, _, minted, _) =>
        assert w'.client.calls == c.calls;
        assert SuccessPending(w'.client) == SuccessPending(c);
      case Elsewhere(other) =>
        assert w'.client == c;
      case _ =>
        assert w'.client.calls == c.calls;
        assert SuccessPending(w'.client) == SuccessPending(c);
    }
  }

  lemma BodyKeepsTokensLive(cfg: Config, w: World, step: Step, p: nat)
    requires step == Body(p) && SingleFlight(w.client) && TokensLive(w)
    ensures TokensLive(Next(cfg, w, step))
  {
    var c := w.client;
    if p in c.calls && c.calls[p].Reading? {
      assert Holds(c, c.calls[p].pair.refreshToken);
      assert Next(cfg, w, step).client.calls == map[];
    }
  }

  lemma UnauthorizedKeepsTokensLive(cfg: Config, w: World, step: Step, r: nat)
    requires step == Unauthorized(r) && SingleFlight(w.client) && TokensLive(w)
    ensures TokensLive(Next(cfg, w, step))
  {
    var c, w' := w.client, Next(cfg, w, step);
    if w' != w && c.inflight.None? {
      assert c.calls == map[];
      assert Holds(c, c.refreshToken);
      assert forall q :: q in w'.client.calls ==> w'.client.calls[q] == Sent(c.refreshToken);
    }
  }

  lemma EndKeepsTokensLive(cfg: Config, w: World, step: Step, p: nat)
    requires step == LoseCall(p) || step == LoseResponse(p)
    requires SingleFlight(w.client) && TokensLive(w) && Delivered(cfg, w, step)
    ensures TokensLive(Next(cfg, w, step))
  {
    var c, w' := w.client, Next(cfg, w, step);
    if w' != w {
      assert w'.client.calls == map[];
      assert !SuccessPending(c);
    }
  }

  lemma RespondKeepsTokensLive(cfg: Config, w: World, step: Step, p: nat)
    requires step == Respond(p) && SingleFlight(w.client) && TokensLive(w)
    ensures TokensLive(Next(cfg, w, step))
  {
    var c, w' := w.client, Next(cfg, w, step);
    if w' != w {
      if c.calls[p].result.Failed? {
        assert w'.client.calls == map[];
        assert !SuccessPending(c);
      } else {
        assert w'.client.calls[p].Reading?;
        assert SuccessPending(c) && SuccessPending(w'.client);
        assert PairOf(w'.client.calls[p]) == PairOf(c.calls[p]);
      }
    }
  }

  lemma ServeKeepsTokensLive(cfg: Config, w: World, step: Step)
    requires step.Serve? && SingleFlight(w.client) && TokensLive(w) && Delivered(cfg, w, step)
    ensures TokensLive(Next(cfg, w, step))
  {
    var c, w', p := w.client, Next(cfg, w, step), step.p;
    if p in c.calls && c.calls[p].Sent? {
      var token := c.calls[p].token;
      SessionRuns.OnlyRotationIssues(cfg, w.db,
          SessionRuns.Refresh(token, step.ip, step.now, step.minted, step.faults));
      assert Holds(c, token) && !SuccessPending(c);
      assert w'.client.calls[p].Answered?;
      assert forall q :: q in w'.client.calls ==> q == p;
      if w'.client.calls[p].result.Issued? {
        assert SuccessPending(w'.client);
        assert w'.client.calls[p].result.pair.refreshToken == step.minted.refreshToken;
      }
    }
  }

  /** The step sends a refresh token that the service has already rotated. */
  predicate PresentsRotated(w: World, step: Step) {
    && step.Unauthorized? && step.r in w.client.requests && w.client.requests[step.r].Fetching?
    && w.client.inflight.None? && w.client.refreshToken in w.rotated
  }

  ghost predicate NeverPresentsRotated(cfg: Config, w: World, steps: seq<Step>)
    decreases steps
  {
    steps == [] || (!PresentsRotated(w, steps[0]) && NeverPresentsRotated(cfg, Next(cfg, w, steps[0]), steps[1..]))
  }

  lemma TokenInHandIsLive(w: World, step: Step)
    requires SingleFlight(w.client) && TokensLive(w)
    ensures !PresentsRotated(w, step)
  {
    if w.client.inflight.None? {
      assert w.client.calls == map[];
      assert Holds(w.client, w.client.refreshToken);
    }
  }

  /**
   While every rotation's success reaches the tab, no refresh token that the service has
   rotated is ever presented again, in every interleaving.
   */
  lemma {:induction false} RotatedNeverPresented(cfg: Config, w: World, steps: seq<Step>)
    requires SingleFlight(w.client) && TokensLive(w) && AllDelivered(cfg, w, steps)
    ensures NeverPresentsRotated(cfg, w, steps)
    decreases steps
  {
    if steps != [] {
      var step := steps[0];
      TokenInHandIsLive(w, step);
      StepKeepsSingleFlight(cfg, w, step);
      StepKeepsTokensLive(cfg, w, step);
      RotatedNeverPresented(cfg, Next(cfg, w, step), steps[1..]);
    }
  }

  // ---------------------------------------------------------------------------
  // From which states a rotated token can be presented
  // ---------------------------------------------------------------------------

  /** The module variable holds a promise that has ended. */
  ghost predicate Stuck(c: Client) {
    c.inflight.Some? && c.inflight.value in c.resolved && c.calls == map[]
  }

  /** The refresh token that the tab has in hand, or will have once the new pair on its way has come. */
  function NextToken(c: Client): string {
    if c.inflight.Some? && c.inflight.value in c.calls && PairOf(c.calls[c.inflight.value]).Some?
    then PairOf(c.calls[c.inflight.value]).value.refreshToken
    else c.refreshToken
  }

  /** The next refresh would present a rotated token. */
  ghost predicate Doomed(w: World) {
    !Stuck(w.client) && NextToken(w.client) in w.rotated
  }

  /** What the code keeps in every interleaving, and that the empty token is never rotated. */
  ghost predicate Sane(w: World) {
    SingleFlight(w.client) && Attended(w.client) && "" !in w.rotated
  }

  lemma StepKeepsSane(cfg: Config, w: World, step: Step)
    requires Sane(w)
    ensures Sane(Next(cfg, w, step))
  {
    StepKeepsSingleFlight(cfg, w, step);
    StepKeepsAttended(cfg, w, step);
    hide SingleFlight, Attended, RefreshStep, LoginStep;
  }

  lemma NextTokenIsHeld(c: Client)
    requires SingleFlight(c)
    ensures Holds(c, NextToken(c))
  {
    if SuccessPending(c) {
      var p :| p in c.calls && (c.calls[p].Reading? || (c.calls[p].Answered? && c.calls[p].result.Issued?));
      assert c.inflight == Some(p) && PairOf(c.calls[p]).Some?;
    }
  }

  lemma ServeKeepsLive(cfg: Config, w: World, step: Step)
    requires step.Serve? && Sane(w) && Delivered(cfg, w, step) && NextToken(w.client) !in w.rotated
    ensures NextToken(Next(cfg, w, step).client) !in Next(cfg, w, step).rotated
  {
    var c, p := w.client, step.p;
    if p in c.calls && c.calls[p].Sent? {
      var refresh := SessionRuns.Refresh(c.calls[p].token, step.ip, step.now, step.minted, step.faults);
      SessionRuns.OnlyRotationIssues(cfg, w.db, refresh);
      assert c.inflight == Some(p);
    }
  }

  /** A delivered step of a tab that is not stuck does not bring a rotated token into its hands. */
  lemma StepKeepsLive(cfg: Config, w: World, step: Step)
    requires Sane(w) && Delivered(cfg, w, step) && NextToken(w.client) !in w.rotated
    ensures NextToken(Next(cfg, w, step).client) !in Next(cfg, w, step).rotated
  {
    match step {
      case Serve(_, _, _, _, _) => ServeKeepsLive(cfg, w, step);
      case SignIn(_, _, _, _, _, _) =>
      case Elsewhere(other) =>
        NextTokenIsHeld(w.client);
        hide SessionRuns.Next, Holds;
      case _ =>
        hide RefreshStep, LoginStep, SessionRuns.Next, SessionRuns.Rotates, Attended;
    }
  }

  lemma StaysStuck(cfg: Config, w: World, step: Step)
    requires Stuck(w.client)
    ensures Stuck(Next(cfg, w, step).client)
  {
    hide RefreshStep, LoginStep, SessionRuns.Next, SessionRuns.Rotates;
  }

  lemma StepKeepsUndoomed(cfg: Config, w: World, step: Step)
    requires Sane(w) && Delivered(cfg, w, step) && !Doomed(w)
    ensures !Doomed(Next(cfg, w, step)) && !PresentsRotated(w, step)
  {
    if Stuck(w.client) {
      StaysStuck(cfg, w, step);
    } else {
      StepKeepsLive(cfg, w, step);
    }
    hide Next;
  }

  lemma {:induction false} UndoomedNeverPresents(cfg: Config, w: World, steps: seq<Step>)
    requires Sane(w) && AllDelivered(cfg, w, steps) && !Doomed(w)
    ensures NeverPresentsRotated(cfg, w, steps)
    decreases steps
  {
    if steps != [] {
      StepKeepsUndoomed(cfg, w, steps[0]);
      StepKeepsSane(cfg, w, steps[0]);
      hide Sane, Doomed, Next;
      UndoomedNeverPresents(cfg, Next(cfg, w, steps[0]), steps[1..]);
    }
  }

  /** Some request that is not open. */
  lemma {:induction false} UnusedRequest(used: set<nat>) returns (r: nat)
    ensures forall u :: u in used ==> u < r
    decreases used
  {
    r := 0;
    if used != {} {
      var u :| u in used;
      var below := UnusedRequest(used - {u});
      r := if below > u then below else u + 1;
      assert forall v :: v in used ==> v == u || v in used - {u};
    }
  }

  /** The step that brings the outstanding call one step nearer to its end, with nothing lost that was rotated. */
  function Onward(c: Client, p: nat): Step
    requires p in c.calls
  {
    match c.calls[p]
    case Sent(_) => LoseCall(p)
    case Answered(_, _) => Respond(p)
    case Reading(_, _) => Body(p)
  }

  function StepsLeft(c: Client): nat {
    if c.inflight.Some? && c.inflight.value in c.calls then
      if c.calls[c.inflight.value].Answered? then 2 else 1
    else 0
  }

  lemma OnwardKeepsDoomed(cfg: Config, w: World, p: nat)
    requires Sane(w) && Doomed(w) && w.client.inflight == Some(p) && p in w.client.calls
    ensures var w' := Next(cfg, w, Onward(w.client, p));
            && Delivered(cfg, w, Onward(w.client, p)) && Doomed(w')
            && StepsLeft(w'.client) < StepsLeft(w.client)
  {
    var c := w.client;
    var w' := Next(cfg, w, Onward(c, p));
    assert c.calls.Keys == {p};
    if w'.client.inflight.Some? {
      assert w'.client.calls[p].Reading?;
    }
  }

  /** From a doomed state: let the call end, and have one more request answered 401. */
  lemma {:induction false} DoomedCanPresent(cfg: Config, w: World) returns (steps: seq<Step>)
    requires Sane(w) && Doomed(w)
    ensures AllDelivered(cfg, w, steps) && !NeverPresentsRotated(cfg, w, steps)
    decreases StepsLeft(w.client)
  {
    var c := w.client;
    if c.inflight.Some? {
      var p := c.inflight.value;
      assert p in c.calls;
      OnwardKeepsDoomed(cfg, w, p);
      StepKeepsSane(cfg, w, Onward(c, p));
      var rest := DoomedCanPresent(cfg, Next(cfg, w, Onward(c, p)));
      steps := [Onward(c, p)] + rest;
      assert steps[1..] == rest;
      hide Next, Delivered, PresentsRotated;
    } else {
      var r := UnusedRequest(c.requests.Keys);
      steps := [NewRequest(r)] + [Unauthorized(r)];
      PresentsNow(cfg, w, r);
    }
  }

  lemma PresentsNow(cfg: Config, w: World, r: nat)
    requires Sane(w) && Doomed(w) && w.client.inflight.None? && r !in w.client.requests
    ensures AllDelivered(cfg, w, [NewRequest(r)] + [Unauthorized(r)])
    ensures !NeverPresentsRotated(cfg, w, [NewRequest(r)] + [Unauthorized(r)])
  {
    var steps := [NewRequest(r)] + [Unauthorized(r)];
    var w' := Next(cfg, w, NewRequest(r));
    assert steps[1..] == [Unauthorized(r)] && [Unauthorized(r)][1..] == [];
    assert AllDelivered(cfg, Next(cfg, w', Unauthorized(r)), []);
    assert PresentsRotated(w', Unauthorized(r));
  }

  /**
   The exact condition: from a state that the code can be in, some interleaving in which everything is delivered
   presents a rotated token exactly when the token in hand, or in the pair on its way, has been rotated and the tab is
   not stuck.
   */
  lemma CanPresentRotatedIff(cfg: Config, w: World)
    requires Sane(w)
    ensures (exists steps :: AllDelivered(cfg, w, steps) && !NeverPresentsRotated(cfg, w, steps)) <==> Doomed(w)
  {
    if Doomed(w) {
      var steps := DoomedCanPresent(cfg, w);
    } else {
      forall steps | AllDelivered(cfg, w, steps) ensures NeverPresentsRotated(cfg, w, steps) {
        UndoomedNeverPresents(cfg, w, steps);
      }
    }
  }

  // ---------------------------------------------------------------------------
  // What happens when a premise fails
  // ---------------------------------------------------------------------------

  /**
   One lost response is enough: two requests are answered 401; the refresh of the first is served but
   its response is lost; the second request then presents the rotated token.
   */
  lemma LostResponsePresentsRotated(cfg: Config, w: World, minted: Minted, now: int)
    requires w.client.inflight.None? && w.client.calls == map[]
    requires w.client.requests == map[0 := Fetching, 1 := Fetching]
    requires SessionRuns.Rotates(cfg, w.db,
        SessionRuns.Refresh(w.client.refreshToken, "", now, minted, Faults(false, false, false)))
    ensures var p := w.client.nextPromise;
            var serve := Serve(p, "", now, minted, Faults(false, false, false));
            var served := Run(cfg, w, [Unauthorized(0)] + ([serve] + ([LoseResponse(p)] + [])));
            PresentsRotated(served, Unauthorized(1))
  {
    var p := w.client.nextPromise;
    var serve := Serve(p, "", now, minted, Faults(false, false, false));
    var w1 := Next(cfg, w, Unauthorized(0));
    var w2 := Next(cfg, w1, serve);
    RunCons(cfg, w, Unauthorized(0), [serve] + ([LoseResponse(p)] + []));
    RunCons(cfg, w1, serve, [LoseResponse(p)] + []);
    RunCons(cfg, w2, LoseResponse(p), []);
    assert w1.client.calls[p] == Sent(w.client.refreshToken);
    assert w2.client.calls[p].Answered?;
  }

  lemma RunCons(cfg: Config, w: World, step: Step, rest: seq<Step>)
    ensures Run(cfg, w, [step] + rest) == Run(cfg, Next(cfg, w, step), rest)
  {
    assert ([step] + rest)[1..] == rest;
  }

  /**
   A 401 that finds no refresh token leaves the tab without refresh for good: the early return is outside
   the try block, the module variable is never cleared, and no call to /auth/refresh is ever sent again.
   */
  lemma {:induction false} StuckForever(cfg: Config, w: World, steps: seq<Step>)
    requires Stuck(w.client)
    ensures Stuck(Run(cfg, w, steps).client) && Run(cfg, w, steps).presented == w.presented
    decreases steps
  {
    if steps != [] {
      StuckForever(cfg, Next(cfg, w, steps[0]), steps[1..]);
    }
  }

  /** Exactly the missing token brings that about: any other 401 without a refresh in flight sends a call. */
  lemma StuckIffNoToken(cfg: Config, w: World, r: nat)
    requires SingleFlight(w.client) && w.client.inflight.None?
    requires r in w.client.requests && w.client.requests[r].Fetching?
    ensures Stuck(Next(cfg, w, Unauthorized(r)).client) <==> w.client.refreshToken == ""
    ensures w.client.refreshToken != ""
        ==> Next(cfg, w, Unauthorized(r)).presented == w.presented + [w.client.refreshToken]
  {
    var c, c' := w.client, Next(cfg, w, Unauthorized(r)).client;
    if c.refreshToken != "" {
      assert c.nextPromise in c'.calls && c.nextPromise !in c.calls;
    } else {
      assert c.calls == map[];
    }
  }

  // ---------------------------------------------------------------------------
  // The code of the tab
  // ---------------------------------------------------------------------------

  /** client.ts: its module variable, the token store it uses, and its pending continuations. */
  class Tab {
    var accessToken: string
    var refreshToken: string
    var inflight: Option<nat>
    var resolved: map<nat, bool>
    var calls: map<nat, Call>
    var requests: map<nat, Request>
    var nextPromise: nat

    function State(): Client
      reads this
    {
      Client(accessToken, refreshToken, inflight, resolved, calls, requests, nextPromise)
    }

    constructor ()
      ensures State() == START
    {
      accessToken, refreshToken := "", "";
      inflight, resolved, calls, requests, nextPromise := None, map[], map[], map[], 0;
    }

    /** The 401 branch of `request`, up to the await on tryRefresh. */
    method OnUnauthorized(r: nat)
      modifies this
      ensures State() == TryRefresh(old(State()), r)
    {
      if inflight.Some? {
        requests := requests[r := Waiting(inflight.value)];
        return;
      }
      var p := nextPromise;
      nextPromise := nextPromise + 1;
      if refreshToken == "" {
        resolved := resolved[p := false];
      } else {
        calls := calls[p := Sent(refreshToken)];
      }
      inflight := Some(p);
      requests := requests[r := Waiting(p)];
    }

    method Finally(p: nat, ok: bool)
      modifies this`inflight, this`calls, this`resolved
      ensures State() == EndCall(old(State()), p, ok)
    {
      inflight := None;
      calls := calls - {p};
      resolved := resolved[p := ok];
    }

    method OnRefreshResponse(p: nat)
      requires p in calls && calls[p].Answered?
      modifies this
      ensures State() == OnResponse(old(State()), p)
    {
      match calls[p].result {
        case Failed(_) =>
          Finally(p, false);
        case Issued(pair) =>
          calls := calls[p := Reading(calls[p].token, pair)];
      }
    }

    method OnRefreshBody(p: nat)
      requires p in calls && calls[p].Reading?
      modifies this
      ensures State() == OnBody(old(State()), p)
    {
      var pair := calls[p].pair;
      accessToken := pair.accessSession;
      refreshToken := pair.refreshToken;
      Finally(p, true);
    }

    method OnRefreshed(r: nat)
      requires r in requests && requests[r].Waiting? && requests[r].promise in resolved
      modifies this
      ensures State() == Resume(old(State()), r)
    {
      if resolved[requests[r].promise] {
        requests := requests[r := Fetching];
      } else {
        accessToken, refreshToken := "", "";
        requests := requests - {r};
      }
    }
  }
}
