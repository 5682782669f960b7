/**
 The license state machine with its cached mode (internal/license/license.go), and the middleware that
 enforces the cached mode (internal/api/middleware/readonly.go). Times are nanoseconds since the Unix epoch.
 */
module License {
  import opened Common

  const SECOND := 1_000_000_000
  const DAY := 24 * 60 * 60 * SECOND
  const TWO_TO_THE_63 := 0x8000_0000_0000_0000
  const TWO_TO_THE_64 := 0x1_0000_0000_0000_0000

  datatype Mode = Active | Grace | Locked

  datatype License = License(expiresAt: int, graceDays: int, features: seq<string>)

  /** What an int64 product comes out as: time.Duration wraps around. */
  function WrapInt64(x: int): (r: int)
    ensures -TWO_TO_THE_63 <= r < TWO_TO_THE_63
    ensures (r - x) % TWO_TO_THE_64 == 0
    ensures -TWO_TO_THE_63 <= x < TWO_TO_THE_63 ==> r == x
  {
    var m := x % TWO_TO_THE_64;
    var r := if m < TWO_TO_THE_63 then m else m - TWO_TO_THE_64;
    assert x == TWO_TO_THE_64 * (x / TWO_TO_THE_64) + m;
    WrapsByWholeTurns(r - x, if m < TWO_TO_THE_63 then -(x / TWO_TO_THE_64) else -(x / TWO_TO_THE_64) - 1);
    r
  }

  lemma WrapsByWholeTurns(d: int, k: int)
    requires d == TWO_TO_THE_64 * k
    ensures d % TWO_TO_THE_64 == 0
  {}

  function ExpiresAtTime(l: License): int {
    l.expiresAt * SECOND
  }

  function GraceEndsAt(l: License): int {
    ExpiresAtTime(l) + WrapInt64(l.graceDays * DAY)
  }

  function ModeAt(l: License, now: int): Mode {
    if now < ExpiresAtTime(l) then Active
    else if now < GraceEndsAt(l) then Grace
    else Locked
  }

  function Strictness(m: Mode): nat {
    match m case Active => 0 case Grace => 1 case Locked => 2
  }

  /** The mode only ever gets stricter with time, even where the grace period wraps around. */
  lemma ModeMonotone(l: License, now: int, later: int)
    requires now <= later
    ensures Strictness(ModeAt(l, now)) <= Strictness(ModeAt(l, later))
  {}

  /** The mode that the package comment at internal/license/license.go:14-17 describes. */
  function DocumentedMode(l: License, now: int): Mode {
    if now < ExpiresAtTime(l) then Active
    else if now < ExpiresAtTime(l) + l.graceDays * DAY then Grace
    else Locked
  }

  /** ModeAt is the documented mode at all times exactly when the product is right, or gives no grace either way. */
  lemma DocumentedIffProduct(l: License)
    ensures var grace, wrapped := l.graceDays * DAY, WrapInt64(l.graceDays * DAY);
            (forall now :: ModeAt(l, now) == DocumentedMode(l, now))
            <==> wrapped == grace || (wrapped <= 0 && grace <= 0)
  {
    var e, grace, wrapped := ExpiresAtTime(l), l.graceDays * DAY, WrapInt64(l.graceDays * DAY);
    if grace != wrapped && !(wrapped <= 0 && grace <= 0) {
      var now := e + if grace < wrapped then (if grace < 0 then 0 else grace) else (if wrapped < 0 then 0 else wrapped);
      assert ModeAt(l, now) != DocumentedMode(l, now);
    }
  }

  /** The most days whose nanoseconds fit an int64. */
  const MAX_GRACE_DAYS := 106751

  lemma GraceFitsIff(days: int)
    requires days >= 0
    ensures WrapInt64(days * DAY) == days * DAY <==> days <= MAX_GRACE_DAYS
  {
    assert MAX_GRACE_DAYS * DAY < TWO_TO_THE_63 <= (MAX_GRACE_DAYS + 1) * DAY;
    if days > MAX_GRACE_DAYS {
      assert days * DAY >= (MAX_GRACE_DAYS + 1) * DAY;
    } else {
      assert days * DAY <= MAX_GRACE_DAYS * DAY;
    }
  }

  /**
   The documented mode is met at all times exactly by a grace period of at most 106751 days (292 years) or, for a
   negative one, when its nanoseconds, less the whole turns of 2^64, are at most 2^63.
   */
  lemma ModeAsDocumentedIff(l: License)
    ensures (forall now :: ModeAt(l, now) == DocumentedMode(l, now))
            <==> if l.graceDays >= 0 then l.graceDays <= MAX_GRACE_DAYS
                 else (-l.graceDays * DAY) % TWO_TO_THE_64 <= TWO_TO_THE_63
  {
    DocumentedIffProduct(l);
    if l.graceDays >= 0 {
      GraceFitsIff(l.graceDays);
    } else {
      NegativeWraps(-l.graceDays * DAY);
      assert l.graceDays * DAY == -(-l.graceDays * DAY) < 0;
    }
  }

  /** A negative product comes out as no grace unless it wraps around to a positive one. */
  lemma NegativeWraps(x: int)
    requires x > 0
    ensures WrapInt64(-x) <= 0 <==> x % TWO_TO_THE_64 <= TWO_TO_THE_63
    ensures x <= TWO_TO_THE_63 ==> x % TWO_TO_THE_64 == x
  {
    var q, m := x / TWO_TO_THE_64, x % TWO_TO_THE_64;
    assert x == TWO_TO_THE_64 * q + m;
    assert -x == TWO_TO_THE_64 * -q - m == TWO_TO_THE_64 * (-q - 1) + (TWO_TO_THE_64 - m);
  }

  /** The first grace period that fails: such a license is locked the moment it expires, where grace is documented. */
  lemma GraceTooLong(l: License)
    requires l.graceDays == MAX_GRACE_DAYS + 1
    ensures ModeAt(l, ExpiresAtTime(l)) == Locked && DocumentedMode(l, ExpiresAtTime(l)) == Grace
  {
    assert TWO_TO_THE_63 <= (MAX_GRACE_DAYS + 1) * DAY < TWO_TO_THE_64;
  }

  /** And the first negative one: grace for 292 years, where the license is documented to be locked. */
  lemma GraceTooNegative(l: License)
    requires l.graceDays == -MAX_GRACE_DAYS - 1
    ensures ModeAt(l, ExpiresAtTime(l)) == Grace && DocumentedMode(l, ExpiresAtTime(l)) == Locked
  {
    assert TWO_TO_THE_63 < (MAX_GRACE_DAYS + 1) * DAY < TWO_TO_THE_64;
    NegativeWraps((MAX_GRACE_DAYS + 1) * DAY);
  }

  // ---------------------------------------------------------------------------
  // Days left
  // ---------------------------------------------------------------------------

  /** Go's integer division, which truncates toward zero. */
  function TruncDiv(a: int, b: int): int
    requires b > 0
  {
    if a >= 0 then a / b else -((-a) / b)
  }

  function DaysRemaining(l: License, now: int): int {
    TruncDiv(ExpiresAtTime(l) - now, DAY)
  }

  function DaysUntilLocked(l: License, now: int): int {
    TruncDiv(GraceEndsAt(l) - now, DAY)
  }

  /** `days` whole days fit below `d`, and one more does not. */
  predicate RoundsDown(d: int, days: int) {
    days * DAY <= d < (days + 1) * DAY
  }

  lemma TruncRoundsDownIff(d: int)
    ensures RoundsDown(d, TruncDiv(d, DAY)) <==> d >= 0 || d % DAY == 0
  {
    if d >= 0 {
      assert d == DAY * (d / DAY) + d % DAY;
    } else {
      var q, r := (-d) / DAY, (-d) % DAY;
      assert -d == DAY * q + r;
      if r == 0 {
        assert d == DAY * -q;
        assert d % DAY == 0;
      } else {
        assert d == DAY * (-q - 1) + (DAY - r);
        assert d % DAY == DAY - r;
      }
    }
  }

  /**
   The day counts are rounded down as their comments say, exactly until the moment counted to or a whole number of
   days after.
   */
  lemma DaysRoundDownIff(l: License, now: int)
    ensures RoundsDown(ExpiresAtTime(l) - now, DaysRemaining(l, now))
            <==> now <= ExpiresAtTime(l) || (ExpiresAtTime(l) - now) % DAY == 0
    ensures RoundsDown(GraceEndsAt(l) - now, DaysUntilLocked(l, now))
            <==> now <= GraceEndsAt(l) || (GraceEndsAt(l) - now) % DAY == 0
  {
    TruncRoundsDownIff(ExpiresAtTime(l) - now);
    TruncRoundsDownIff(GraceEndsAt(l) - now);
  }

  // ---------------------------------------------------------------------------
  // Features
  // ---------------------------------------------------------------------------

  predicate HasPrefix(s: string, prefix: string) {
    prefix <= s
  }

  predicate HasSuffix(s: string, suffix: string) {
    |suffix| <= |s| && s[|s| - |suffix|..] == suffix
  }

  predicate PatternMatches(pattern: string, s: string) {
    if pattern == "*" then true
    else if HasSuffix(pattern, ".*") then
      var prefix := pattern[..|pattern| - 2];
      HasPrefix(s, prefix + ".") || s == prefix
    else pattern == s
  }

  predicate Negated(pattern: string, feature: string) {
    HasPrefix(pattern, "!") && PatternMatches(pattern[1..], feature)
  }

  predicate Granted(pattern: string, feature: string) {
    !HasPrefix(pattern, "!") && (pattern == "*" || PatternMatches(pattern, feature))
  }

  /** HasFeature: a pass over the patterns for negations, then one for grants; a missing license has none. */
  method HasFeature(lic: Option<License>, feature: string) returns (has: bool)
    ensures has <==> lic.Some? && Enabled(Patterns(lic.value.features), feature)
  {
    if lic.None? {
      return false;
    }
    var features := lic.value.features;
    var i := 0;
    while i < |features|
      invariant 0 <= i <= |features| && forall k :: 0 <= k < i ==> !Negated(features[k], feature)
    {
      if HasPrefix(features[i], "!") {
        if PatternMatches(features[i][1..], feature) {
          assert features[i] in Patterns(features);
          return false;
        }
      }
      i := i + 1;
    }
    i := 0;
    while i < |features|
      invariant 0 <= i <= |features| && forall k :: 0 <= k < i ==> !Granted(features[k], feature)
    {
      if !HasPrefix(features[i], "!") && (features[i] == "*" || PatternMatches(features[i], feature)) {
        assert features[i] in Patterns(features) && Granted(features[i], feature);
        return true;
      }
      i := i + 1;
    }
    return false;
  }

  function Patterns(features: seq<string>): set<string> {
    set f | f in features
  }

  /** The documented meaning, in which neither order nor repetition of the patterns counts. */
  predicate Enabled(patterns: set<string>, feature: string) {
    (forall p :: p in patterns ==> !Negated(p, feature)) && exists p :: p in patterns && Granted(p, feature)
  }

  /** A dotted wildcard covers a name exactly if it is the prefix itself or lies below it. */
  lemma WildcardCovers(prefix: string, s: string)
    ensures PatternMatches(prefix + ".*", s) <==> s == prefix || exists rest: string :: s == prefix + "." + rest
  {
    var pattern := prefix + ".*";
    assert pattern[|prefix|..] == ".*" && pattern[..|prefix|] == prefix;
    assert |pattern| >= 2;
    if HasPrefix(s, prefix + ".") {
      assert s == prefix + "." + s[|prefix| + 1..];
    }
  }

  /** The name lies at `prefix` or below it. */
  ghost predicate LiesAt(s: string, prefix: string) {
    s == prefix || exists rest: string :: s == prefix + "." + rest
  }

  /** The documented patterns: everything, a name, or a name with all below it. */
  ghost predicate Covers(pattern: string, s: string) {
    pattern == "*" || pattern == s || exists prefix: string :: pattern == prefix + ".*" && LiesAt(s, prefix)
  }

  lemma MatchesIffCovers(pattern: string, s: string)
    ensures PatternMatches(pattern, s) <==> Covers(pattern, s)
  {
    if HasSuffix(pattern, ".*") {
      var prefix := pattern[..|pattern| - 2];
      assert pattern == prefix + ".*";
      WildcardCovers(prefix, s);
      assert LiesAt(s, prefix) <==> PatternMatches(pattern, s);
      if pattern == s {
        assert s == prefix + "." + "*";
      }
      forall other: string | pattern == other + ".*" ensures other == prefix {
        assert other == pattern[..|pattern| - 2];
      }
    } else {
      forall prefix: string ensures pattern != prefix + ".*" {
        assert (prefix + ".*")[|prefix|..] == ".*";
      }
    }
  }

  /** What the documentation says of a feature: some pattern covers it, and no pattern behind a "!" does. */
  lemma EnabledIff(patterns: set<string>, feature: string)
    ensures Enabled(patterns, feature)
        <==> (exists p :: p in patterns && !HasPrefix(p, "!") && Covers(p, feature))
             && forall p: string :: "!" + p in patterns ==> !Covers(p, feature)
  {
    forall p: string ensures PatternMatches(p, feature) <==> Covers(p, feature) {
      MatchesIffCovers(p, feature);
    }
    hide PatternMatches, Covers;
    forall p: string ensures Negated("!" + p, feature) <==> PatternMatches(p, feature) {
      assert ("!" + p)[1..] == p;
    }
    forall p | p in patterns && HasPrefix(p, "!") ensures p == "!" + p[1..] {}
    assert forall p :: Granted(p, feature) <==> !HasPrefix(p, "!") && (p == "*" || PatternMatches(p, feature));
    StarMatches(feature);
  }

  lemma StarMatches(s: string)
    ensures PatternMatches("*", s)
  {}

  // ---------------------------------------------------------------------------
  // The cached mode
  // ---------------------------------------------------------------------------

  /** What was last installed, if anything: a license or nil, and when. */
  datatype Installed = Never | Since(license: Option<License>, at: int)

  /** The package variables. */
  class Global {
    var license: Option<License>
    var mode: Mode
    ghost var installed: Installed

    ghost predicate Valid()
      reads this
    {
      match installed
      case Never => license == None && mode == Active
      case Since(l, at) => license == l && mode == if l.None? then Locked else ModeAt(l.value, at)
    }

    constructor ()
      ensures Valid() && installed == Never
    {
      license, mode, installed := None, Active, Never;
    }

    method SetGlobal(l: Option<License>, now: int)
      modifies this
      ensures Valid() && installed == Since(l, now)
    {
      license := l;
      installed := Since(l, now);
      if l.None? {
        mode := Locked;
        return;
      }
      mode := ModeAt(l.value, now);
    }

    /** CurrentMode is never stricter than the installed license is now. */
    method CurrentMode(ghost now: int) returns (m: Mode)
      requires Valid() && (installed.Since? ==> installed.at <= now)
      ensures m == mode
      ensures installed == Never ==> m == Active
      ensures installed.Since? && installed.license.Some?
              ==> Strictness(m) <= Strictness(ModeAt(installed.license.value, now))
    {
      if installed.Since? && installed.license.Some? {
        ModeMonotone(installed.license.value, installed.at, now);
      }
      m := mode;
    }

    /** ReadOnlyEnforcer; a 423 goes only to a non-exempt write after the grace end, or after nil was installed. */
    method Enforce(verb: string, path: string, ghost now: int) returns (d: Decision)
      requires Valid() && (installed.Since? ==> installed.at <= now)
      ensures d == Decide(mode, verb, path)
      ensures d == Refuse423 <==> IsWrite(verb) && path !in EXEMPT && LockedWhenInstalled(installed)
      ensures d == PassWithWarning <==> IsWrite(verb) && path !in EXEMPT && InGraceWhenInstalled(installed)
      ensures d == Refuse423 ==> installed.license.None? || now >= GraceEndsAt(installed.license.value)
    {
      var m := CurrentMode(now);
      if m == Active {
        return Pass;
      }
      if verb !in WRITE_METHODS {
        return Pass;
      }
      if path in EXEMPT {
        return Pass;
      }
      if m == Locked {
        return Refuse423;
      }
      return PassWithWarning;
    }
  }

  datatype Decision = Pass | PassWithWarning | Refuse423

  const EXEMPT := {"/healthz", "/readyz", "/auth/login", "/auth/refresh",
                   "/api/v1/admin/license/renewal-info", "/api/v1/admin/license"}
  const WRITE_METHODS := {"POST", "PUT", "PATCH", "DELETE"}

  predicate IsWrite(verb: string) {
    verb in WRITE_METHODS
  }

  function Decide(mode: Mode, verb: string, path: string): Decision {
    if !IsWrite(verb) || path in EXEMPT then Pass
    else match mode case Active => Pass case Grace => PassWithWarning case Locked => Refuse423
  }

  /** Nil was installed, or a license whose grace had ended by then. */
  predicate LockedWhenInstalled(i: Installed) {
    match i
    case Never => false
    case Since(None, _) => true
    case Since(Some(l), at) => ModeAt(l, at) == Locked
  }

  /** A license was installed after its expiry and before its grace end. */
  predicate InGraceWhenInstalled(i: Installed) {
    i.Since? && i.license.Some? && ExpiresAtTime(i.license.value) <= i.at < GraceEndsAt(i.license.value)
  }

  // ---------------------------------------------------------------------------
  // Runs
  // ---------------------------------------------------------------------------

  datatype Step = Install(license: Option<License>, at: int) | Request(verb: string, path: string, at: int)

  /** What is installed after a run. */
  function InstalledAfter(steps: seq<Step>): Installed {
    if steps == [] then Never
    else
      match steps[|steps| - 1]
      case Install(l, at) => Since(l, at)
      case Request(_, _, _) => InstalledAfter(steps[..|steps| - 1])
  }

  function CachedMode(i: Installed): Mode {
    match i case Never => Active case Since(None, _) => Locked case Since(Some(l), at) => ModeAt(l, at)
  }

  /** The answer to the request at index `k` of a run. */
  function Answer(steps: seq<Step>, k: nat): Decision
    requires k < |steps| && steps[k].Request?
  {
    Decide(CachedMode(InstalledAfter(steps[..k])), steps[k].verb, steps[k].path)
  }

  /**
   The answer, in terms of when the license was installed: a write outside the exempt paths is refused when the grace
   period was over by then, or nil was installed; it is let through with a warning when the license had expired; and
   everything else passes.
   */
  lemma AnswerIff(steps: seq<Step>, k: nat)
    requires k < |steps| && steps[k].Request?
    ensures var i := InstalledAfter(steps[..k]);
            var gated := steps[k].verb in {"POST", "PUT", "PATCH", "DELETE"} && steps[k].path !in EXEMPT && i.Since?;
            && (Answer(steps, k) == Refuse423
                <==> gated && (i.license.Some? ==> i.at >= ExpiresAtTime(i.license.value)
                                                   && i.at >= GraceEndsAt(i.license.value)))
            && (Answer(steps, k) == PassWithWarning
                <==> gated && i.license.Some? && ExpiresAtTime(i.license.value) <= i.at < GraceEndsAt(i.license.value))
  {}

  ghost predicate ClockForward(steps: seq<Step>) {
    forall i, j :: 0 <= i <= j < |steps| ==> steps[i].at <= steps[j].at
  }

  lemma {:induction false} InstalledEarlier(steps: seq<Step>, n: nat, now: int)
    requires n <= |steps| && forall i :: 0 <= i < n ==> steps[i].at <= now
    ensures var i := InstalledAfter(steps[..n]); i.Since? ==> i.at <= now
  {
    if n > 0 {
      assert steps[..n][..n - 1] == steps[..n - 1];
      InstalledEarlier(steps, n - 1, now);
    }
  }

  /**
   License cache safety: in every run with a clock that goes forward, the cached mode is never stricter than
   the installed license is at the time of the request, so a 423 answers only a non-exempt write made after the
   license's grace end, or while nil is installed.
   */
  lemma RefusedOnlyAfterGrace(steps: seq<Step>, k: nat)
    requires ClockForward(steps) && k < |steps| && steps[k].Request? && Answer(steps, k) == Refuse423
    ensures var i := InstalledAfter(steps[..k]);
            i.Since? && IsWrite(steps[k].verb) && steps[k].path !in EXEMPT
            && (i.license.Some? ==>
                  steps[k].at >= GraceEndsAt(i.license.value) && ModeAt(i.license.value, steps[k].at) == Locked)
  {
    var i := InstalledAfter(steps[..k]);
    InstalledEarlier(steps, k, steps[k].at);
    if i.Since? && i.license.Some? {
      ModeMonotone(i.license.value, i.at, steps[k].at);
    }
  }

  /**
   The comment's "locked: writes return 423" is not met in general, because the cache is not recomputed as time
   passes. A write is refused while its license is locked exactly when it was locked at its installation.
   */
  lemma LockedWriteRefusedIff(steps: seq<Step>, k: nat)
    requires ClockForward(steps) && k < |steps| && steps[k].Request? && IsWrite(steps[k].verb)
    requires steps[k].path !in EXEMPT
    requires InstalledAfter(steps[..k]).Since? && InstalledAfter(steps[..k]).license.Some?
    requires ModeAt(InstalledAfter(steps[..k]).license.value, steps[k].at) == Locked
    ensures var i := InstalledAfter(steps[..k]);
            Answer(steps, k) == Refuse423
            <==> i.at >= ExpiresAtTime(i.license.value) && i.at >= GraceEndsAt(i.license.value)
  {}

  lemma {:induction false} StillInstalled(before: seq<Step>, l: Option<License>, at: int, after: seq<Step>, k: nat)
    requires k <= |after| && forall i :: 0 <= i < |after| ==> after[i].Request?
    ensures InstalledAfter(before + [Install(l, at)] + after[..k]) == Since(l, at)
  {
    var run := before + [Install(l, at)] + after[..k];
    if k > 0 {
      StillInstalled(before, l, at, after, k - 1);
      assert run[|run| - 1] == after[k - 1];
      assert run[..|run| - 1] == before + [Install(l, at)] + after[..k - 1];
    }
  }

  /**
   A license that is installed before it expires is never enforced by the running process: in every run in which
   nothing else is installed afterwards, every later request passes without as much as a warning, at any time.
   */
  lemma NeverEnforcedAfterTimelyInstall(before: seq<Step>, l: License, at: int, after: seq<Step>, k: nat)
    requires at < ExpiresAtTime(l) && (forall i :: 0 <= i < |after| ==> after[i].Request?) && k < |after|
    ensures Answer(before + [Install(Some(l), at)] + after, |before| + 1 + k) == Pass
  {
    var steps := before + [Install(Some(l), at)] + after;
    StillInstalled(before, Some(l), at, after, k);
    assert steps[..|before| + 1 + k] == before + [Install(Some(l), at)] + after[..k];
  }
}
