/**
 The in-process token bucket (internal/api/middleware/ratelimit.go): one bucket per key,
 refilled lazily when a request for the key arrives. Go's float64 seconds are modelled by reals.
 */
module RateLimit {

  datatype Bucket = Bucket(tokens: real, last: real)

  datatype Limit = Limit(rps: real, burst: real)

  datatype Request = Request(key: string, at: real)

  function MinF(a: real, b: real): real {
    if a < b then a else b
  }

  /** What a bucket gains from time `s` to time `t`, the cap aside. */
  function Refill(lim: Limit, s: real, t: real): real {
    (t - s) * lim.rps
  }

  /**
   The continuous bucket: what a bucket that refills all the time, capped at `burst`,
   holds for `key` at time `t`. A key never seen has a full bucket.
   */
  function Level(lim: Limit, buckets: map<string, Bucket>, key: string, t: real): real {
    if key in buckets
    then MinF(lim.burst, buckets[key].tokens + Refill(lim, buckets[key].last, t))
    else lim.burst
  }

  /** The buckets once the requests of `trace` were served in turn, starting with none. */
  function After(lim: Limit, trace: seq<Request>): map<string, Bucket> {
    if trace == [] then map[]
    else Serve(lim, After(lim, trace[..|trace| - 1]), trace[|trace| - 1])
  }

  /** One request: a token of its key's level is taken if there is one. */
  function Serve(lim: Limit, buckets: map<string, Bucket>, r: Request): map<string, Bucket> {
    var level := Level(lim, buckets, r.key, r.at);
    buckets[r.key := Bucket(if level < 1.0 then level else level - 1.0, r.at)]
  }

  /** The answer to the request at index `n`. */
  predicate Admitted(lim: Limit, trace: seq<Request>, n: nat)
    requires n < |trace|
  {
    Level(lim, After(lim, trace[..n]), trace[n].key, trace[n].at) >= 1.0
  }

  /** How many requests for `key` are admitted among those at indices `i` up to `j`. */
  function Count(lim: Limit, trace: seq<Request>, key: string, i: nat, j: nat): nat
    requires i <= j <= |trace|
  {
    if i == j then 0
    else Count(lim, trace, key, i, j - 1)
         + if trace[j - 1].key == key && Admitted(lim, trace, j - 1) then 1 else 0
  }

  ghost predicate Monotone(trace: seq<Request>) {
    forall i, j :: 0 <= i <= j < |trace| ==> trace[i].at <= trace[j].at
  }

  class RateLimiter {
    const lim: Limit
    var buckets: map<string, Bucket>
    /** Every request served so far. */
    ghost var trace: seq<Request>

    ghost predicate Valid()
      reads this
    {
      buckets == After(lim, trace)
    }

    constructor (rps: real, burst: real)
      ensures Valid() && lim == Limit(rps, burst) && trace == []
    {
      lim := Limit(rps, burst);
      buckets := map[];
      trace := [];
    }

    /** The request is admitted exactly when no window ending now would overflow with it. */
    method Allow(key: string, now: real) returns (ok: bool)
      requires Valid()
      modifies this
      ensures Valid() && trace == old(trace) + [Request(key, now)]
      ensures ok <==> Fits(lim, trace, |old(trace)|)
      ensures forall k :: k != key ==> (k in buckets <==> k in old(buckets))
      ensures forall k :: k != key && k in buckets ==> buckets[k] == old(buckets[k])
    {
      ghost var n := |trace|;
      trace := trace + [Request(key, now)];
      assert trace[..n] == old(trace);
      AdmittedIffFits(lim, trace, n);
      ghost var level := Level(lim, buckets, key, now);
      assert Admitted(lim, trace, n) <==> level >= 1.0;
      assert After(lim, trace) == Serve(lim, buckets, Request(key, now));
      LevelIsComputed(lim, if key in buckets then buckets[key] else Bucket(lim.burst, now), buckets, key, now);
      hide Fits, Admitted, After, Level, MinF;

      if key !in buckets {
        buckets := buckets[key := Bucket(lim.burst, now)];
      }
      var b := buckets[key];
      var elapsed := now - b.last;
      buckets := buckets[key := Bucket(MinF(lim.burst, b.tokens + elapsed * lim.rps), now)];
      if buckets[key].tokens < 1.0 {
        return false;
      }
      buckets := buckets[key := Bucket(buckets[key].tokens - 1.0, now)];
      return true;
    }
  }

  /** The tokens of a bucket after its refill are the level; a bucket made now is full. */
  lemma LevelIsComputed(lim: Limit, b: Bucket, buckets: map<string, Bucket>, key: string, now: real)
    requires b == if key in buckets then buckets[key] else Bucket(lim.burst, now)
    ensures MinF(lim.burst, b.tokens + (now - b.last) * lim.rps) == Level(lim, buckets, key, now)
  {
    if key in buckets {
      assert (now - b.last) * lim.rps == Refill(lim, b.last, now);
    } else {
      assert now - b.last == 0.0;
    }
  }

  // ---------------------------------------------------------------------------
  // The limiter admits a request exactly when every window can take it
  // ---------------------------------------------------------------------------

  /** The window that starts at request `i` and ends with request `n` can take request `n`. */
  ghost predicate WindowFits(lim: Limit, trace: seq<Request>, i: nat, n: nat)
    requires i <= n < |trace|
  {
    Count(lim, trace, trace[n].key, i, n) as real + 1.0
      <= lim.burst + Refill(lim, trace[i].at, trace[n].at)
  }

  /** Every window of the request's key can take it: the specification of the limiter, without buckets. */
  ghost predicate Fits(lim: Limit, trace: seq<Request>, n: nat)
    requires n < |trace|
  {
    forall i :: 0 <= i <= n && trace[i].key == trace[n].key ==> WindowFits(lim, trace, i, n)
  }

  /** What the window that starts at `i` leaves at time `t`, of the first `n` requests. */
  ghost function Room(lim: Limit, trace: seq<Request>, key: string, i: nat, n: nat, t: real): real
    requires i <= n <= |trace| && i < |trace|
  {
    lim.burst + Refill(lim, trace[i].at, t) - Count(lim, trace, key, i, n) as real
  }

  /** The lazily kept level is the least room of any window. */
  ghost predicate IsLeastRoom(lim: Limit, trace: seq<Request>, key: string, n: nat, t: real, level: real)
    requires n <= |trace|
  {
    && level <= lim.burst
    && (forall i :: 0 <= i < n && trace[i].key == key ==> level <= Room(lim, trace, key, i, n, t))
    && (level == lim.burst || exists i :: 0 <= i < n && trace[i].key == key && level == Room(lim, trace, key, i, n, t))
  }

  lemma RefillSplits(lim: Limit, s: real, u: real, t: real)
    ensures Refill(lim, s, t) == Refill(lim, s, u) + Refill(lim, u, t)
  {}

  lemma RefillMonotone(lim: Limit, s: real, t: real, s': real, t': real)
    requires lim.rps >= 0.0 && t - s <= t' - s'
    ensures Refill(lim, s, t) <= Refill(lim, s', t')
  {
    assert 0.0 <= ((t' - s') - (t - s)) * lim.rps;
  }

  /** How the room of a window develops over the request at `m`. */
  lemma RoomStep(lim: Limit, trace: seq<Request>, key: string, i: nat, m: nat, t: real)
    requires i <= m < |trace|
    ensures Room(lim, trace, key, i, m + 1, t)
            == Room(lim, trace, key, i, m, trace[m].at) + Refill(lim, trace[m].at, t)
               - (if trace[m].key == key && Admitted(lim, trace, m) then 1.0 else 0.0)
    ensures trace[m].key != key ==> Room(lim, trace, key, i, m + 1, t) == Room(lim, trace, key, i, m, t)
  {
    RefillSplits(lim, trace[i].at, trace[m].at, t);
  }

  /** How the level of a key develops over its own request at `m`. */
  lemma LevelStep(lim: Limit, trace: seq<Request>, m: nat, t: real)
    requires m < |trace|
    ensures var r := trace[m];
            Level(lim, After(lim, trace[..m + 1]), r.key, t)
            == MinF(lim.burst, Level(lim, After(lim, trace[..m]), r.key, r.at)
                               - (if Admitted(lim, trace, m) then 1.0 else 0.0) + Refill(lim, r.at, t))
  {
    assert trace[..m + 1][..m] == trace[..m];
  }

  lemma {:induction false} LevelIsLeastRoom(lim: Limit, trace: seq<Request>, key: string, n: nat, t: real)
    requires n <= |trace|
    ensures IsLeastRoom(lim, trace, key, n, t, Level(lim, After(lim, trace[..n]), key, t))
  {
    if n > 0 {
      var m := n - 1;
      var r := trace[m];
      assert trace[..n][..m] == trace[..m];
      if r.key != key {
        LevelIsLeastRoom(lim, trace, key, m, t);
        OtherKeyStep(lim, trace, key, m, t, Level(lim, After(lim, trace[..n]), key, t));
      } else {
        LevelIsLeastRoom(lim, trace, key, m, r.at);
        LevelStep(lim, trace, m, t);
        OwnKeyStep(lim, trace, m, t, Level(lim, After(lim, trace[..m]), key, r.at));
      }
    }
  }

  lemma OtherKeyStep(lim: Limit, trace: seq<Request>, key: string, m: nat, t: real, level: real)
    requires m < |trace| && trace[m].key != key
    requires IsLeastRoom(lim, trace, key, m, t, level)
    ensures IsLeastRoom(lim, trace, key, m + 1, t, level)
  {
    forall i | 0 <= i < m ensures Room(lim, trace, key, i, m + 1, t) == Room(lim, trace, key, i, m, t) {
      RoomStep(lim, trace, key, i, m, t);
    }
  }

  lemma OwnKeyStep(lim: Limit, trace: seq<Request>, m: nat, t: real, before: real)
    requires m < |trace|
    requires IsLeastRoom(lim, trace, trace[m].key, m, trace[m].at, before)
    ensures IsLeastRoom(lim, trace, trace[m].key, m + 1, t,
              MinF(lim.burst, before - (if Admitted(lim, trace, m) then 1.0 else 0.0) + Refill(lim, trace[m].at, t)))
  {
    var r := trace[m];
    var gain := Refill(lim, r.at, t) - (if Admitted(lim, trace, m) then 1.0 else 0.0);
    forall i | 0 <= i <= m
      ensures Room(lim, trace, r.key, i, m + 1, t) == Room(lim, trace, r.key, i, m, r.at) + gain
    {
      RoomStep(lim, trace, r.key, i, m, t);
    }
    assert Room(lim, trace, r.key, m, m, r.at) == lim.burst by {
      assert Count(lim, trace, r.key, m, m) == 0;
      assert Refill(lim, trace[m].at, r.at) == 0.0;
    }
    assert before == lim.burst ==> before + gain == Room(lim, trace, r.key, m, m + 1, t);
  }

  /** Lazy equals continuous, from first principles: admission is fitting into every window. */
  lemma AdmittedIffFits(lim: Limit, trace: seq<Request>, n: nat)
    requires n < |trace|
    ensures Admitted(lim, trace, n) <==> Fits(lim, trace, n)
  {
    var r := trace[n];
    LevelIsLeastRoom(lim, trace, r.key, n, r.at);
    assert Count(lim, trace, r.key, n, n) == 0;
    assert WindowFits(lim, trace, n, n) <==> 1.0 <= lim.burst;
    forall i | 0 <= i < n
      ensures WindowFits(lim, trace, i, n) <==> Room(lim, trace, r.key, i, n, r.at) >= 1.0
    {}
  }

  /**
   Rate bound: whatever the other keys do, a key gets at most `burst` plus `rps` times the length of
   the interval admitted, in every interval of every trace. (A burst below 1 admits nothing.)
   */
  lemma {:induction false} RateBound(lim: Limit, trace: seq<Request>, key: string, i: nat, j: nat, from: real, to: real)
    requires lim.rps >= 0.0 && Monotone(trace) && i <= j <= |trace|
    requires forall k :: i <= k < j ==> from <= trace[k].at <= to
    ensures Count(lim, trace, key, i, j) == 0
            || Count(lim, trace, key, i, j) as real <= lim.burst + Refill(lim, from, to)
    decreases j - i
  {
    if i == j {
    } else if trace[i].key != key {
      CountFromLeft(lim, trace, key, i, j);
      RateBound(lim, trace, key, i + 1, j, from, to);
    } else if trace[j - 1].key == key && Admitted(lim, trace, j - 1) {
      WindowBound(lim, trace, i, j - 1, from, to);
    } else {
      RateBound(lim, trace, key, i, j - 1, from, to);
    }
  }

  lemma WindowBound(lim: Limit, trace: seq<Request>, i: nat, n: nat, from: real, to: real)
    requires lim.rps >= 0.0 && i <= n < |trace| && trace[i].key == trace[n].key && Admitted(lim, trace, n)
    requires from <= trace[i].at && trace[n].at <= to
    ensures Count(lim, trace, trace[n].key, i, n) as real + 1.0 <= lim.burst + Refill(lim, from, to)
  {
    AdmittedIffFits(lim, trace, n);
    assert WindowFits(lim, trace, i, n);
    RefillMonotone(lim, trace[i].at, trace[n].at, from, to);
  }

  lemma {:induction false} CountFromLeft(lim: Limit, trace: seq<Request>, key: string, i: nat, j: nat)
    requires i < j <= |trace| && trace[i].key != key
    ensures Count(lim, trace, key, i, j) == Count(lim, trace, key, i + 1, j)
  {
    if i + 1 < j {
      CountFromLeft(lim, trace, key, i, j - 1);
    } else {
      assert Count(lim, trace, key, i, i) == 0;
    }
  }

  // ---------------------------------------------------------------------------
  // A rejected request leaves no trace
  // ---------------------------------------------------------------------------

  /** From time `t` on, the two sets of buckets hold the same for every key. */
  ghost predicate SameLevels(lim: Limit, a: map<string, Bucket>, b: map<string, Bucket>, t: real) {
    forall key, u :: t <= u ==> Level(lim, a, key, u) == Level(lim, b, key, u)
  }

  /** Refilling early, without taking a token, changes nothing afterwards. */
  lemma RefillIsInvisible(lim: Limit, buckets: map<string, Bucket>, key: string, now: real)
    requires lim.rps >= 0.0
    ensures SameLevels(lim, buckets[key := Bucket(Level(lim, buckets, key, now), now)], buckets, now)
  {
    var refilled := buckets[key := Bucket(Level(lim, buckets, key, now), now)];
    forall k, u | now <= u ensures Level(lim, refilled, k, u) == Level(lim, buckets, k, u) {
      RefillMonotone(lim, now, now, now, u);
      if k == key && key in buckets {
        RefillSplits(lim, buckets[key].last, now, u);
      }
    }
  }

  lemma ServeKeepsSameLevels(lim: Limit, a: map<string, Bucket>, b: map<string, Bucket>, r: Request)
    requires SameLevels(lim, a, b, r.at)
    ensures SameLevels(lim, Serve(lim, a, r), Serve(lim, b, r), r.at)
  {
    assert Level(lim, a, r.key, r.at) == Level(lim, b, r.key, r.at);
    forall k, u | r.at <= u ensures Level(lim, Serve(lim, a, r), k, u) == Level(lim, Serve(lim, b, r), k, u) {
      assert Level(lim, a, k, u) == Level(lim, b, k, u);
    }
  }

  lemma AfterAppend(lim: Limit, xs: seq<Request>, r: Request)
    ensures After(lim, xs + [r]) == Serve(lim, After(lim, xs), r)
  {
    assert (xs + [r])[..|xs|] == xs;
  }

  /** A rejected request only refills. */
  lemma RejectedRefills(lim: Limit, xs: seq<Request>, r: Request)
    requires lim.rps >= 0.0 && Level(lim, After(lim, xs), r.key, r.at) < 1.0
    ensures SameLevels(lim, After(lim, xs + [r]), After(lim, xs), r.at)
  {
    hide After, SameLevels;
    AfterAppend(lim, xs, r);
    RefillIsInvisible(lim, After(lim, xs), r.key, r.at);
  }

  lemma {:induction false} RejectedLeavesLevels(lim: Limit, xs: seq<Request>, r: Request, ys: seq<Request>, t: real)
    requires lim.rps >= 0.0 && Monotone([r] + ys)
    requires Level(lim, After(lim, xs), r.key, r.at) < 1.0
    requires t == if ys == [] then r.at else ys[|ys| - 1].at
    ensures SameLevels(lim, After(lim, xs + [r] + ys), After(lim, xs + ys), t)
  {
    hide After, Serve, Level, SameLevels;
    if ys == [] {
      assert xs + [r] + ys == xs + [r] && xs + ys == xs;
      RejectedRefills(lim, xs, r);
    } else {
      var init, y := ys[..|ys| - 1], ys[|ys| - 1];
      assert xs + [r] + ys == (xs + [r] + init) + [y] && xs + ys == (xs + init) + [y];
      AfterAppend(lim, xs + [r] + init, y);
      AfterAppend(lim, xs + init, y);
      assert [r] + init == ([r] + ys)[..|ys|];
      MonotonePrefix([r] + ys, |ys|);
      var s := if init == [] then r.at else init[|init| - 1].at;
      RejectedLeavesLevels(lim, xs, r, init, s);
      assert s == ([r] + ys)[|ys| - 1].at <= ([r] + ys)[|ys|].at == y.at;
      SameLevelsLater(lim, After(lim, xs + [r] + init), After(lim, xs + init), s, y.at);
      ServeKeepsSameLevels(lim, After(lim, xs + [r] + init), After(lim, xs + init), y);
    }
  }

  lemma SameLevelsLater(lim: Limit, a: map<string, Bucket>, b: map<string, Bucket>, s: real, t: real)
    requires SameLevels(lim, a, b, s) && s <= t
    ensures SameLevels(lim, a, b, t)
  {}

  lemma MonotonePrefix(trace: seq<Request>, n: nat)
    requires Monotone(trace) && n <= |trace|
    ensures Monotone(trace[..n])
  {}

  lemma LastLevelUnchanged(lim: Limit, xs: seq<Request>, r: Request, ys: seq<Request>, next: Request)
    requires lim.rps >= 0.0 && Monotone([r] + ys + [next])
    requires Level(lim, After(lim, xs), r.key, r.at) < 1.0
    ensures Level(lim, After(lim, xs + [r] + ys), next.key, next.at)
        == Level(lim, After(lim, xs + ys), next.key, next.at)
  {
    var rest := [r] + ys + [next];
    var t := if ys == [] then r.at else ys[|ys| - 1].at;
    assert rest[|ys|].at == t && rest[|ys| + 1] == next;
    assert rest[..|ys| + 1] == [r] + ys;
    MonotonePrefix(rest, |ys| + 1);
    RejectedLeavesLevels(lim, xs, r, ys, t);
  }

  /** Deleting a rejected request from a trace leaves the answer to every other request unchanged. */
  lemma RejectedIsInvisible(lim: Limit, xs: seq<Request>, r: Request, ys: seq<Request>, n: nat)
    requires lim.rps >= 0.0 && Monotone(xs + [r] + ys) && n < |xs| + |ys|
    requires !Admitted(lim, xs + [r] + ys, |xs|)
    ensures Admitted(lim, xs + ys, n) <==> Admitted(lim, xs + [r] + ys, if n < |xs| then n else n + 1)
  {
    var long, short := xs + [r] + ys, xs + ys;
    if n < |xs| {
      assert long[..n] == short[..n] && long[n] == short[n];
    } else {
      var k := n - |xs|;
      var init := ys[..k];
      assert short[..n] == xs + init && short[n] == ys[k];
      assert long[..n + 1] == xs + [r] + init && long[n + 1] == ys[k];
      assert long[..|xs|] == xs && long[|xs|] == r;
      MonotoneSlice(long, |xs|, n + 2);
      assert long[|xs|..n + 2] == [r] + init + [ys[k]];
      LastLevelUnchanged(lim, xs, r, init, ys[k]);
    }
  }

  lemma MonotoneSlice(trace: seq<Request>, lo: nat, hi: nat)
    requires Monotone(trace) && lo <= hi <= |trace|
    ensures Monotone(trace[lo..hi])
  {
    var slice := trace[lo..hi];
    forall i, j | 0 <= i <= j < |slice| ensures slice[i].at <= slice[j].at {
      assert slice[i] == trace[lo + i] && slice[j] == trace[lo + j];
    }
  }
}
