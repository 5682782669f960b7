/**
 What the last hash of the audit log says of its events (internal/audit/audit.go:126-205). The event is marshalled,
 read back into a map and printed with sorted keys; the reading back turns the duration, an integer, into a float64.
 */
module AuditBinding {
  import opened Common
  import opened AuditChain
  import CanonicalJson

  // ---------------------------------------------------------------------------
  // Integers as float64 holds them
  // ---------------------------------------------------------------------------

  const TWO_TO_THE_53 := 0x20_0000_0000_0000

  /** The distance between the float64 values around `n`: there are 53 bits of precision. */
  function Spacing(n: nat): (g: nat)
    ensures g > 0
  {
    if n < TWO_TO_THE_53 then 1 else 2 * Spacing(n / 2)
  }

  /** The nearest float64, of two equally near ones the even one. */
  function Nearest(n: nat): int {
    var g := Spacing(n);
    var q, r := n / g, n % g;
    if 2 * r < g || (2 * r == g && q % 2 == 0) then q * g else (q + 1) * g
  }

  function Double(n: int): int {
    if n >= 0 then Nearest(n) else -Nearest(-n)
  }

  predicate Exact(n: int) {
    -TWO_TO_THE_53 <= n <= TWO_TO_THE_53
  }

  lemma DoubleOfExact(n: int)
    requires Exact(n)
    ensures Double(n) == n
  {
    var m := if n >= 0 then n else -n;
    if m == TWO_TO_THE_53 {
      assert Spacing(m / 2) == 1 && Spacing(m) == 2;
      assert m / 2 * 2 == m && m % 2 == 0;
    } else {
      assert Spacing(m) == 1;
    }
  }

  /** The first integer that float64 does not hold. */
  lemma FirstInexact()
    ensures Double(TWO_TO_THE_53 + 1) == TWO_TO_THE_53 == Double(TWO_TO_THE_53)
  {
    var m := TWO_TO_THE_53 + 1;
    assert Spacing(m / 2) == 1 && Spacing(m) == 2;
    assert m / 2 == 0x10_0000_0000_0000 && m % 2 == 1;
    DoubleOfExact(TWO_TO_THE_53);
  }

  // ---------------------------------------------------------------------------
  // What marshalling keeps
  // ---------------------------------------------------------------------------

  /** The event as the map holds it. */
  function Rounded(ev: Event): Event {
    ev.(durationMs := Double(ev.durationMs))
  }

  /**
   Two marshalled events have the same fields, and the same map exactly when they are the same with rounded
   durations.
   */
  ghost predicate TellsApart(lib: Library, e: Event, f: Event) {
    lib.marshal(e).Some? && lib.marshal(f).Some? ==>
      && lib.marshal(e).value.Keys == lib.marshal(f).value.Keys
      && (lib.marshal(e) == lib.marshal(f) <==> Rounded(e) == Rounded(f))
  }

  ghost predicate HoldsScalars(lib: Library, scalars: iset<string>, e: Event) {
    lib.marshal(e).Some? ==> forall k :: k in lib.marshal(e).value ==> lib.marshal(e).value[k] in scalars
  }

  /** The law of marshalling and reading back; JSON scalars end where a comma or the end of the object follows. */
  ghost predicate Marshals(lib: Library, scalars: iset<string>) {
    && CanonicalJson.SelfDelimiting(scalars)
    && (forall e :: HoldsScalars(lib, scalars, e))
    && (forall e, f :: TellsApart(lib, e, f))
  }

  lemma CanonBindsEvent(lib: Library, scalars: iset<string>, e: Event, f: Event)
    requires Marshals(lib, scalars) && Canon(lib, e).Some? && Canon(lib, f).Some?
    ensures Canon(lib, e) == Canon(lib, f) <==> Rounded(e) == Rounded(f)
  {
    hide CanonicalJson.Canonical, CanonicalJson.SelfDelimiting, Rounded;
    var m, n := lib.marshal(e).value, lib.marshal(f).value;
    assert TellsApart(lib, e, f) && HoldsScalars(lib, scalars, e) && HoldsScalars(lib, scalars, f);
    if Canon(lib, e) == Canon(lib, f) {
      CanonicalJson.CanonicalInjective(lib.quote, m, n, scalars);
    }
  }

  // ---------------------------------------------------------------------------
  // Chain binding
  // ---------------------------------------------------------------------------

  ghost predicate SameEvents(a: seq<Row>, b: seq<Row>) {
    |a| == |b| && forall i :: 0 <= i < |a| ==> Rounded(a[i].ev) == Rounded(b[i].ev)
  }

  ghost predicate SameHashes(a: seq<Row>, b: seq<Row>) {
    |a| == |b| && forall i :: 0 <= i < |a| ==> a[i].prevHash == b[i].prevHash && a[i].hash == b[i].hash
  }

  lemma AcceptedIsMarshalled(lib: Library, rows: seq<Row>, i: nat)
    requires ValidChain(lib, rows) && i < |rows|
    ensures Canon(lib, rows[i].ev).Some?
  {
    assert LinkedAt(lib, rows, i);
  }

  lemma {:induction false} EventsDetermineHashes(lib: Library, scalars: iset<string>, a: seq<Row>, b: seq<Row>, n: nat)
    requires Marshals(lib, scalars) && ValidChain(lib, a) && ValidChain(lib, b) && SameEvents(a, b) && n <= |a|
    ensures PrevOf(a, n) == PrevOf(b, n)
  {
    hide Canon, Marshals, Rounded;
    if n > 0 {
      EventsDetermineHashes(lib, scalars, a, b, n - 1);
      assert LinkedAt(lib, a, n - 1) && LinkedAt(lib, b, n - 1);
      CanonBindsEvent(lib, scalars, a[n - 1].ev, b[n - 1].ev);
    }
  }

  /**
   Chain binding: two accepted logs have the same last hash exactly when they have the same length and agree row by
   row in their events, durations as float64 holds them; they then agree in all hashes too.
   */
  lemma LastHashBindsEvents(lib: Library, scalars: iset<string>, a: seq<Row>, b: seq<Row>)
    requires CollisionFree(lib) && Marshals(lib, scalars) && ValidChain(lib, a) && ValidChain(lib, b)
    ensures LastHash(a) == LastHash(b) <==> SameEvents(a, b)
    ensures LastHash(a) == LastHash(b) ==> SameHashes(a, b)
  {
    if LastHash(a) == LastHash(b) {
      LastHashBindsLog(lib, a, b);
      forall i | 0 <= i < |a| ensures Rounded(a[i].ev) == Rounded(b[i].ev) {
        AcceptedIsMarshalled(lib, a, i);
        AcceptedIsMarshalled(lib, b, i);
        assert SameContent(lib, a[i], b[i]);
        CanonBindsEvent(lib, scalars, a[i].ev, b[i].ev);
      }
      assert forall i :: 0 <= i < |a| ==> SameContent(lib, a[i], b[i]);
    } else if SameEvents(a, b) {
      EventsDetermineHashes(lib, scalars, a, b, |a|);
    }
  }

  ghost predicate ExactDurations(rows: seq<Row>) {
    forall i :: 0 <= i < |rows| ==> Exact(rows[i].ev.durationMs)
  }

  /** For durations of at most 2^53 milliseconds: the same last hash exactly when every event is the same. */
  lemma LastHashBindsExactEvents(lib: Library, scalars: iset<string>, a: seq<Row>, b: seq<Row>)
    requires CollisionFree(lib) && Marshals(lib, scalars) && ValidChain(lib, a) && ValidChain(lib, b)
    requires ExactDurations(a) && ExactDurations(b)
    ensures LastHash(a) == LastHash(b) <==> |a| == |b| && forall i :: 0 <= i < |a| ==> a[i].ev == b[i].ev
  {
    LastHashBindsEvents(lib, scalars, a, b);
    forall i | 0 <= i < |a| ensures Rounded(a[i].ev) == a[i].ev {
      DoubleOfExact(a[i].ev.durationMs);
    }
    forall i | 0 <= i < |b| ensures Rounded(b[i].ev) == b[i].ev {
      DoubleOfExact(b[i].ev.durationMs);
    }
  }

  /** Past that, a stored duration can be changed by one millisecond without the checker or the last hash noticing. */
  lemma LongDurationNotBound(lib: Library, scalars: iset<string>, ev: Event, h: string)
    requires CollisionFree(lib) && Marshals(lib, scalars) && ev.durationMs == TWO_TO_THE_53
    requires Hash(lib, "", ev) == Some(h) && lib.marshal(ev.(durationMs := TWO_TO_THE_53 + 1)).Some?
    ensures var tampered := Row(0, ev.(durationMs := TWO_TO_THE_53 + 1), "", h);
            ValidChain(lib, [Row(0, ev, "", h)]) && ValidChain(lib, [tampered]) && tampered.ev != ev
  {
    var other := ev.(durationMs := TWO_TO_THE_53 + 1);
    FirstInexact();
    CanonBindsEvent(lib, scalars, ev, other);
    assert Hash(lib, "", other) == Some(h);
    AppendValid(lib, [], Row(0, ev, "", h));
    AppendValid(lib, [], Row(0, other, "", h));
    assert [] + [Row(0, ev, "", h)] == [Row(0, ev, "", h)] && [] + [Row(0, other, "", h)] == [Row(0, other, "", h)];
  }
}
