/**
 Overlapping Record calls (internal/audit/audit.go, Record): the mutex covers the reading and the
 writing of the cached hash, but not the insertion between them. A call is therefore three
 atomic steps, and the steps of several calls interleave.
 */
module AuditInterleaving {
  import opened Common
  import opened AuditChain

  datatype Phase =
    | HasRead(prev: string)
    | HasInserted(hash: string)

  datatype State = State(rows: seq<Row>, cache: string, calls: map<nat, Phase>)

  /** `call` names a Record call; its event and row id are fixed by the InsertRow step. */
  datatype Step =
    | ReadCache(call: nat)
    | InsertRow(call: nat, ev: Event, id: nat, dbFault: bool)
    | WriteCache(call: nat)

  /** The row that an InsertRow step stores; the database, the primary key or the index on `hash` may refuse it. */
  ghost function Stored(lib: Library, s: State, step: Step): Option<Row> {
    if step.InsertRow? && step.call in s.calls && s.calls[step.call].HasRead? then
      var prev := s.calls[step.call].prev;
      match Hash(lib, prev, step.ev)
      case None => None
      case Some(hash) =>
        if step.dbFault || exists r :: r in s.rows && (r.id == step.id || r.hash == hash) then None
        else Some(Row(step.id, step.ev, prev, hash))
    else None
  }

  /** One atomic step; a step out of turn does nothing. */
  ghost function Next(lib: Library, s: State, step: Step): State {
    match step
    case ReadCache(call) =>
      if call in s.calls then s else s.(calls := s.calls[call := HasRead(s.cache)])
    case InsertRow(call, ev, id, dbFault) =>
      if call !in s.calls || !s.calls[call].HasRead? then s
      else (match Stored(lib, s, step)
            case None => s.(calls := s.calls - {call})
            case Some(row) => State(s.rows + [row], s.cache, s.calls[call := HasInserted(row.hash)]))
    case WriteCache(call) =>
      if call !in s.calls || !s.calls[call].HasInserted? then s
      else State(s.rows, s.calls[call].hash, s.calls - {call})
  }

  ghost function Run(lib: Library, s: State, steps: seq<Step>): State
    decreases steps
  {
    if steps == [] then s else Run(lib, Next(lib, s, steps[0]), steps[1..])
  }

  lemma RunCons(lib: Library, s: State, step: Step, rest: seq<Step>)
    ensures Run(lib, s, [step] + rest) == Run(lib, Next(lib, s, step), rest)
  {
    assert ([step] + rest)[1..] == rest;
  }

  lemma {:induction false} RunSnoc(lib: Library, s: State, steps: seq<Step>, last: Step)
    ensures Run(lib, s, steps + [last]) == Next(lib, Run(lib, s, steps), last)
    decreases steps
  {
    if steps == [] {
      RunCons(lib, s, last, []);
      assert [] + [last] == [last] + [];
    } else {
      assert (steps + [last])[1..] == steps[1..] + [last];
      RunSnoc(lib, Next(lib, s, steps[0]), steps[1..], last);
    }
  }

  // ---------------------------------------------------------------------------
  // Schedules
  // ---------------------------------------------------------------------------

  /** The state before step `n`. */
  ghost function At(lib: Library, s: State, steps: seq<Step>, n: nat): State
    requires n <= |steps|
  {
    Run(lib, s, steps[..n])
  }

  lemma AtNext(lib: Library, s: State, steps: seq<Step>, n: nat)
    requires n < |steps|
    ensures At(lib, s, steps, n + 1) == Next(lib, At(lib, s, steps, n), steps[n])
  {
    assert steps[..n + 1] == steps[..n] + [steps[n]];
    RunSnoc(lib, s, steps[..n], steps[n]);
  }

  /** Some call is between its InsertRow and its WriteCache. */
  ghost predicate Midway(s: State) {
    exists c :: c in s.calls && s.calls[c].HasInserted?
  }

  ghost predicate HasReadOnly(s: State, call: nat) {
    call in s.calls && s.calls[call].HasRead?
  }

  /** The call reads the cache at step `j`, and has done nothing else up to step `k`. */
  ghost predicate ReadAt(lib: Library, s: State, steps: seq<Step>, call: nat, j: nat, k: nat)
    requires k <= |steps|
  {
    && j < k && steps[j] == ReadCache(call) && call !in At(lib, s, steps, j).calls
    && forall m :: j < m <= k ==> HasReadOnly(At(lib, s, steps, m), call)
  }

  ghost predicate Stores(lib: Library, s: State, steps: seq<Step>, k: nat)
    requires k < |steps|
  {
    steps[k].InsertRow? && |At(lib, s, steps, k + 1).rows| > |At(lib, s, steps, k).rows|
  }

  /**
   Step `k` stores the row of a call that read the cache at step `j` while another call was between its InsertRow and
   its WriteCache, or with a row stored in between. Only the order of the steps counts, and which of them store.
   */
  ghost predicate Disturbed(lib: Library, s: State, steps: seq<Step>, j: nat, k: nat)
    requires k < |steps|
  {
    && Stores(lib, s, steps, k) && ReadAt(lib, s, steps, steps[k].call, j, k)
    && (Midway(At(lib, s, steps, j)) || |At(lib, s, steps, k).rows| > |At(lib, s, steps, j).rows|)
  }

  ghost predicate Undisturbed(lib: Library, s: State, steps: seq<Step>, n: nat)
    requires n <= |steps|
  {
    forall j, k :: 0 <= j < k < n ==> !Disturbed(lib, s, steps, j, k)
  }

  // ---------------------------------------------------------------------------
  // What a schedule does to the calls and the rows
  // ---------------------------------------------------------------------------

  lemma {:induction false} RowsGrow(lib: Library, s: State, steps: seq<Step>, j: nat, k: nat)
    requires j <= k <= |steps|
    ensures At(lib, s, steps, j).rows <= At(lib, s, steps, k).rows
    decreases k - j
  {
    if j < k {
      RowsGrow(lib, s, steps, j, k - 1);
      AtNext(lib, s, steps, k - 1);
    }
  }

  /** Every call that has read did so at some step. */
  lemma {:induction false} FindRead(lib: Library, s: State, steps: seq<Step>, call: nat, k: nat) returns (j: nat)
    requires s.calls == map[] && k <= |steps| && HasReadOnly(At(lib, s, steps, k), call)
    ensures ReadAt(lib, s, steps, call, j, k)
  {
    j := 0;
    if k > 0 {
      AtNext(lib, s, steps, k - 1);
      hide Stored;
      if HasReadOnly(At(lib, s, steps, k - 1), call) {
        j := FindRead(lib, s, steps, call, k - 1);
      } else {
        j := k - 1;
      }
    }
  }

  /** It still holds what the cache held then. */
  lemma {:induction false} PrevIsCacheAtRead(lib: Library, s: State, steps: seq<Step>, call: nat, j: nat, k: nat)
    requires k <= |steps| && ReadAt(lib, s, steps, call, j, k)
    ensures At(lib, s, steps, k).calls[call] == HasRead(At(lib, s, steps, j).cache)
    decreases k
  {
    AtNext(lib, s, steps, k - 1);
    assert HasReadOnly(At(lib, s, steps, k), call);
    if j < k - 1 {
      PrevIsCacheAtRead(lib, s, steps, call, j, k - 1);
      assert HasReadOnly(At(lib, s, steps, k - 1), call);
    }
  }

  /** While no row is stored, no call gets midway. */
  lemma {:induction false} QuietStays(lib: Library, s: State, steps: seq<Step>, j: nat, k: nat)
    requires j <= k <= |steps| && !Midway(At(lib, s, steps, j))
    requires |At(lib, s, steps, k).rows| == |At(lib, s, steps, j).rows|
    ensures !Midway(At(lib, s, steps, k))
    decreases k - j
  {
    if j < k {
      AtNext(lib, s, steps, k - 1);
      RowsGrow(lib, s, steps, j, k - 1);
      QuietStays(lib, s, steps, j, k - 1);
      StepStaysQuiet(lib, At(lib, s, steps, k - 1), steps[k - 1]);
    }
  }

  lemma StepStaysQuiet(lib: Library, s: State, step: Step)
    requires !Midway(s) && |Next(lib, s, step).rows| == |s.rows|
    ensures !Midway(Next(lib, s, step))
  {
    var next := Next(lib, s, step);
    forall c | c in next.calls ensures !next.calls[c].HasInserted? {
      assert c in s.calls ==> !s.calls[c].HasInserted?;
    }
  }

  // ---------------------------------------------------------------------------
  // The exact condition
  // ---------------------------------------------------------------------------

  /** No call is open, and the cache agrees with an accepted log. */
  ghost predicate Rested(lib: Library, s: State) {
    s.calls == map[] && ValidChain(lib, s.rows) && s.cache == LastHash(s.rows)
  }

  /** The cache is the last hash, or the one before it while the one call midway has yet to write the last hash. */
  ghost predicate Settled(s: State) {
    if !Midway(s) then s.cache == LastHash(s.rows)
    else
      && s.rows != [] && s.cache == PrevOf(s.rows, |s.rows| - 1)
      && (forall c :: c in s.calls && s.calls[c].HasInserted? ==> s.calls[c].hash == LastHash(s.rows))
      && forall c, d :: c in s.calls && s.calls[c].HasInserted? && d in s.calls && s.calls[d].HasInserted? ==> c == d
  }

  lemma QuietStepKeepsSettled(lib: Library, s: State, step: Step)
    requires Settled(s) && Next(lib, s, step).rows == s.rows
    ensures Settled(Next(lib, s, step))
  {
    var next := Next(lib, s, step);
    assert forall c :: c in next.calls && next.calls[c].HasInserted? ==> c in s.calls && s.calls[c] == next.calls[c];
    if next.cache != s.cache {
      assert step.WriteCache? && s.calls[step.call].HasInserted?;
    }
    if Midway(s) && !Midway(next) {
      var c :| c in s.calls && s.calls[c].HasInserted?;
      assert c !in next.calls;
    }
  }

  lemma StoreKeepsSettled(lib: Library, s: State, step: Step)
    requires Settled(s) && !Midway(s) && Stored(lib, s, step).Some?
    ensures Settled(Next(lib, s, step))
  {
    var next := Next(lib, s, step);
    assert next.calls[step.call].HasInserted?;
    assert forall c :: c in next.calls && c != step.call ==> c in s.calls && next.calls[c] == s.calls[c];
  }

  lemma StoresIsStored(lib: Library, s: State, step: Step)
    ensures Stored(lib, s, step).Some?
            ==> HasReadOnly(s, step.call) && Next(lib, s, step).rows == s.rows + [Stored(lib, s, step).value]
    ensures Stored(lib, s, step).None? ==> Next(lib, s, step).rows == s.rows
  {
  }

  /** A stored row links to the last one exactly when its call was not disturbed, and then no call is midway. */
  lemma StoreLinksIff(lib: Library, s: State, steps: seq<Step>, j: nat, k: nat)
    requires CollisionFree(lib) && k < |steps| && Stores(lib, s, steps, k) && ReadAt(lib, s, steps, steps[k].call, j, k)
    requires ValidChain(lib, At(lib, s, steps, k).rows) && Settled(At(lib, s, steps, j))
    requires HasReadOnly(At(lib, s, steps, k), steps[k].call)
    ensures At(lib, s, steps, k).calls[steps[k].call].prev == LastHash(At(lib, s, steps, k).rows)
            <==> !Disturbed(lib, s, steps, j, k)
    ensures !Disturbed(lib, s, steps, j, k) ==> !Midway(At(lib, s, steps, k))
  {
    var back, now := At(lib, s, steps, j), At(lib, s, steps, k);
    hide At, Stores, ValidChain;
    RowsGrow(lib, s, steps, j, k);
    PrevIsCacheAtRead(lib, s, steps, steps[k].call, j, k);
    var a := if Midway(back) then |back.rows| - 1 else |back.rows|;
    assert back.cache == PrevOf(back.rows, a) == PrevOf(now.rows, a);
    PrevOfInjective(lib, now.rows, a, |now.rows|);
    if !Disturbed(lib, s, steps, j, k) {
      QuietStays(lib, s, steps, j, k);
    }
  }

  lemma EarlierValid(lib: Library, s: State, steps: seq<Step>, j: nat, k: nat)
    requires j <= k <= |steps| && ValidChain(lib, At(lib, s, steps, k).rows)
    ensures ValidChain(lib, At(lib, s, steps, j).rows)
  {
    RowsGrow(lib, s, steps, j, k);
    var n := |At(lib, s, steps, j).rows|;
    assert At(lib, s, steps, j).rows == At(lib, s, steps, k).rows[..n];
    PrefixValid(lib, At(lib, s, steps, k).rows, n);
  }

  lemma {:induction false} VerdictUpTo(lib: Library, s: State, steps: seq<Step>, n: nat)
    requires CollisionFree(lib) && Rested(lib, s) && n <= |steps|
    ensures ValidChain(lib, At(lib, s, steps, n).rows) <==> Undisturbed(lib, s, steps, n)
    ensures ValidChain(lib, At(lib, s, steps, n).rows) ==> Settled(At(lib, s, steps, n))
    decreases n, 1
  {
    if n == 0 {
      assert At(lib, s, steps, 0) == s;
    } else {
      VerdictUpTo(lib, s, steps, n - 1);
      if !ValidChain(lib, At(lib, s, steps, n - 1).rows) {
        if ValidChain(lib, At(lib, s, steps, n).rows) {
          EarlierValid(lib, s, steps, n - 1, n);
        }
      } else {
        VerdictOnStep(lib, s, steps, n - 1);
      }
    }
  }

  lemma {:induction false} VerdictOnStep(lib: Library, s: State, steps: seq<Step>, k: nat)
    requires CollisionFree(lib) && Rested(lib, s) && k < |steps|
    requires ValidChain(lib, At(lib, s, steps, k).rows) && Undisturbed(lib, s, steps, k)
    requires Settled(At(lib, s, steps, k))
    ensures ValidChain(lib, At(lib, s, steps, k + 1).rows) <==> Undisturbed(lib, s, steps, k + 1)
    ensures ValidChain(lib, At(lib, s, steps, k + 1).rows) ==> Settled(At(lib, s, steps, k + 1))
    decreases k, 2
  {
    var now := At(lib, s, steps, k);
    AtNext(lib, s, steps, k);
    StoresIsStored(lib, now, steps[k]);
    hide Next, Stored, ValidChain, At;
    if Stored(lib, now, steps[k]).None? {
      QuietStepKeepsSettled(lib, now, steps[k]);
      assert forall j :: 0 <= j < k ==> !Disturbed(lib, s, steps, j, k);
    } else {
      StoreVerdict(lib, s, steps, k);
    }
  }

  lemma {:induction false} StoreVerdict(lib: Library, s: State, steps: seq<Step>, k: nat)
    requires CollisionFree(lib) && Rested(lib, s) && k < |steps|
    requires ValidChain(lib, At(lib, s, steps, k).rows) && Undisturbed(lib, s, steps, k)
    requires Settled(At(lib, s, steps, k))
    requires Stored(lib, At(lib, s, steps, k), steps[k]).Some?
    ensures ValidChain(lib, At(lib, s, steps, k + 1).rows) <==> Undisturbed(lib, s, steps, k + 1)
    ensures ValidChain(lib, At(lib, s, steps, k + 1).rows) ==> Settled(At(lib, s, steps, k + 1))
    decreases k, 1
  {
    var now, call := At(lib, s, steps, k), steps[k].call;
    var row := Stored(lib, now, steps[k]).value;
    var linked := now.calls[call].prev == LastHash(now.rows);
    AtNext(lib, s, steps, k);
    StoresIsStored(lib, now, steps[k]);
    assert row.prevHash == now.calls[call].prev && Hash(lib, row.prevHash, row.ev) == Some(row.hash);
    AppendValid(lib, now.rows, row);
    assert ValidChain(lib, At(lib, s, steps, k + 1).rows) <==> linked;
    hide Next, ValidChain, At, Hash;
    var j := FindRead(lib, s, steps, call, k);
    forall i | 0 <= i < k && ReadAt(lib, s, steps, call, i, k)
      ensures (linked <==> !Disturbed(lib, s, steps, i, k)) && (linked ==> !Midway(now))
    {
      EarlierValid(lib, s, steps, i, k);
      VerdictUpTo(lib, s, steps, i);
      StoreLinksIff(lib, s, steps, i, k);
    }
    if linked {
      StoreKeepsSettled(lib, now, steps[k]);
    }
  }

  /**
   When overlapping Record calls keep the chain in the order of insertion: from a state of rest, exactly when no call
   whose row is stored had read the cache while another call was between its InsertRow and its WriteCache, or before
   another row was stored. What VerifyChain, which reads by id, makes of it is in AuditOverlap.
   */
  lemma RunKeepsChainIff(lib: Library, s: State, steps: seq<Step>)
    requires CollisionFree(lib) && Rested(lib, s)
    ensures ValidChain(lib, Run(lib, s, steps).rows) <==> Undisturbed(lib, s, steps, |steps|)
  {
    VerdictUpTo(lib, s, steps, |steps|);
    assert steps[..|steps|] == steps;
  }

  // ---------------------------------------------------------------------------
  // Schedules that keep the chain and schedules that break it
  // ---------------------------------------------------------------------------

  /** The three steps of one call without another call between them. */
  function Uninterrupted(call: nat, ev: Event, id: nat, dbFault: bool): seq<Step> {
    [ReadCache(call)] + ([InsertRow(call, ev, id, dbFault)] + ([WriteCache(call)] + []))
  }

  /** An uninterrupted call keeps a chain and leaves the cache at its last hash, whatever calls are open around it. */
  lemma UninterruptedCall(lib: Library, s: State, call: nat, ev: Event, id: nat, dbFault: bool)
    requires ValidChain(lib, s.rows) && s.cache == LastHash(s.rows) && call !in s.calls
    ensures var t := Run(lib, s, Uninterrupted(call, ev, id, dbFault));
            ValidChain(lib, t.rows) && t.cache == LastHash(t.rows) && t.calls == s.calls
  {
    var s1 := Next(lib, s, ReadCache(call));
    var s2 := Next(lib, s1, InsertRow(call, ev, id, dbFault));
    RunCons(lib, s, ReadCache(call), [InsertRow(call, ev, id, dbFault)] + ([WriteCache(call)] + []));
    RunCons(lib, s1, InsertRow(call, ev, id, dbFault), [WriteCache(call)] + []);
    RunCons(lib, s2, WriteCache(call), []);
    assert Next(lib, s2, WriteCache(call)).calls == s.calls;
    var row := Stored(lib, s1, InsertRow(call, ev, id, dbFault));
    if row.Some? {
      AppendValid(lib, s.rows, row.value);
    }
  }

  /**
   Record is not safe for concurrent use: two calls that both read the cache of the empty log
   before either inserts store two rows with an empty predecessor, and the checker
   then reports row 1 of an untampered log.
   */
  lemma ConcurrentRecordBreaksChain(lib: Library, first: Event, second: Event)
    requires CollisionFree(lib)
    requires Canon(lib, first).Some? && Canon(lib, second).Some? && Canon(lib, first) != Canon(lib, second)
    ensures var rows := Run(lib, State([], "", map[]), Race(first, second)).rows;
            |rows| == 2 && rows[0].ev == first && rows[1].ev == second
            && ValidChain(lib, rows[..1]) && !ValidChain(lib, rows)
  {
    var row0, row1 := Row(0, first, "", Hash(lib, "", first).value), Row(1, second, "", Hash(lib, "", second).value);
    TwoUnlinkedRows(lib, first, second, row0, row1);
    RaceRun(lib, first, second, row0, row1);
  }

  /** Both calls read before either inserts. */
  function Race(first: Event, second: Event): seq<Step> {
    [ReadCache(0)] + ([ReadCache(1)] + ([InsertRow(0, first, 0, false)] + ([InsertRow(1, second, 1, false)] + [])))
  }

  lemma RaceRun(lib: Library, first: Event, second: Event, row0: Row, row1: Row)
    requires Hash(lib, "", first) == Some(row0.hash) && row0 == Row(0, first, "", row0.hash)
    requires Hash(lib, "", second) == Some(row1.hash) && row1 == Row(1, second, "", row1.hash)
    requires row0.hash != row1.hash
    ensures Run(lib, State([], "", map[]), Race(first, second)).rows == [row0, row1]
  {
    hide Hash;
    var s0 := State([], "", map[]);
    var s1 := Next(lib, s0, ReadCache(0));
    var s2 := Next(lib, s1, ReadCache(1));
    var s3 := Next(lib, s2, InsertRow(0, first, 0, false));
    var s4 := Next(lib, s3, InsertRow(1, second, 1, false));
    var t3 := [InsertRow(1, second, 1, false)] + [];
    var t2 := [InsertRow(0, first, 0, false)] + t3;
    RunCons(lib, s0, ReadCache(0), [ReadCache(1)] + t2);
    RunCons(lib, s1, ReadCache(1), t2);
    RunCons(lib, s2, InsertRow(0, first, 0, false), t3);
    RunCons(lib, s3, InsertRow(1, second, 1, false), []);
    assert Stored(lib, s2, InsertRow(0, first, 0, false)) == Some(row0);
    assert s3.rows == [row0];
    assert Stored(lib, s3, InsertRow(1, second, 1, false)) == Some(row1);
    assert s4.rows == [row0, row1];
  }

  /** The second call reads after the first has stored its row and before it has written the cache. */
  function StaleRead(first: Event, second: Event): seq<Step> {
    [ReadCache(0)] + ([InsertRow(0, first, 0, false)] + ([ReadCache(1)] + ([InsertRow(1, second, 1, false)] + [])))
  }

  /** That alone is enough, although no row is stored between the second call's read and its insertion. */
  lemma StaleReadBreaksChain(lib: Library, first: Event, second: Event)
    requires CollisionFree(lib)
    requires Canon(lib, first).Some? && Canon(lib, second).Some? && Canon(lib, first) != Canon(lib, second)
    ensures var rows := Run(lib, State([], "", map[]), StaleRead(first, second)).rows;
            |rows| == 2 && ValidChain(lib, rows[..1]) && !ValidChain(lib, rows)
  {
    var row0, row1 := Row(0, first, "", Hash(lib, "", first).value), Row(1, second, "", Hash(lib, "", second).value);
    TwoUnlinkedRows(lib, first, second, row0, row1);
    StaleReadRun(lib, first, second, row0, row1);
  }

  lemma StaleReadRun(lib: Library, first: Event, second: Event, row0: Row, row1: Row)
    requires Hash(lib, "", first) == Some(row0.hash) && row0 == Row(0, first, "", row0.hash)
    requires Hash(lib, "", second) == Some(row1.hash) && row1 == Row(1, second, "", row1.hash)
    requires row0.hash != row1.hash
    ensures Run(lib, State([], "", map[]), StaleRead(first, second)).rows == [row0, row1]
  {
    hide Hash;
    var s0 := State([], "", map[]);
    var s1 := Next(lib, s0, ReadCache(0));
    var s2 := Next(lib, s1, InsertRow(0, first, 0, false));
    var s3 := Next(lib, s2, ReadCache(1));
    var s4 := Next(lib, s3, InsertRow(1, second, 1, false));
    var t3 := [InsertRow(1, second, 1, false)] + [];
    var t2 := [ReadCache(1)] + t3;
    RunCons(lib, s0, ReadCache(0), [InsertRow(0, first, 0, false)] + t2);
    RunCons(lib, s1, InsertRow(0, first, 0, false), t2);
    RunCons(lib, s2, ReadCache(1), t3);
    RunCons(lib, s3, InsertRow(1, second, 1, false), []);
    assert Stored(lib, s1, InsertRow(0, first, 0, false)) == Some(row0);
    assert s2.rows == [row0];
    assert Stored(lib, s3, InsertRow(1, second, 1, false)) == Some(row1);
    assert s4.rows == [row0, row1];
  }

  /** Two rows with an empty predecessor. */
  lemma TwoUnlinkedRows(lib: Library, first: Event, second: Event, row0: Row, row1: Row)
    requires CollisionFree(lib) && Canon(lib, first) != Canon(lib, second)
    requires Hash(lib, "", first) == Some(row0.hash) && row0.ev == first && row0.prevHash == ""
    requires Hash(lib, "", second) == Some(row1.hash) && row1.ev == second && row1.prevHash == ""
    ensures row0.hash != row1.hash
    ensures ValidChain(lib, [row0, row1][..1]) && !ValidChain(lib, [row0, row1])
  {
    if row0.hash == row1.hash {
      HashInjective(lib, "", first, "", second);
    }
    AppendValid(lib, [], row0);
    assert [row0, row1][..1] == [] + [row0] == [row0];
    assert [row0, row1] == [row0] + [row1];
    AppendValid(lib, [row0], row1);
    assert LastHash([row0]) != "";
  }
}
