/**
 Overlapping Record calls as VerifyChain sees them (internal/audit/audit.go:79-158): the calls may disturb one another,
 and their ids need not come in the order of insertion.
 */
module AuditOverlap {
  import opened Common
  import opened AuditChain
  import opened AuditIds
  import opened AuditInterleaving

  // ---------------------------------------------------------------------------
  // Every stored row links back, whatever the interleaving
  // ---------------------------------------------------------------------------

  /** The empty start value, or the hash of one of the first `n` rows. */
  ghost predicate Known(rows: seq<Row>, n: nat, hash: string)
    requires n <= |rows|
  {
    hash == "" || exists j :: 0 <= j < n && rows[j].hash == hash
  }

  /** Each row is chained to the start or to a row inserted earlier. */
  ghost predicate LinksBack(rows: seq<Row>) {
    forall i :: 0 <= i < |rows| ==> Known(rows, i, rows[i].prevHash)
  }

  ghost predicate KnownToCall(rows: seq<Row>, phase: Phase) {
    match phase
    case HasRead(prev) => Known(rows, |rows|, prev)
    case HasInserted(hash) => Known(rows, |rows|, hash)
  }

  ghost predicate KnowsHashes(s: State) {
    && LinksBack(s.rows) && DistinctIds(s.rows) && Known(s.rows, |s.rows|, s.cache)
    && forall c :: c in s.calls ==> KnownToCall(s.rows, s.calls[c])
  }

  lemma KnownStays(rows: seq<Row>, row: Row, n: nat, hash: string)
    requires n <= |rows| && Known(rows, n, hash)
    ensures Known(rows + [row], n, hash) && Known(rows + [row], |rows| + 1, hash)
  {
    if hash != "" {
      var j :| 0 <= j < n && rows[j].hash == hash;
      assert (rows + [row])[j] == rows[j];
    }
  }

  lemma AppendLinksBack(rows: seq<Row>, row: Row)
    requires LinksBack(rows) && Known(rows, |rows|, row.prevHash)
    ensures LinksBack(rows + [row])
  {
    forall i | 0 <= i < |rows + [row]| ensures Known(rows + [row], i, (rows + [row])[i].prevHash) {
      if i < |rows| {
        KnownStays(rows, row, i, rows[i].prevHash);
      } else {
        KnownStays(rows, row, |rows|, row.prevHash);
      }
    }
  }

  lemma StoreKnowsHashes(lib: Library, s: State, step: Step)
    requires KnowsHashes(s) && Stored(lib, s, step).Some?
    ensures KnowsHashes(Next(lib, s, step))
  {
    var row, next := Stored(lib, s, step).value, Next(lib, s, step);
    assert KnownToCall(s.rows, s.calls[step.call]);
    AppendLinksBack(s.rows, row);
    KnownStays(s.rows, row, |s.rows|, s.cache);
    assert next.rows[|s.rows|] == row;
    forall c | c in next.calls ensures KnownToCall(next.rows, next.calls[c]) {
      if c != step.call {
        assert KnownToCall(s.rows, s.calls[c]);
        KnownStays(s.rows, row, |s.rows|, if s.calls[c].HasRead? then s.calls[c].prev else s.calls[c].hash);
      }
    }
  }

  lemma StepKnowsHashes(lib: Library, s: State, step: Step)
    requires KnowsHashes(s)
    ensures KnowsHashes(Next(lib, s, step))
  {
    if Stored(lib, s, step).Some? {
      StoreKnowsHashes(lib, s, step);
    } else {
      var next := Next(lib, s, step);
      StoresIsStored(lib, s, step);
      forall c | c in next.calls ensures KnownToCall(next.rows, next.calls[c]) {
        if c in s.calls {
          assert KnownToCall(s.rows, s.calls[c]);
        }
      }
      if step.WriteCache? && next != s {
        assert KnownToCall(s.rows, s.calls[step.call]);
      }
    }
  }

  lemma {:induction false} RunKnowsHashes(lib: Library, s: State, steps: seq<Step>)
    requires KnowsHashes(s)
    ensures KnowsHashes(Run(lib, s, steps))
    decreases steps
  {
    if steps != [] {
      StepKnowsHashes(lib, s, steps[0]);
      RunKnowsHashes(lib, Next(lib, s, steps[0]), steps[1..]);
    }
  }

  lemma RestedKnowsHashes(lib: Library, s: State)
    requires Rested(lib, s) && DistinctIds(s.rows)
    ensures KnowsHashes(s)
  {
    forall i | 0 <= i < |s.rows| ensures Known(s.rows, i, s.rows[i].prevHash) {
      assert LinkedAt(lib, s.rows, i);
    }
  }

  // ---------------------------------------------------------------------------
  // A chain that permutes such rows is their order of insertion
  // ---------------------------------------------------------------------------

  /** Where the row inserted at `k` stands in a chain that agrees with the insertion up to there. */
  lemma NextInPlace(lib: Library, rows: seq<Row>, chain: seq<Row>, k: nat, p: nat)
    requires CollisionFree(lib) && ValidChain(lib, chain) && LinksBack(rows) && DistinctIds(rows)
    requires |chain| == |rows| && k < |rows| && chain[..k] == rows[..k] && p < |chain| && chain[p] == rows[k]
    ensures p == k
  {
    assert forall i :: 0 <= i < k ==> chain[i] == chain[..k][i] == rows[..k][i] == rows[i];
    assert Known(rows, k, rows[k].prevHash);
    assert LinkedAt(lib, chain, p);
    if rows[k].prevHash == "" {
      PrevOfInjective(lib, chain, p, 0);
    } else {
      var j :| 0 <= j < k && rows[j].hash == rows[k].prevHash;
      assert PrevOf(chain, j + 1) == rows[j].hash == PrevOf(chain, p);
      PrevOfInjective(lib, chain, p, j + 1);
    }
  }

  lemma {:induction false} ChainIsInsertion(lib: Library, rows: seq<Row>, chain: seq<Row>, n: nat)
    requires CollisionFree(lib) && ValidChain(lib, chain) && LinksBack(rows) && DistinctIds(rows)
    requires multiset(chain) == multiset(rows) && n <= |rows| == |chain|
    ensures chain[..n] == rows[..n]
  {
    if n > 0 {
      var k := n - 1;
      ChainIsInsertion(lib, rows, chain, k);
      assert rows[k] in multiset(chain);
      var p :| 0 <= p < |chain| && chain[p] == rows[k];
      NextInPlace(lib, rows, chain, k, p);
      assert chain[..n] == chain[..k] + [chain[k]] && rows[..n] == rows[..k] + [rows[k]];
    }
  }

  // ---------------------------------------------------------------------------
  // The exact condition
  // ---------------------------------------------------------------------------

  /** The rows, read by id, are accepted exactly when they are a chain as inserted and the ids increase. */
  lemma AcceptedIffChainAndIds(lib: Library, rows: seq<Row>)
    requires CollisionFree(lib) && LinksBack(rows) && DistinctIds(rows)
    ensures ValidChain(lib, ById(rows)) <==> ValidChain(lib, rows) && IdsIncrease(rows)
  {
    ByIdSorts(rows);
    if ValidChain(lib, ById(rows)) {
      assert |ById(rows)| == |multiset(ById(rows))| == |multiset(rows)| == |rows|;
      ChainIsInsertion(lib, rows, ById(rows), |rows|);
      assert ById(rows)[..|rows|] == ById(rows) && rows[..|rows|] == rows;
    }
    if IdsIncrease(rows) {
      ByIdOfIncreasing(rows);
    }
  }

  /**
   The exact condition for concurrent use. From a state of rest, whatever the interleaving and the ids, VerifyChain
   accepts the log exactly when no call whose row is stored was disturbed between its read of the cache and its
   insertion, nor had read a stale cache, and the stored ids increase in the order of insertion.
   */
  lemma AcceptedIff(lib: Library, s: State, steps: seq<Step>)
    requires CollisionFree(lib) && Rested(lib, s) && DistinctIds(s.rows)
    ensures ValidChain(lib, ById(Run(lib, s, steps).rows))
            <==> Undisturbed(lib, s, steps, |steps|) && IdsIncrease(Run(lib, s, steps).rows)
  {
    RestedKnowsHashes(lib, s);
    RunKnowsHashes(lib, s, steps);
    RunKeepsChainIff(lib, s, steps);
    AcceptedIffChainAndIds(lib, Run(lib, s, steps).rows);
  }

  /** Two calls, one after the other, whose ids come out as 1 and 0. */
  function InvertedIds(first: Event, second: Event): seq<Step> {
    Uninterrupted(0, first, 1, false) + Uninterrupted(1, second, 0, false)
  }

  /** The ids alone can break it: nothing is disturbed, and yet row 0 is reported. */
  lemma UndisturbedButRejected(lib: Library, first: Event, second: Event, h1: string, h2: string)
    requires CollisionFree(lib) && Hash(lib, "", first) == Some(h1) && Hash(lib, h1, second) == Some(h2)
    ensures var steps, start := InvertedIds(first, second), State([], "", map[]);
            var read := ById(Run(lib, start, steps).rows);
            Undisturbed(lib, start, steps, |steps|) && |read| == 2 && !ValidChain(lib, read[..1])
  {
    var start := State([], "", map[]);
    var row0, row1 := Row(1, first, "", h1), Row(0, second, h1, h2);
    SwappedIdsRaiseAlarm(lib, first, second, h1, h2);
    assert h1 != h2 by {
      HashesDistinct(lib, [row0, row1], 0, 1);
    }
    hide Hash;
    UninterruptedStores(lib, start, 0, first, 1, row0);
    var mid := State([row0], h1, map[]);
    assert [] + [row0] == [row0] && [row0] + [row1] == [row0, row1];
    UninterruptedStores(lib, mid, 1, second, 0, row1);
    RunAppend(lib, start, Uninterrupted(0, first, 1, false), Uninterrupted(1, second, 0, false));
    RunKeepsChainIff(lib, start, InvertedIds(first, second));
  }

  lemma UninterruptedStores(lib: Library, s: State, call: nat, ev: Event, id: nat, row: Row)
    requires s.calls == map[] && Hash(lib, s.cache, ev) == Some(row.hash) && row == Row(id, ev, s.cache, row.hash)
    requires forall r :: r in s.rows ==> r.id != id && r.hash != row.hash
    ensures Run(lib, s, Uninterrupted(call, ev, id, false)) == State(s.rows + [row], row.hash, map[])
  {
    hide Hash;
    var insert := InsertRow(call, ev, id, false);
    var s1 := Next(lib, s, ReadCache(call));
    var s2 := Next(lib, s1, insert);
    RunCons(lib, s, ReadCache(call), [insert] + ([WriteCache(call)] + []));
    RunCons(lib, s1, insert, [WriteCache(call)] + []);
    RunCons(lib, s2, WriteCache(call), []);
    assert Stored(lib, s1, insert) == Some(row);
    assert Next(lib, s2, WriteCache(call)).calls == map[];
  }

  lemma {:induction false} RunAppend(lib: Library, s: State, xs: seq<Step>, ys: seq<Step>)
    ensures Run(lib, s, xs + ys) == Run(lib, Run(lib, s, xs), ys)
    decreases xs
  {
    if xs == [] {
      assert xs + ys == ys;
    } else {
      assert (xs + ys)[1..] == xs[1..] + ys;
      RunAppend(lib, Next(lib, s, xs[0]), xs[1..], ys);
    }
  }
}
