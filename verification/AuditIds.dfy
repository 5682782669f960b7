/**
 The order of ids in the audit log (internal/audit/audit.go). The checker and a restart read the rows by id; newID
 (207-210) makes a new monotonic source per call, so ids of one millisecond need not come in the order of insertion.
 */
module AuditIds {
  import opened Common
  import opened AuditChain

  ghost predicate IdsIncrease(rows: seq<Row>) {
    forall i, j :: 0 <= i < j < |rows| ==> rows[i].id < rows[j].id
  }

  /** The primary key. */
  ghost predicate DistinctIds(rows: seq<Row>) {
    forall i, j :: 0 <= i < j < |rows| ==> rows[i].id != rows[j].id
  }

  function Place(row: Row, rows: seq<Row>): seq<Row> {
    if rows == [] then [row]
    else
      var n := |rows| - 1;
      if rows[n].id <= row.id then rows + [row] else Place(row, rows[..n]) + [rows[n]]
  }

  /** ORDER BY id ASC */
  function ById(rows: seq<Row>): seq<Row> {
    if rows == [] then [] else Place(rows[|rows| - 1], ById(rows[..|rows| - 1]))
  }

  lemma {:induction false} PlaceAdds(row: Row, rows: seq<Row>)
    ensures multiset(Place(row, rows)) == multiset(rows) + multiset{row}
  {
    if rows != [] {
      var n := |rows| - 1;
      assert rows == rows[..n] + [rows[n]];
      PlaceAdds(row, rows[..n]);
    }
  }

  lemma AppendIncreases(init: seq<Row>, last: Row)
    requires IdsIncrease(init) && forall r :: r in init ==> r.id < last.id
    ensures IdsIncrease(init + [last])
  {
    forall i, j | 0 <= i < j < |init + [last]| ensures (init + [last])[i].id < (init + [last])[j].id {
      assert (init + [last])[i] == init[i] && init[i] in init;
    }
  }

  lemma {:induction false} PlaceSorts(row: Row, rows: seq<Row>)
    requires IdsIncrease(rows) && forall r :: r in rows ==> r.id != row.id
    ensures IdsIncrease(Place(row, rows))
  {
    if rows != [] {
      var n := |rows| - 1;
      assert forall r :: r in rows ==> r.id <= rows[n].id;
      if rows[n].id <= row.id {
        AppendIncreases(rows, row);
      } else {
        PlaceAdds(row, rows[..n]);
        PlaceSorts(row, rows[..n]);
        forall r | r in Place(row, rows[..n]) ensures r.id < rows[n].id {
          assert r in multiset(rows[..n]) + multiset{row};
        }
        AppendIncreases(Place(row, rows[..n]), rows[n]);
      }
    }
  }

  lemma {:induction false} ByIdSorts(rows: seq<Row>)
    requires DistinctIds(rows)
    ensures IdsIncrease(ById(rows)) && multiset(ById(rows)) == multiset(rows)
  {
    if rows != [] {
      var n := |rows| - 1;
      ByIdSorts(rows[..n]);
      assert rows == rows[..n] + [rows[n]];
      forall r | r in ById(rows[..n]) ensures r.id != rows[n].id {
        assert r in multiset(rows[..n]);
      }
      PlaceSorts(rows[n], ById(rows[..n]));
      PlaceAdds(rows[n], ById(rows[..n]));
    }
  }

  lemma {:induction false} ByIdOfIncreasing(rows: seq<Row>)
    requires IdsIncrease(rows)
    ensures ById(rows) == rows
  {
    if rows != [] {
      var n := |rows| - 1;
      ByIdOfIncreasing(rows[..n]);
      assert rows == rows[..n] + [rows[n]];
    }
  }

  /** A restart takes the hash of the row with the greatest id. */
  lemma NewestIsGreatest(rows: seq<Row>)
    requires DistinctIds(rows) && rows != []
    ensures exists r :: r in rows && r.hash == LastHash(ById(rows)) && forall x :: x in rows ==> x.id <= r.id
  {
    ByIdSorts(rows);
    var sorted := ById(rows);
    assert |sorted| == |multiset(sorted)| == |multiset(rows)| == |rows|;
    var last := sorted[|sorted| - 1];
    assert last in multiset(sorted);
    forall x | x in rows ensures x.id <= last.id {
      assert x in multiset(rows);
      assert x in sorted;
    }
  }

  // ---------------------------------------------------------------------------
  // Which id orders the checker accepts
  // ---------------------------------------------------------------------------

  /** Of all the orders that the rows of a chain can be put in, only that of the chain is a chain. */
  lemma OnlyInsertionOrderAccepted(lib: Library, rows: seq<Row>, byId: seq<Row>)
    requires CollisionFree(lib) && ValidChain(lib, rows)
    requires multiset(byId) == multiset(rows)
    ensures ValidChain(lib, byId) <==> byId == rows
  {
    if ValidChain(lib, byId) {
      assert |byId| == |rows| by {
        assert |multiset(byId)| == |byId| && |multiset(rows)| == |rows|;
      }
      ReorderedPrefix(lib, rows, byId, |rows|);
      assert byId[..|byId|] == byId && rows[..|rows|] == rows;
    }
  }

  lemma LaterSuccessorDiffers(lib: Library, rows: seq<Row>, j: nat, k: nat)
    requires CollisionFree(lib) && ValidChain(lib, rows) && j < k < |rows|
    ensures rows[j].prevHash != rows[k].prevHash
  {
    hide Hash;
    assert LinkedAt(lib, rows, j) && LinkedAt(lib, rows, k);
    PrevOfEarlier(lib, rows, j, k);
  }

  /** Only one row of an accepted log chains to a given hash. */
  lemma SuccessorUnique(lib: Library, rows: seq<Row>, j: nat, k: nat)
    requires CollisionFree(lib) && ValidChain(lib, rows)
    requires j < |rows| && k < |rows| && rows[j].prevHash == rows[k].prevHash
    ensures j == k
  {
    if j < k {
      LaterSuccessorDiffers(lib, rows, j, k);
    } else if k < j {
      LaterSuccessorDiffers(lib, rows, k, j);
    }
  }

  lemma {:induction false} ReorderedPrefix(lib: Library, rows: seq<Row>, byId: seq<Row>, n: nat)
    requires CollisionFree(lib) && ValidChain(lib, rows) && ValidChain(lib, byId)
    requires multiset(byId) == multiset(rows) && n <= |byId| == |rows|
    ensures byId[..n] == rows[..n]
  {
    if n > 0 {
      var k := n - 1;
      ReorderedPrefix(lib, rows, byId, k);
      var row := byId[k];
      assert row in multiset(byId);
      var j :| 0 <= j < |rows| && rows[j] == row;
      assert PrevOf(byId, k) == PrevOf(rows, k) by {
        if k > 0 {
          assert byId[k - 1] == byId[..k][k - 1] && rows[k - 1] == rows[..k][k - 1];
        }
      }
      assert LinkedAt(lib, byId, k) && LinkedAt(lib, rows, k);
      SuccessorUnique(lib, rows, j, k);
      assert byId[..n] == byId[..k] + [row] && rows[..n] == rows[..k] + [rows[k]];
    }
  }

  /** The rows of a chain, read by id, are accepted exactly when the ids increase in the order of insertion. */
  lemma ReadByIdAcceptedIff(lib: Library, rows: seq<Row>)
    requires CollisionFree(lib) && ValidChain(lib, rows) && DistinctIds(rows)
    ensures ValidChain(lib, ById(rows)) <==> IdsIncrease(rows)
  {
    ByIdSorts(rows);
    OnlyInsertionOrderAccepted(lib, rows, ById(rows));
    if IdsIncrease(rows) {
      ByIdOfIncreasing(rows);
    }
  }

  /** Row `k` was linked to the row inserted before it, and has the smaller id. */
  ghost predicate Inverted(rows: seq<Row>, k: nat) {
    0 < k < |rows| && rows[k].prevHash == rows[k - 1].hash && rows[k].id < rows[k - 1].id
  }

  /** Whatever else the table holds, an inverted row raises the alarm. */
  lemma InvertedRaisesAlarm(lib: Library, rows: seq<Row>, k: nat)
    requires CollisionFree(lib) && DistinctIds(rows) && Inverted(rows, k)
    ensures !ValidChain(lib, ById(rows))
  {
    var sorted := ById(rows);
    ByIdSorts(rows);
    if ValidChain(lib, sorted) {
      assert rows[k] in multiset(rows) && rows[k - 1] in multiset(rows);
      var p :| 0 <= p < |sorted| && sorted[p] == rows[k];
      var q :| 0 <= q < |sorted| && sorted[q] == rows[k - 1];
      LaterHashNotPrevious(lib, sorted, p, q);
    }
  }

  lemma LaterHashNotPrevious(lib: Library, rows: seq<Row>, p: nat, q: nat)
    requires CollisionFree(lib) && ValidChain(lib, rows) && p <= q < |rows|
    ensures rows[p].prevHash != rows[q].hash
  {
    assert LinkedAt(lib, rows, p);
    ChainHashes(lib, rows, q + 1);
    if p > 0 {
      HashesDistinct(lib, rows, p - 1, q);
    }
  }

  /** The smallest case: two honest rows whose ids are swapped; the alarm is for row 0. */
  lemma SwappedIdsRaiseAlarm(lib: Library, first: Event, second: Event, h1: string, h2: string)
    requires CollisionFree(lib) && Hash(lib, "", first) == Some(h1) && Hash(lib, h1, second) == Some(h2)
    ensures var rows := [Row(1, first, "", h1), Row(0, second, h1, h2)];
            ValidChain(lib, rows) && ById(rows) == [rows[1], rows[0]] && !ValidChain(lib, ById(rows)[..1])
  {
    hide Hash;
    var row0, row1 := Row(1, first, "", h1), Row(0, second, h1, h2);
    AppendValid(lib, [], row0);
    assert [] + [row0] == [row0] && [row0] + [row1] == [row0, row1];
    AppendValid(lib, [row0], row1);
    TwoById(row0, row1);
    ChainHashes(lib, [row0], 1);
    AppendValid(lib, [], row1);
    assert [] + [row1] == [row1] && [row1, row0][..1] == [row1];
  }

  lemma TwoById(later: Row, earlier: Row)
    requires earlier.id < later.id
    ensures ById([later, earlier]) == [earlier, later]
  {
    assert [later, earlier][..1] == [later] && [later][..0] == [];
    assert ById([later]) == [later];
    assert Place(earlier, [later]) == Place(earlier, []) + [later];
  }
}
