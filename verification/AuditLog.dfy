/**
 The audit log with its in-memory cache of the last hash (internal/audit/audit.go): New, loadLastHash, Record and
 VerifyChain, and whole runs of them without overlap. Overlapping calls are in AuditInterleaving.
 */
module AuditLog {
  import opened Common
  import opened AuditChain
  import opened AuditIds

  /** What is stored of a given event: all that is set in it, the time of the call for a missing time, and "success". */
  ghost predicate IsRecordOf(stored: Event, given: Event, now: int) {
    && stored.(timestamp := given.timestamp, result := given.result) == given
    && stored.timestamp == (if given.timestamp == ZERO_TIME then now else given.timestamp)
    && (given.result != "" ==> stored.result == given.result)
    && (given.result == "" ==> stored.result == "success")
  }

  /** The defaults that Record fills in. */
  function Normalised(ev: Event, now: int): (stored: Event)
    ensures IsRecordOf(stored, ev, now)
  {
    var stamped := if ev.timestamp == ZERO_TIME then ev.(timestamp := now) else ev;
    if stamped.result == "" then stamped.(result := "success") else stamped
  }

  lemma HashedIffMarshalled(lib: Library, prev: string, ev: Event)
    ensures Hash(lib, prev, ev).Some? <==> lib.marshal(ev).Some?
  {}

  lemma AppendLinked(lib: Library, rows: seq<Row>, row: Row)
    requires ValidChain(lib, rows) && row.prevHash == LastHash(rows)
    requires Hash(lib, LastHash(rows), row.ev) == Some(row.hash)
    ensures ValidChain(lib, rows + [row]) && LastHash(rows + [row]) == row.hash
  {
    AppendValid(lib, rows, row);
  }

  class Auditor {
    const lib: Library
    /** The audit_entries table, in insertion order. */
    var rows: seq<Row>
    /** The last hash seen. */
    var cache: string

    /** The stored rows form a chain in the order of their ids, and the cache is its last hash. */
    ghost predicate Valid()
      reads this
    {
      ValidChain(lib, rows) && IdsIncrease(rows) && cache == LastHash(rows)
    }

    /** The bare object over a table, before the cache is read. */
    constructor (lib: Library, table: seq<Row>)
      ensures this.lib == lib && rows == table && cache == ""
    {
      this.lib := lib;
      rows := table;
      cache := "";
    }

    /** New over an existing table, as at every start of the panel; null stands for the error. */
    static method New(lib: Library, table: seq<Row>, dbFault: bool) returns (a: Auditor?)
      ensures a == null <==> dbFault
      ensures a != null ==> fresh(a) && a.lib == lib && a.rows == table && a.cache == LastHash(ById(table))
    {
      a := new Auditor(lib, table);
      var ok := a.LoadLastHash(dbFault);
      if !ok {
        a := null;
      }
    }

    /** The hash of the row with the greatest id, or the empty string. */
    method LoadLastHash(dbFault: bool) returns (ok: bool)
      modifies this`cache
      ensures ok == !dbFault
      ensures cache == if dbFault then old(cache) else LastHash(ById(rows))
      ensures ok && rows == [] ==> cache == ""
      ensures ok && rows != [] && DistinctIds(rows)
              ==> exists r :: r in rows && r.hash == cache && forall x :: x in rows ==> x.id <= r.id
    {
      if dbFault {
        return false;
      }
      var ordered := ById(rows);
      if |ordered| == 0 {
        cache := "";
      } else {
        cache := ordered[|ordered| - 1].hash;
      }
      if DistinctIds(rows) && rows != [] {
        NewestIsGreatest(rows);
      }
      return true;
    }

    /** INSERT, refused by the database, by the primary key or by the unique index on `hash`. */
    method Insert(row: Row, dbFault: bool) returns (ok: bool)
      modifies this`rows
      ensures ok <==> !dbFault && forall r :: r in old(rows) ==> r.id != row.id && r.hash != row.hash
      ensures rows == if ok then old(rows) + [row] else old(rows)
    {
      ok := !dbFault;
      var i := 0;
      while i < |rows|
        invariant 0 <= i <= |rows|
        invariant ok <==> !dbFault && forall k :: 0 <= k < i ==> rows[k].id != row.id && rows[k].hash != row.hash
      {
        if rows[i].id == row.id || rows[i].hash == row.hash {
          ok := false;
        }
        i := i + 1;
      }
      if ok {
        rows := rows + [row];
      }
    }

    /**
     One Record call with no other in between: it stores the given event, chained to the cached hash, or changes
     nothing, when the event cannot be marshalled or the row is refused. On a valid log with a greater id only the
     database itself can refuse the row.
     */
    method Record(ev: Event, now: int, id: nat, dbFault: bool) returns (ok: bool)
      requires CollisionFree(lib)
      modifies this
      ensures !ok ==> rows == old(rows) && cache == old(cache)
      ensures ok ==> |rows| == |old(rows)| + 1 && IsRecordOf(rows[|old(rows)|].ev, ev, now)
      ensures ok ==> var stored := rows[|old(rows)|].ev;
                     Hash(lib, old(cache), stored) == Some(cache)
                     && rows == old(rows) + [Row(id, stored, old(cache), cache)]
      ensures ok ==> forall r :: r in old(rows) ==> r.id != id
      ensures old(Valid()) && (forall r :: r in old(rows) ==> r.id < id)
              ==> Valid() && (ok <==> !dbFault && lib.marshal(Normalised(ev, now)).Some?)
    {
      hide Hash, ValidChain;
      var event := ev;
      if event.timestamp == ZERO_TIME {
        event := event.(timestamp := now);
      }
      if event.result == "" {
        event := event.(result := "success");
      }
      var prev := cache;
      var hash := ComputeHash(lib, prev, event);
      HashedIffMarshalled(lib, prev, event);
      if hash.None? {
        return false;
      }
      var row := Row(id, event, prev, hash.value);
      if Valid() {
        NextHashIsFresh(lib, rows, event);
        AppendLinked(lib, rows, row);
      }
      ok := Insert(row, dbFault);
      if ok {
        cache := hash.value;
      }
    }

    /**
     VerifyChain walks the rows by id: -1 when they form a chain, otherwise the length of their longest prefix that
     does, with the error flag set when the next row cannot be hashed at all.
     */
    method VerifyChain(dbFault: bool) returns (index: int, failed: bool)
      ensures dbFault ==> index == 0 && failed
      ensures !dbFault ==> (index == -1 <==> ValidChain(lib, ById(rows)))
      ensures !dbFault && index != -1 ==> 0 <= index < |ById(rows)|
      ensures !dbFault && index != -1
              ==> ValidChain(lib, ById(rows)[..index]) && !ValidChain(lib, ById(rows)[..index + 1])
      ensures !dbFault ==> (failed <==> index != -1 && lib.marshal(ById(rows)[index].ev).None?)
    {
      hide Canon, Hash;
      if dbFault {
        return 0, true;
      }
      var ordered := ById(rows);
      var prev := "";
      var i := 0;
      while i < |ordered|
        invariant 0 <= i <= |ordered|
        invariant prev == PrevOf(ordered, i)
        invariant ValidChain(lib, ordered[..i])
      {
        var r := ordered[i];
        var expected := ComputeHash(lib, prev, r.ev);
        HashedIffMarshalled(lib, prev, r.ev);
        assert ordered[..i + 1] == ordered[..i] + [r];
        AppendValid(lib, ordered[..i], r);
        if expected.None? || r.prevHash != prev || r.hash != expected.value {
          InvalidPrefix(lib, ordered, i + 1);
          return i, expected.None?;
        }
        prev := r.hash;
        i := i + 1;
      }
      assert ordered[..|ordered|] == ordered;
      return -1, false;
    }
  }

  // ---------------------------------------------------------------------------
  // Runs
  // ---------------------------------------------------------------------------

  datatype Operation =
    | RecordOp(ev: Event, now: int, id: nat, dbFault: bool)
    | RestartOp

  /**
   What every run without overlap keeps: while the ids come in order, the rows are a chain and the cache is its last
   hash; once one did not, a row stays linked to a predecessor with a greater id.
   */
  ghost predicate Serial(lib: Library, rows: seq<Row>, cache: string) {
    && DistinctIds(rows)
    && (IdsIncrease(rows) ==> ValidChain(lib, rows) && cache == LastHash(rows))
    && (!IdsIncrease(rows) ==> exists k: nat :: Inverted(rows, k))
  }

  lemma AppendKeepsSerial(lib: Library, rows: seq<Row>, cache: string, row: Row)
    requires Serial(lib, rows, cache) && Linked(lib, cache, row) && forall r :: r in rows ==> r.id != row.id
    ensures Serial(lib, rows + [row], row.hash)
  {
    var longer := rows + [row];
    assert longer[..|rows|] == rows && longer[|rows|] == row;
    if IdsIncrease(rows) {
      AppendValid(lib, rows, row);
      if rows != [] && rows[|rows| - 1].id > row.id {
        assert Inverted(longer, |rows|);
        assert longer[|rows| - 1].id > longer[|rows|].id;
      } else {
        assert forall r :: r in rows ==> r.id < row.id;
        AppendIncreases(rows, row);
      }
    } else {
      var k: nat :| Inverted(rows, k);
      assert Inverted(longer, k);
      assert longer[k - 1].id > longer[k].id;
    }
  }

  /** `row` is what the operation stores. */
  ghost predicate Stores(op: Operation, row: Row) {
    op.RecordOp? && row.id == op.id && IsRecordOf(row.ev, op.ev, op.now)
  }

  /** With a greater id, the operation stores a row: the database takes it and the event can be marshalled. */
  predicate Succeeds(lib: Library, op: Operation) {
    op.RecordOp? && !op.dbFault && lib.marshal(Normalised(op.ev, op.now)).Some?
  }

  /** One operation; a restart gives up the object and reads the last hash from the table again. */
  method Perform(auditor: Auditor, op: Operation) returns (next: Auditor)
    requires CollisionFree(auditor.lib) && Serial(auditor.lib, auditor.rows, auditor.cache)
    modifies auditor
    ensures next == auditor || fresh(next)
    ensures next.lib == auditor.lib && Serial(next.lib, next.rows, next.cache)
    ensures op.RecordOp? && (forall r :: r in old(auditor.rows) ==> r.id < op.id) && IdsIncrease(old(auditor.rows))
            ==> (next.rows != old(auditor.rows) <==> Succeeds(auditor.lib, op))
    ensures next.rows == old(auditor.rows)
            || exists row: Row :: Stores(op, row) && next.rows == old(auditor.rows) + [row]
  {
    ghost var before, cached := auditor.rows, auditor.cache;
    match op {
      case RecordOp(ev, now, id, dbFault) =>
        next := auditor;
        var ok := auditor.Record(ev, now, id, dbFault);
        if ok {
          ghost var row := auditor.rows[|before|];
          assert Linked(auditor.lib, cached, row);
          AppendKeepsSerial(auditor.lib, before, cached, row);
        }
      case RestartOp =>
        var started := Auditor.New(auditor.lib, auditor.rows, false);
        next := started;
        if IdsIncrease(before) {
          ByIdOfIncreasing(before);
        }
    }
  }

  /** The ids that the operations bring, in order. */
  ghost predicate IdsRise(ops: seq<Operation>) {
    forall i, j :: 0 <= i < j < |ops| && ops[i].RecordOp? && ops[j].RecordOp? ==> ops[i].id < ops[j].id
  }

  ghost predicate StoredBy(ops: seq<Operation>, row: Row) {
    exists i :: 0 <= i < |ops| && Stores(ops[i], row)
  }

  /** The rows are what the operations store, one each and in order. */
  ghost predicate Records(rows: seq<Row>, ops: seq<Operation>) {
    |rows| == |ops| && forall k :: 0 <= k < |rows| ==> Stores(ops[k], rows[k])
  }

  function Succeeding(lib: Library, ops: seq<Operation>): seq<Operation> {
    if ops == [] then []
    else
      var op := ops[|ops| - 1];
      Succeeding(lib, ops[..|ops| - 1]) + if Succeeds(lib, op) then [op] else []
  }

  /** What the log holds after the operations: only rows of theirs and, if the ids rise, exactly those that succeed. */
  ghost predicate LogOf(lib: Library, ops: seq<Operation>, rows: seq<Row>) {
    && (forall r :: r in rows ==> StoredBy(ops, r))
    && (IdsRise(ops) ==> IdsIncrease(rows) && Records(rows, Succeeding(lib, ops)))
  }

  lemma NewIdIsGreater(ops: seq<Operation>, op: Operation, r: Row)
    requires op.RecordOp? && IdsRise(ops + [op]) && StoredBy(ops, r)
    ensures r.id < op.id
  {
    var longer := ops + [op];
    var k :| 0 <= k < |ops| && Stores(ops[k], r);
    assert longer[k] == ops[k] && longer[|ops|] == op;
  }

  lemma StoredByLonger(ops: seq<Operation>, op: Operation, r: Row)
    requires StoredBy(ops, r) || Stores(op, r)
    ensures StoredBy(ops + [op], r)
  {
    var longer := ops + [op];
    if StoredBy(ops, r) {
      var k :| 0 <= k < |ops| && Stores(ops[k], r);
      assert longer[k] == ops[k];
    } else {
      assert longer[|ops|] == op;
    }
  }

  lemma IdsRiseBefore(ops: seq<Operation>, op: Operation)
    requires IdsRise(ops + [op])
    ensures IdsRise(ops)
  {
    assert forall k :: 0 <= k < |ops| ==> (ops + [op])[k] == ops[k];
  }

  lemma EmptyLog(lib: Library)
    ensures Serial(lib, [], "") && LogOf(lib, [], [])
  {}

  lemma LogGrows(lib: Library, ops: seq<Operation>, op: Operation, before: seq<Row>, after: seq<Row>)
    requires LogOf(lib, ops, before)
    requires after == before || exists row: Row :: Stores(op, row) && after == before + [row]
    requires op.RecordOp? && (forall r :: r in before ==> r.id < op.id) && IdsIncrease(before)
             ==> (after != before <==> Succeeds(lib, op))
    ensures LogOf(lib, ops + [op], after)
  {
    hide StoredBy, IdsRise, IdsIncrease, Succeeds, Stores;
    forall r | r in after ensures StoredBy(ops + [op], r) {
      StoredByLonger(ops, op, r);
    }
    if IdsRise(ops + [op]) {
      IdsRiseBefore(ops, op);
      assert (ops + [op])[..|ops|] == ops;
      if op.RecordOp? {
        forall r | r in before ensures r.id < op.id {
          NewIdIsGreater(ops, op, r);
        }
      }
      RowsRise(op, before, after);
      StoresNeedsRecord(lib, op);
    }
  }

  lemma StoresNeedsRecord(lib: Library, op: Operation)
    ensures forall row :: Stores(op, row) ==> op.RecordOp?
    ensures Succeeds(lib, op) ==> op.RecordOp?
  {}

  lemma RowsRise(op: Operation, before: seq<Row>, after: seq<Row>)
    requires IdsIncrease(before)
    requires after == before || exists row: Row :: Stores(op, row) && after == before + [row]
    requires op.RecordOp? ==> forall r :: r in before ==> r.id < op.id
    ensures IdsIncrease(after)
  {
    if after != before {
      var row: Row :| Stores(op, row) && after == before + [row];
      AppendIncreases(before, row);
    }
  }

  /**
   Chain maintenance across restarts, over every sequence of Record calls and re-creations of the Auditor: the
   checker answers -1 exactly when the stored ids increase in the order of insertion, and the cache is then the last
   stored hash. Every stored row is that of a call. When the ids handed out increase, the log holds exactly the
   events of the calls that succeed, in order.
   */
  method RunSerially(lib: Library, ops: seq<Operation>) returns (auditor: Auditor, index: int)
    requires CollisionFree(lib)
    ensures auditor.lib == lib && (index == -1 <==> IdsIncrease(auditor.rows))
    ensures index == -1 ==> ValidChain(lib, auditor.rows) && auditor.cache == LastHash(auditor.rows)
    ensures forall r :: r in auditor.rows ==> StoredBy(ops, r)
    ensures IdsRise(ops) ==> index == -1 && Records(auditor.rows, Succeeding(lib, ops))
  {
    hide Stores, StoredBy, IdsRise, Records, Succeeding, Succeeds, ValidChain, Inverted;
    auditor := new Auditor(lib, []);
    EmptyLog(lib);
    var i := 0;
    assert ops[..0] == [];
    while i < |ops|
      invariant 0 <= i <= |ops|
      invariant fresh(auditor) && auditor.lib == lib && Serial(lib, auditor.rows, auditor.cache)
      invariant LogOf(lib, ops[..i], auditor.rows)
    {
      ghost var before := auditor.rows;
      assert ops[..i + 1] == ops[..i] + [ops[i]];
      auditor := Perform(auditor, ops[i]);
      LogGrows(lib, ops[..i], ops[i], before, auditor.rows);
      i := i + 1;
    }
    assert ops[..|ops|] == ops;
    if IdsIncrease(auditor.rows) {
      ByIdOfIncreasing(auditor.rows);
    } else {
      ghost var k: nat :| Inverted(auditor.rows, k);
      InvertedRaisesAlarm(lib, auditor.rows, k);
    }
    var failed;
    index, failed := auditor.VerifyChain(false);
  }
}
