/**
 The per-tenant store of encrypted secrets (internal/vault/vault.go). AES-GCM, base64 and the random source are
 parameters with stated laws; a failing database statement has no effect. Deleting marks a row, and
 the unique index on tenant and name covers marked rows (internal/db/models/models.go:165-174).
 */
module Vault {
  import opened Common
  import opened StringOrder

  type Byte = b: int | 0 <= b < 256
  type Bytes = seq<Byte>

  const MAX_SECRET_BYTES := 64 * 1024

  datatype Crypto = Crypto(
    nonceSize: nat,
    seal: (Bytes, Bytes) -> Bytes,
    open: (Bytes, Bytes) -> Option<Bytes>,
    encode: Bytes -> string,
    decode: string -> Option<Bytes>)

  /** Opening undoes sealing, and decoding undoes encoding (section 5 of RFC 4648). */
  ghost predicate Ideal(c: Crypto) {
    && (forall nonce, plain :: c.open(nonce, c.seal(nonce, plain)) == Some(plain))
    && forall raw :: c.decode(c.encode(raw)) == Some(raw)
  }

  function Encrypt(c: Crypto, nonce: Bytes, plain: Bytes): string {
    c.encode(nonce + c.seal(nonce, plain))
  }

  function Decrypt(c: Crypto, blob: string): Option<Bytes> {
    match c.decode(blob)
    case None => None
    case Some(raw) => if |raw| < c.nonceSize then None else c.open(raw[..c.nonceSize], raw[c.nonceSize..])
  }

  lemma DecryptUndoesEncrypt(c: Crypto, nonce: Bytes, plain: Bytes)
    requires Ideal(c) && |nonce| == c.nonceSize
    ensures Decrypt(c, Encrypt(c, nonce, plain)) == Some(plain)
  {
    var raw := nonce + c.seal(nonce, plain);
    assert raw[..c.nonceSize] == nonce && raw[c.nonceSize..] == c.seal(nonce, plain);
  }

  // ---------------------------------------------------------------------------
  // The table
  // ---------------------------------------------------------------------------

  datatype Key = Key(tenant: string, name: string)

  datatype Row = Row(key: Key, ciphertext: string, version: nat,
                   createdBy: string, rotatedBy: Option<string>, deleted: bool)

  datatype Meta = Meta(key: Key, version: nat, createdBy: string, rotatedBy: Option<string>)

  datatype Error = EmptyName | TooLarge | EncryptFailed | LookupFailed | WriteFailed | SecretNotFound | DecryptFailed

  datatype Result<+T> = Ok(value: T) | Failed(error: Error)

  function MetaOf(row: Row): Meta {
    Meta(row.key, row.version, row.createdBy, row.rotatedBy)
  }

  /** SELECT ... WHERE tenant_id = ? AND name = ?, marked rows hidden. */
  function Find(rows: seq<Row>, key: Key, from: nat := 0): (i: Option<nat>)
    requires from <= |rows|
    ensures i.Some? ==> from <= i.value < |rows| && rows[i.value].key == key && !rows[i.value].deleted
    ensures i.None? ==> forall k :: from <= k < |rows| ==> rows[k].key != key || rows[k].deleted
    decreases |rows| - from
  {
    if from == |rows| then None
    else if rows[from].key == key && !rows[from].deleted then Some(from)
    else Find(rows, key, from + 1)
  }

  predicate KeyTaken(rows: seq<Row>, key: Key) {
    exists k :: 0 <= k < |rows| && rows[k].key == key
  }

  function Weight(row: Row, tenant: string): nat {
    if row.key.tenant == tenant && !row.deleted then 1 else 0
  }

  /** The live secrets of a tenant. */
  function Count(rows: seq<Row>, tenant: string): nat {
    if rows == [] then 0 else Count(rows[..|rows| - 1], tenant) + Weight(rows[|rows| - 1], tenant)
  }

  function LiveRows(rows: seq<Row>, tenant: string): seq<Row> {
    if rows == [] then []
    else
      var row := rows[|rows| - 1];
      LiveRows(rows[..|rows| - 1], tenant) + if row.key.tenant == tenant && !row.deleted then [row] else []
  }

  function Place(row: Row, rows: seq<Row>): seq<Row> {
    if rows == [] || LessEq(row.key.name, rows[0].key.name) then [row] + rows
    else [rows[0]] + Place(row, rows[1..])
  }

  /** ORDER BY name ASC */
  function ByName(rows: seq<Row>): seq<Row> {
    if rows == [] then [] else Place(rows[|rows| - 1], ByName(rows[..|rows| - 1]))
  }

  function Metas(rows: seq<Row>): (m: seq<Meta>)
    ensures |m| == |rows| && forall i :: 0 <= i < |rows| ==> m[i] == MetaOf(rows[i])
  {
    seq(|rows|, i requires 0 <= i < |rows| => MetaOf(rows[i]))
  }

  /** Which part of Put fails: the random source, the lookup, or the write. */
  datatype PutFaults = PutFaults(random: bool, lookup: bool, write: bool)

  class Vault {
    const c: Crypto
    var rows: seq<Row>

    constructor (c: Crypto, table: seq<Row>)
      ensures this.c == c && rows == table
    {
      this.c := c;
      rows := table;
    }

    /** Put; `nonce` is what the random source gives. */
    method Put(tenant: string, name: string, plaintext: Bytes, actor: string, nonce: Bytes, f: PutFaults)
      returns (r: Result<Meta>)
      modifies this
      ensures (r, rows) == PutStep(c, old(rows), Key(tenant, name), plaintext, actor, nonce, f)
    {
      if name == "" {
        return Failed(EmptyName);
      }
      if |plaintext| > MAX_SECRET_BYTES {
        return Failed(TooLarge);
      }
      if f.random {
        return Failed(EncryptFailed);
      }
      var ct := Encrypt(c, nonce, plaintext);
      var key := Key(tenant, name);
      if f.lookup {
        return Failed(LookupFailed);
      }
      var existing := Find(rows, key);
      if existing.Some? {
        var row := rows[existing.value];
        row := row.(ciphertext := ct);
        row := row.(version := row.version + 1);
        row := row.(rotatedBy := Some(actor));
        if f.write {
          return Failed(WriteFailed);
        }
        rows := rows[existing.value := row];
        return Ok(MetaOf(row));
      }
      var row := Row(key, ct, 1, actor, None, false);
      if f.write || KeyTaken(rows, key) {
        return Failed(WriteFailed);
      }
      rows := rows + [row];
      return Ok(MetaOf(row));
    }

    method Get(tenant: string, name: string, dbFault: bool) returns (r: Result<Meta>)
      ensures r == if dbFault then Failed(LookupFailed)
                   else match Find(rows, Key(tenant, name)) case None => Failed(SecretNotFound)
                        case Some(i) => Ok(MetaOf(rows[i]))
    {
      if dbFault {
        return Failed(LookupFailed);
      }
      var found := Find(rows, Key(tenant, name));
      if found.None? {
        return Failed(SecretNotFound);
      }
      return Ok(MetaOf(rows[found.value]));
    }

    method Read(tenant: string, name: string, dbFault: bool) returns (r: Result<(Bytes, Meta)>)
      ensures r == if dbFault then Failed(LookupFailed) else ReadResult(c, rows, Key(tenant, name))
    {
      if dbFault {
        return Failed(LookupFailed);
      }
      var found := Find(rows, Key(tenant, name));
      if found.None? {
        return Failed(SecretNotFound);
      }
      var plain := Decrypt(c, rows[found.value].ciphertext);
      if plain.None? {
        return Failed(DecryptFailed);
      }
      return Ok((plain.value, MetaOf(rows[found.value])));
    }

    method List(tenant: string, dbFault: bool) returns (r: Result<seq<Meta>>)
      ensures r == if dbFault then Failed(LookupFailed) else Ok(Metas(ByName(LiveRows(rows, tenant))))
    {
      if dbFault {
        return Failed(LookupFailed);
      }
      var found := ByName(LiveRows(rows, tenant));
      var out: seq<Meta> := [];
      var i := 0;
      while i < |found|
        invariant 0 <= i <= |found| && out == Metas(found[..i])
      {
        out := out + [MetaOf(found[i])];
        i := i + 1;
      }
      assert found[..|found|] == found;
      return Ok(out);
    }

    method Delete(tenant: string, name: string, dbFault: bool) returns (r: Result<()>)
      modifies this
      ensures (r, rows) == DeleteStep(old(rows), Key(tenant, name), dbFault)
    {
      if dbFault {
        return Failed(WriteFailed);
      }
      var found := Find(rows, Key(tenant, name));
      if found.None? {
        return Failed(SecretNotFound);
      }
      rows := rows[found.value := rows[found.value].(deleted := true)];
      return Ok(());
    }
  }

  // ---------------------------------------------------------------------------
  // The calls as steps of the table
  // ---------------------------------------------------------------------------

  function PutStep(c: Crypto, rows: seq<Row>, key: Key, plaintext: Bytes, actor: string, nonce: Bytes, f: PutFaults)
    : (Result<Meta>, seq<Row>)
  {
    if key.name == "" then (Failed(EmptyName), rows)
    else if |plaintext| > MAX_SECRET_BYTES then (Failed(TooLarge), rows)
    else if f.random then (Failed(EncryptFailed), rows)
    else if f.lookup then (Failed(LookupFailed), rows)
    else
      var ct := Encrypt(c, nonce, plaintext);
      match Find(rows, key)
      case Some(i) =>
        var row := rows[i].(ciphertext := ct, version := rows[i].version + 1, rotatedBy := Some(actor));
        if f.write then (Failed(WriteFailed), rows) else (Ok(MetaOf(row)), rows[i := row])
      case None =>
        var row := Row(key, ct, 1, actor, None, false);
        if f.write || KeyTaken(rows, key) then (Failed(WriteFailed), rows) else (Ok(MetaOf(row)), rows + [row])
  }

  function DeleteStep(rows: seq<Row>, key: Key, dbFault: bool): (Result<()>, seq<Row>) {
    if dbFault then (Failed(WriteFailed), rows)
    else
      match Find(rows, key)
      case None => (Failed(SecretNotFound), rows)
      case Some(i) => (Ok(()), rows[i := rows[i].(deleted := true)])
  }

  function ReadResult(c: Crypto, rows: seq<Row>, key: Key): Result<(Bytes, Meta)> {
    match Find(rows, key)
    case None => Failed(SecretNotFound)
    case Some(i) =>
      match Decrypt(c, rows[i].ciphertext)
      case None => Failed(DecryptFailed)
      case Some(plain) => Ok((plain, MetaOf(rows[i])))
  }

  datatype Step =
    | Put(key: Key, plaintext: Bytes, actor: string, nonce: Bytes, pf: PutFaults)
    | Delete(key: Key, dbFault: bool)

  function Next(c: Crypto, rows: seq<Row>, step: Step): seq<Row> {
    match step
    case Put(key, plaintext, actor, nonce, f) => PutStep(c, rows, key, plaintext, actor, nonce, f).1
    case Delete(key, dbFault) => DeleteStep(rows, key, dbFault).1
  }

  predicate Accepted(c: Crypto, rows: seq<Row>, step: Step) {
    match step
    case Put(key, plaintext, actor, nonce, f) => PutStep(c, rows, key, plaintext, actor, nonce, f).0.Ok?
    case Delete(key, dbFault) => DeleteStep(rows, key, dbFault).0.Ok?
  }

  function Run(c: Crypto, steps: seq<Step>): seq<Row> {
    if steps == [] then [] else Next(c, Run(c, steps[..|steps| - 1]), steps[|steps| - 1])
  }

  // ---------------------------------------------------------------------------
  // What a user of the vault sees: the accepted calls for each name
  // ---------------------------------------------------------------------------

  datatype Write = Write(plaintext: Bytes, actor: string)

  /** The accepted Puts of a key, in order. */
  function Written(c: Crypto, steps: seq<Step>, key: Key): seq<Write> {
    if steps == [] then []
    else
      var init, last := steps[..|steps| - 1], steps[|steps| - 1];
      Written(c, init, key)
      + if last.Put? && last.key == key && Accepted(c, Run(c, init), last) then [Write(last.plaintext, last.actor)]
        else []
  }

  /** Some Delete of the key was accepted. */
  predicate EverDeleted(c: Crypto, steps: seq<Step>, key: Key) {
    steps != [] &&
    var init, last := steps[..|steps| - 1], steps[|steps| - 1];
    EverDeleted(c, init, key) || (last.Delete? && last.key == key && Accepted(c, Run(c, init), last))
  }

  ghost predicate UniqueKeys(rows: seq<Row>) {
    forall i, j :: 0 <= i < j < |rows| ==> rows[i].key != rows[j].key
  }

  /** What is shown of a secret: how often it was put, who put it first, and who put it last if it was put again. */
  ghost predicate MetaShows(m: Meta, key: Key, written: seq<Write>) {
    && m.key == key && written != [] && m.version == |written| && m.createdBy == written[0].actor
    && m.rotatedBy == if |written| == 1 then None else Some(written[|written| - 1].actor)
  }

  /** The row of a key holds the last accepted plaintext and what is shown of it, and knows of the Delete. */
  ghost predicate RowShows(c: Crypto, row: Row, written: seq<Write>, deleted: bool) {
    && MetaShows(MetaOf(row), row.key, written) && row.deleted == deleted
    && Decrypt(c, row.ciphertext) == Some(written[|written| - 1].plaintext)
  }

  /** What the table holds for one key. */
  ghost predicate KeyShows(c: Crypto, rows: seq<Row>, key: Key, written: seq<Write>, deleted: bool) {
    && (forall k :: 0 <= k < |rows| && rows[k].key == key ==> RowShows(c, rows[k], written, deleted))
    && (written != [] || deleted ==> KeyTaken(rows, key))
  }

  ghost predicate Refines(c: Crypto, rows: seq<Row>, steps: seq<Step>) {
    UniqueKeys(rows) && forall key :: KeyShows(c, rows, key, Written(c, steps, key), EverDeleted(c, steps, key))
  }

  ghost predicate NoncesFit(c: Crypto, steps: seq<Step>) {
    forall k :: 0 <= k < |steps| && steps[k].Put? ==> |steps[k].nonce| == c.nonceSize
  }

  lemma {:induction false} RunRefines(c: Crypto, steps: seq<Step>)
    requires Ideal(c) && NoncesFit(c, steps)
    ensures Refines(c, Run(c, steps), steps)
  {
    if steps != [] {
      var init, last := steps[..|steps| - 1], steps[|steps| - 1];
      RunRefines(c, init);
      assert steps == init + [last];
      if Accepted(c, Run(c, init), last) {
        match last {
          case Put(_, _, _, _, _) =>
            match Find(Run(c, init), last.key) {
              case Some(i) => RotationRefines(c, init, last, i);
              case None => CreationRefines(c, init, last);
            }
          case Delete(_, _) => DeleteRefines(c, init, last);
        }
      } else {
        assert forall key :: Written(c, steps, key) == Written(c, init, key);
        assert forall key :: EverDeleted(c, steps, key) == EverDeleted(c, init, key);
      }
    }
  }

  lemma OthersUnchanged(c: Crypto, init: seq<Step>, last: Step, key: Key)
    ensures last.key != key ==> Written(c, init + [last], key) == Written(c, init, key)
    ensures last.key != key ==> EverDeleted(c, init + [last], key) == EverDeleted(c, init, key)
  {
    assert (init + [last])[..|init|] == init;
  }

  /** A row rewritten in place, under its own key, shows what it now holds; the other keys show what they did. */
  lemma RewrittenRowShows(c: Crypto, rows: seq<Row>, i: nat, row: Row, key: Key, written: seq<Write>, deleted: bool)
    requires UniqueKeys(rows) && i < |rows| && row.key == rows[i].key
    requires if key == row.key then RowShows(c, row, written, deleted) else KeyShows(c, rows, key, written, deleted)
    ensures KeyShows(c, rows[i := row], key, written, deleted)
  {
    var rows' := rows[i := row];
    if KeyTaken(rows, key) {
      var k :| 0 <= k < |rows| && rows[k].key == key;
      assert rows'[k].key == key;
    }
    assert key == row.key ==> rows'[i].key == key;
  }

  lemma AddedRowShows(c: Crypto, rows: seq<Row>, row: Row, key: Key, written: seq<Write>, deleted: bool)
    requires !KeyTaken(rows, row.key)
    requires if key == row.key then RowShows(c, row, written, deleted) else KeyShows(c, rows, key, written, deleted)
    ensures KeyShows(c, rows + [row], key, written, deleted)
  {
    var rows' := rows + [row];
    if KeyTaken(rows, key) {
      var k :| 0 <= k < |rows| && rows[k].key == key;
      assert rows'[k].key == key;
    }
    assert rows'[|rows|] == row;
  }

  /** Rewriting the row of the key a call names keeps the refinement, once that row shows the key's new history. */
  lemma RewriteRefines(c: Crypto, rows: seq<Row>, i: nat, row: Row, init: seq<Step>, last: Step)
    requires Refines(c, rows, init) && i < |rows| && row.key == rows[i].key == last.key
    requires RowShows(c, row, Written(c, init + [last], last.key), EverDeleted(c, init + [last], last.key))
    ensures Refines(c, rows[i := row], init + [last])
  {
    var steps := init + [last];
    forall key ensures KeyShows(c, rows[i := row], key, Written(c, steps, key), EverDeleted(c, steps, key)) {
      OthersUnchanged(c, init, last, key);
      RewrittenRowShows(c, rows, i, row, key, Written(c, steps, key), EverDeleted(c, steps, key));
    }
  }

  /** What an accepted Put adds to the history of its key. */
  lemma PutRecorded(c: Crypto, init: seq<Step>, last: Step)
    requires last.Put? && Accepted(c, Run(c, init), last)
    ensures Written(c, init + [last], last.key) == Written(c, init, last.key) + [Write(last.plaintext, last.actor)]
    ensures EverDeleted(c, init + [last], last.key) == EverDeleted(c, init, last.key)
  {
    assert (init + [last])[..|init|] == init;
  }

  lemma RotationRefines(c: Crypto, init: seq<Step>, last: Step, i: nat)
    requires Ideal(c) && last.Put? && |last.nonce| == c.nonceSize
    requires Refines(c, Run(c, init), init) && Accepted(c, Run(c, init), last)
    requires Find(Run(c, init), last.key) == Some(i)
    ensures Refines(c, Next(c, Run(c, init), last), init + [last])
  {
    var steps, rows := init + [last], Run(c, init);
    DecryptUndoesEncrypt(c, last.nonce, last.plaintext);
    PutRecorded(c, init, last);
    var row := rows[i].(ciphertext := Encrypt(c, last.nonce, last.plaintext), version := rows[i].version + 1,
                        rotatedBy := Some(last.actor));
    assert KeyShows(c, rows, last.key, Written(c, init, last.key), EverDeleted(c, init, last.key));
    assert RowShows(c, row, Written(c, steps, last.key), EverDeleted(c, steps, last.key));
    RewriteRefines(c, rows, i, row, init, last);
  }

  lemma CreationRefines(c: Crypto, init: seq<Step>, last: Step)
    requires Ideal(c) && last.Put? && |last.nonce| == c.nonceSize
    requires Refines(c, Run(c, init), init) && Accepted(c, Run(c, init), last) && Find(Run(c, init), last.key).None?
    ensures Refines(c, Next(c, Run(c, init), last), init + [last])
  {
    var steps, rows := init + [last], Run(c, init);
    DecryptUndoesEncrypt(c, last.nonce, last.plaintext);
    PutRecorded(c, init, last);
    var row := Row(last.key, Encrypt(c, last.nonce, last.plaintext), 1, last.actor, None, false);
    assert KeyShows(c, rows, last.key, Written(c, init, last.key), EverDeleted(c, init, last.key));
    assert RowShows(c, row, Written(c, steps, last.key), EverDeleted(c, steps, last.key));
    forall key ensures KeyShows(c, rows + [row], key, Written(c, steps, key), EverDeleted(c, steps, key)) {
      OthersUnchanged(c, init, last, key);
      AddedRowShows(c, rows, row, key, Written(c, steps, key), EverDeleted(c, steps, key));
    }
  }

  lemma DeleteRefines(c: Crypto, init: seq<Step>, last: Step)
    requires last.Delete? && Refines(c, Run(c, init), init) && Accepted(c, Run(c, init), last)
    ensures Refines(c, Next(c, Run(c, init), last), init + [last])
  {
    var steps, rows := init + [last], Run(c, init);
    assert steps[..|init|] == init;
    var i := Find(rows, last.key).value;
    var row := rows[i].(deleted := true);
    assert Written(c, steps, last.key) == Written(c, init, last.key) && EverDeleted(c, steps, last.key);
    assert KeyShows(c, rows, last.key, Written(c, init, last.key), EverDeleted(c, init, last.key));
    assert RowShows(c, row, Written(c, steps, last.key), true);
    RewriteRefines(c, rows, i, row, init, last);
  }

  // ---------------------------------------------------------------------------
  // Main results
  // ---------------------------------------------------------------------------

  /**
   Refinement: over every run, Read gives the plaintext of the latest accepted Put of that tenant and name, with the
   number of accepted Puts as its version and the actors of the first and the last, unless a Delete was accepted or
   nothing was put; and it never fails to decrypt.
   */
  lemma ReadSeesLatestPut(c: Crypto, steps: seq<Step>, key: Key)
    requires Ideal(c) && NoncesFit(c, steps)
    ensures var r, written := ReadResult(c, Run(c, steps), key), Written(c, steps, key);
            if written == [] || EverDeleted(c, steps, key) then r == Failed(SecretNotFound)
            else r.Ok? && r.value.0 == written[|written| - 1].plaintext && MetaShows(r.value.1, key, written)
  {
    RunRefines(c, steps);
    var rows := Run(c, steps);
    assert KeyShows(c, rows, key, Written(c, steps, key), EverDeleted(c, steps, key));
    if Find(rows, key).None? && Written(c, steps, key) != [] {
      var k :| 0 <= k < |rows| && rows[k].key == key;
      assert rows[k].deleted;
    }
  }

  /**
   When a Put is accepted: the name is not empty, the value fits, no part fails, and the name was never deleted. A
   deleted name stays in the unique index, so it cannot be put again.
   */
  lemma PutAcceptedIff(c: Crypto, steps: seq<Step>, put: Step)
    requires Ideal(c) && NoncesFit(c, steps) && put.Put?
    ensures Accepted(c, Run(c, steps), put)
            <==> put.key.name != "" && |put.plaintext| <= 65536 && put.pf == PutFaults(false, false, false)
                 && !EverDeleted(c, steps, put.key)
  {
    RunRefines(c, steps);
    var rows := Run(c, steps);
    assert KeyShows(c, rows, put.key, Written(c, steps, put.key), EverDeleted(c, steps, put.key));
    if Find(rows, put.key).None? && KeyTaken(rows, put.key) {
      var k :| 0 <= k < |rows| && rows[k].key == put.key;
      assert rows[k].deleted;
    }
    if EverDeleted(c, steps, put.key) {
      var k :| 0 <= k < |rows| && rows[k].key == put.key;
      assert rows[k].deleted;
      assert Find(rows, put.key).None?;
    }
  }

  /** An accepted Put answers with what is then shown of the secret; a rejected one says why. */
  lemma PutAnswers(c: Crypto, steps: seq<Step>, put: Step)
    requires Ideal(c) && NoncesFit(c, steps + [put]) && put.Put?
    ensures var r := PutStep(c, Run(c, steps), put.key, put.plaintext, put.actor, put.nonce, put.pf).0;
            && (r.Ok? ==> MetaShows(r.value, put.key, Written(c, steps + [put], put.key)))
            && (r == Failed(EmptyName) <==> put.key.name == "")
            && (r == Failed(TooLarge) <==> put.key.name != "" && |put.plaintext| > 65536)
  {
    var all := steps + [put];
    assert all[..|steps|] == steps;
    RunRefines(c, all);
    var rows := Run(c, all);
    if Accepted(c, Run(c, steps), put) {
      assert KeyShows(c, rows, put.key, Written(c, all, put.key), EverDeleted(c, all, put.key));
      var k := match Find(Run(c, steps), put.key) case Some(i) => i case None => |Run(c, steps)|;
      assert rows[k].key == put.key;
    }
  }

  /** When a Delete is accepted: the name was put and not deleted before. */
  lemma DeleteAcceptedIff(c: Crypto, steps: seq<Step>, delete: Step)
    requires Ideal(c) && NoncesFit(c, steps) && delete.Delete?
    ensures Accepted(c, Run(c, steps), delete)
            <==> !delete.dbFault && Written(c, steps, delete.key) != [] && !EverDeleted(c, steps, delete.key)
  {
    RunRefines(c, steps);
    var rows := Run(c, steps);
    assert KeyShows(c, rows, delete.key, Written(c, steps, delete.key), EverDeleted(c, steps, delete.key));
    if Find(rows, delete.key).None? && Written(c, steps, delete.key) != [] {
      var k :| 0 <= k < |rows| && rows[k].key == delete.key;
      assert rows[k].deleted;
    }
  }

  /** A rejected call changes nothing, and an accepted one no row of another tenant or name. */
  lemma StepTouchesOneKey(c: Crypto, rows: seq<Row>, step: Step, key: Key)
    ensures !Accepted(c, rows, step) ==> Next(c, rows, step) == rows
    ensures key != step.key && UniqueKeys(rows) ==> ReadResult(c, Next(c, rows, step), key) == ReadResult(c, rows, key)
  {
    if Accepted(c, rows, step) && key != step.key && UniqueKeys(rows) {
      FindElsewhere(rows, Next(c, rows, step), key, 0);
    }
  }

  lemma {:induction false} FindElsewhere(rows: seq<Row>, rows': seq<Row>, key: Key, from: nat)
    requires from <= |rows| <= |rows'| <= |rows| + 1
    requires forall k :: 0 <= k < |rows| ==> rows'[k].key == rows[k].key && (rows[k].key == key ==> rows'[k] == rows[k])
    requires |rows'| > |rows| ==> rows'[|rows|].key != key
    ensures Find(rows', key, from) == Find(rows, key, from)
    decreases |rows| - from
  {
    if from < |rows| {
      FindElsewhere(rows, rows', key, from + 1);
    } else if from < |rows'| {
      assert Find(rows', key, from + 1) == None;
    }
  }

  // ---------------------------------------------------------------------------
  // What List shows
  // ---------------------------------------------------------------------------

  ghost predicate DistinctNames(rows: seq<Row>) {
    forall i, j :: 0 <= i < j < |rows| ==> rows[i].key.name != rows[j].key.name
  }

  ghost predicate InNameOrder(rows: seq<Row>) {
    forall i, j :: 0 <= i < j < |rows| ==>
      rows[i].key.name != rows[j].key.name && LessEq(rows[i].key.name, rows[j].key.name)
  }

  lemma {:induction false} LiveRowsAre(rows: seq<Row>, tenant: string)
    ensures forall row :: row in LiveRows(rows, tenant) <==> row in rows && row.key.tenant == tenant && !row.deleted
  {
    if rows != [] {
      LiveRowsAre(rows[..|rows| - 1], tenant);
      assert rows == rows[..|rows| - 1] + [rows[|rows| - 1]];
    }
  }

  lemma {:induction false} LiveNamesDistinct(rows: seq<Row>, tenant: string)
    requires UniqueKeys(rows)
    ensures DistinctNames(LiveRows(rows, tenant))
  {
    if rows != [] {
      var init, last := rows[..|rows| - 1], rows[|rows| - 1];
      LiveNamesDistinct(init, tenant);
      LiveRowsAre(init, tenant);
      var live := LiveRows(init, tenant);
      forall i | 0 <= i < |live| ensures live[i].key != last.key && live[i].key.tenant == tenant {
        assert live[i] in init;
      }
    }
  }

  lemma {:induction false} PlaceSorts(row: Row, rows: seq<Row>)
    requires InNameOrder(rows) && forall x :: x in rows ==> x.key.name != row.key.name
    ensures InNameOrder(Place(row, rows)) && forall x :: x in Place(row, rows) <==> x == row || x in rows
  {
    if rows == [] {
    } else if LessEq(row.key.name, rows[0].key.name) {
      forall j | 0 <= j < |rows| ensures LessEq(row.key.name, rows[j].key.name) {
        if j > 0 {
          LessEqTransitive(row.key.name, rows[0].key.name, rows[j].key.name);
        }
      }
      assert rows == [rows[0]] + rows[1..];
    } else {
      LessEqTotal(row.key.name, rows[0].key.name);
      assert rows == [rows[0]] + rows[1..];
      PlaceSorts(row, rows[1..]);
      var rest := Place(row, rows[1..]);
      forall j | 0 <= j < |rest|
        ensures rest[j].key.name != rows[0].key.name && LessEq(rows[0].key.name, rest[j].key.name) {
        assert rest[j] == row || rest[j] in rows[1..];
      }
    }
  }

  lemma {:induction false} ByNameSorts(rows: seq<Row>)
    requires DistinctNames(rows)
    ensures InNameOrder(ByName(rows)) && forall x :: x in ByName(rows) <==> x in rows
  {
    if rows != [] {
      var n := |rows| - 1;
      ByNameSorts(rows[..n]);
      assert rows == rows[..n] + [rows[n]];
      PlaceSorts(rows[n], ByName(rows[..n]));
    }
  }

  /**
   Over every run, List shows exactly the names of the tenant that were put and not deleted, each once, in order of
   name, with the number of accepted Puts as its version.
   */
  lemma ListShowsLiveSecrets(c: Crypto, steps: seq<Step>, tenant: string)
    requires Ideal(c) && NoncesFit(c, steps)
    ensures var listed := ByName(LiveRows(Run(c, steps), tenant));
            && InNameOrder(listed)
            && (forall name :: (exists row :: row in listed && row.key == Key(tenant, name))
                               <==> Written(c, steps, Key(tenant, name)) != []
                                    && !EverDeleted(c, steps, Key(tenant, name)))
            && forall row :: row in listed
                 ==> row.key.tenant == tenant && MetaShows(MetaOf(row), row.key, Written(c, steps, row.key))
  {
    var rows := Run(c, steps);
    RunRefines(c, steps);
    LiveRowsAre(rows, tenant);
    LiveNamesDistinct(rows, tenant);
    ByNameSorts(LiveRows(rows, tenant));
    var listed := ByName(LiveRows(rows, tenant));
    forall row | row in listed
      ensures MetaShows(MetaOf(row), row.key, Written(c, steps, row.key)) && !EverDeleted(c, steps, row.key)
    {
      assert KeyShows(c, rows, row.key, Written(c, steps, row.key), EverDeleted(c, steps, row.key));
    }
    forall name | Written(c, steps, Key(tenant, name)) != [] && !EverDeleted(c, steps, Key(tenant, name))
      ensures exists row :: row in listed && row.key == Key(tenant, name)
    {
      var key := Key(tenant, name);
      assert KeyShows(c, rows, key, Written(c, steps, key), EverDeleted(c, steps, key));
      var k :| 0 <= k < |rows| && rows[k].key == key;
      assert rows[k] in listed;
    }
  }
}
