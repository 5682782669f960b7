/**
 The append-only audit log with SHA-256 hash chaining (internal/audit/audit.go).

 SHA-256 in hex and the JSON marshalling of single values are parameters with stated laws;
 the framing of the hashed bytes, the canonical object and the chain are modelled.
 */
module AuditChain {
  import opened Common
  import CanonicalJson

  /** The zero time.Time. */
  const ZERO_TIME := 0

  datatype Event = Event(
    timestamp: int,
    userId: string,
    userEmail: string,
    userRole: string,
    actorIp: string,
    sessionId: string,
    action: string,
    resourceType: string,
    resourceId: string,
    resourceName: string,
    result: string,
    durationMs: int,
    detail: string)

  /** models.AuditEntry: the event's fields together with the two hashes. `id` orders like the ULID. */
  datatype Row = Row(id: nat, ev: Event, prevHash: string, hash: string)

  /**
   What the chain takes from the standard library: `marshal` gives the event as an object of JSON
   values, or None when json.Marshal fails (a year past 9999); `digest` is hex SHA-256.
   */
  datatype Library = Library(
    marshal: Event -> Option<map<string, string>>,
    quote: string -> string,
    digest: string -> string)

  const NUL: char := '\0'

  ghost predicate CollisionFree(lib: Library) {
    && (forall x, y :: lib.digest(x) == lib.digest(y) ==> x == y)
    && (forall x :: NUL !in lib.digest(x))
  }

  /** The canonical text of an event. */
  ghost function Canon(lib: Library, ev: Event): Option<string> {
    match lib.marshal(ev)
    case None => None
    case Some(m) => Some(CanonicalJson.Canonical(lib.quote, m))
  }

  /** The hash of an event chained to `prev`. */
  ghost function Hash(lib: Library, prev: string, ev: Event): Option<string> {
    match Canon(lib, ev)
    case None => None
    case Some(text) => Some("sha256:" + lib.digest(prev + [NUL] + text))
  }

  method ComputeHash(lib: Library, prev: string, ev: Event) returns (hash: Option<string>)
    ensures hash == Hash(lib, prev, ev)
  {
    var fields := lib.marshal(ev);
    if fields.None? {
      return None;
    }
    var canonical := CanonicalJson.CanonicalJSON(lib.quote, fields.value);
    return Some("sha256:" + lib.digest(prev + [NUL] + canonical));
  }

  // ---------------------------------------------------------------------------
  // Chains
  // ---------------------------------------------------------------------------

  /** The hash that the row at `i` must chain to. */
  function PrevOf(rows: seq<Row>, i: nat): string
    requires i <= |rows|
  {
    if i == 0 then "" else rows[i - 1].hash
  }

  function LastHash(rows: seq<Row>): string {
    PrevOf(rows, |rows|)
  }

  ghost predicate Linked(lib: Library, prev: string, row: Row) {
    row.prevHash == prev && Hash(lib, prev, row.ev) == Some(row.hash)
  }

  ghost predicate LinkedAt(lib: Library, rows: seq<Row>, i: nat)
    requires i < |rows|
  {
    Linked(lib, PrevOf(rows, i), rows[i])
  }

  ghost predicate ValidChain(lib: Library, rows: seq<Row>) {
    forall i :: 0 <= i < |rows| ==> LinkedAt(lib, rows, i)
  }

  /** The separator makes the hashed bytes readable back: neither half can borrow from the other. */
  lemma FramingInjective(prev: string, text: string, prev': string, text': string)
    requires NUL !in prev && NUL !in prev'
    requires prev + [NUL] + text == prev' + [NUL] + text'
    ensures prev == prev' && text == text'
  {
    var s, s' := prev + [NUL] + text, prev' + [NUL] + text';
    assert s[|prev|] == NUL && s'[|prev'|] == NUL;
    assert forall k :: 0 <= k < |prev| ==> s[k] in prev;
    assert forall k :: 0 <= k < |prev'| ==> s'[k] in prev';
    assert |prev| == |prev'|;
    assert prev == s[..|prev|] == s'[..|prev'|] == prev';
    assert text == s[|prev| + 1..] == s'[|prev'| + 1..] == text';
  }

  /** A hash that can stand as a predecessor: the empty start value, or a hash that was computed. */
  ghost predicate Chainable(lib: Library, hash: string) {
    hash == "" || exists x: string :: hash == "sha256:" + lib.digest(x)
  }

  lemma PrefixedEqual(x: string, y: string)
    requires "sha256:" + x == "sha256:" + y
    ensures x == y
  {
    assert x == ("sha256:" + x)[7..] && y == ("sha256:" + y)[7..];
  }

  lemma NoNul(lib: Library, hash: string)
    requires CollisionFree(lib) && Chainable(lib, hash)
    ensures NUL !in hash
  {
    if hash != "" {
      var x: string :| hash == "sha256:" + lib.digest(x);
    }
  }

  lemma HashInjective(lib: Library, prev: string, ev: Event, prev': string, ev': Event)
    requires CollisionFree(lib) && Chainable(lib, prev) && Chainable(lib, prev')
    requires Hash(lib, prev, ev).Some? && Hash(lib, prev, ev) == Hash(lib, prev', ev')
    ensures prev == prev' && Canon(lib, ev) == Canon(lib, ev')
  {
    var text, text' := Canon(lib, ev).value, Canon(lib, ev').value;
    PrefixedEqual(lib.digest(prev + [NUL] + text), lib.digest(prev' + [NUL] + text'));
    NoNul(lib, prev);
    NoNul(lib, prev');
    hide Canon, Chainable;
    FramingInjective(prev, text, prev', text');
  }

  lemma ChainHashes(lib: Library, rows: seq<Row>, i: nat)
    requires ValidChain(lib, rows) && i <= |rows|
    ensures Chainable(lib, PrevOf(rows, i))
    ensures PrevOf(rows, i) == "" <==> i == 0
  {
    if i > 0 {
      assert LinkedAt(lib, rows, i - 1);
    }
  }

  lemma InvalidPrefix(lib: Library, rows: seq<Row>, n: nat)
    requires n <= |rows| && !ValidChain(lib, rows[..n])
    ensures !ValidChain(lib, rows)
  {
    if ValidChain(lib, rows) {
      PrefixValid(lib, rows, n);
    }
  }

  /** Equal hashes at two places of two valid chains mean equal hashes one step before. */
  lemma EqualHashesStepBack(lib: Library, a: seq<Row>, i: nat, b: seq<Row>, j: nat)
    requires CollisionFree(lib) && ValidChain(lib, a) && ValidChain(lib, b)
    requires i < |a| && j < |b| && a[i].hash == b[j].hash
    ensures PrevOf(a, i) == PrevOf(b, j) && a[i].prevHash == b[j].prevHash
    ensures Canon(lib, a[i].ev) == Canon(lib, b[j].ev)
  {
    ChainHashes(lib, a, i);
    ChainHashes(lib, b, j);
    assert LinkedAt(lib, a, i) && LinkedAt(lib, b, j);
    HashInjective(lib, PrevOf(a, i), a[i].ev, PrevOf(b, j), b[j].ev);
  }

  /** Equal content of two rows, as far as the hashed text goes. */
  ghost predicate SameContent(lib: Library, a: Row, b: Row) {
    Canon(lib, a.ev) == Canon(lib, b.ev) && a.prevHash == b.prevHash && a.hash == b.hash
  }

  /**
   The last hash of an accepted log determines its length and, row by row, the hashes and the hashed
   texts. What the texts say of the events is in AuditBinding.
   */
  lemma {:induction false} LastHashBindsLog(lib: Library, a: seq<Row>, b: seq<Row>)
    requires CollisionFree(lib) && ValidChain(lib, a) && ValidChain(lib, b)
    requires LastHash(a) == LastHash(b)
    ensures |a| == |b|
    ensures forall i :: 0 <= i < |a| ==> SameContent(lib, a[i], b[i])
  {
    ChainHashes(lib, a, |a|);
    ChainHashes(lib, b, |b|);
    if |a| > 0 {
      var n, m := |a| - 1, |b| - 1;
      EqualHashesStepBack(lib, a, n, b, m);
      PrefixValid(lib, a, n);
      PrefixValid(lib, b, m);
      LastHashBindsLog(lib, a[..n], b[..m]);
      forall i | 0 <= i < |a| ensures SameContent(lib, a[i], b[i]) {
        if i < n {
          assert a[i] == a[..n][i] && b[i] == b[..m][i];
        }
      }
    }
  }

  lemma PrefixValid(lib: Library, rows: seq<Row>, n: nat)
    requires ValidChain(lib, rows) && n <= |rows|
    ensures ValidChain(lib, rows[..n])
    ensures LastHash(rows[..n]) == PrevOf(rows, n)
  {
    forall i | 0 <= i < n ensures LinkedAt(lib, rows[..n], i) {
      assert LinkedAt(lib, rows, i);
    }
  }

  /** No hash occurs twice in an accepted log. */
  lemma {:induction false} HashesDistinct(lib: Library, rows: seq<Row>, i: nat, j: nat)
    requires CollisionFree(lib) && ValidChain(lib, rows)
    requires i < j < |rows|
    ensures rows[i].hash != rows[j].hash
  {
    if rows[i].hash == rows[j].hash {
      EqualHashesStepBack(lib, rows, i, rows, j);
      ChainHashes(lib, rows, i);
      ChainHashes(lib, rows, j);
      if i > 0 {
        HashesDistinct(lib, rows, i - 1, j - 1);
      }
    }
  }

  lemma PrevOfEarlier(lib: Library, rows: seq<Row>, a: nat, b: nat)
    requires CollisionFree(lib) && ValidChain(lib, rows) && a < b <= |rows|
    ensures PrevOf(rows, a) != PrevOf(rows, b)
  {
    hide Hash, ValidChain, Chainable, CollisionFree;
    ChainHashes(lib, rows, a);
    ChainHashes(lib, rows, b);
    if 0 < a {
      HashesDistinct(lib, rows, a - 1, b - 1);
    }
  }

  /** No two places of an accepted log chain to the same hash, the place after its end included. */
  lemma PrevOfInjective(lib: Library, rows: seq<Row>, a: nat, b: nat)
    requires CollisionFree(lib) && ValidChain(lib, rows) && a <= |rows| && b <= |rows|
    ensures PrevOf(rows, a) == PrevOf(rows, b) <==> a == b
  {
    hide PrevOf, ValidChain, CollisionFree;
    if a < b {
      PrevOfEarlier(lib, rows, a, b);
    } else if b < a {
      PrevOfEarlier(lib, rows, b, a);
    }
  }

  /** The unique index on `hash` never stands in the way of the next row of an accepted log. */
  lemma NextHashIsFresh(lib: Library, rows: seq<Row>, ev: Event)
    requires CollisionFree(lib) && ValidChain(lib, rows) && Hash(lib, LastHash(rows), ev).Some?
    ensures forall r :: r in rows ==> r.hash != Hash(lib, LastHash(rows), ev).value
  {
    var row := Row(0, ev, LastHash(rows), Hash(lib, LastHash(rows), ev).value);
    AppendValid(lib, rows, row);
    forall r | r in rows ensures r.hash != row.hash {
      var i :| 0 <= i < |rows| && rows[i] == r;
      HashesDistinct(lib, rows + [row], i, |rows|);
    }
  }

  /** A row extends an accepted log exactly when it links to the last stored hash. */
  lemma AppendValid(lib: Library, rows: seq<Row>, row: Row)
    ensures ValidChain(lib, rows + [row]) <==> ValidChain(lib, rows) && Linked(lib, LastHash(rows), row)
  {
    var longer := rows + [row];
    forall i | 0 <= i < |rows| ensures PrevOf(longer, i) == PrevOf(rows, i) && longer[i] == rows[i] {}
    assert PrevOf(longer, |rows|) == LastHash(rows) && longer[|rows|] == row;
    assert forall i :: 0 <= i < |rows| ==> LinkedAt(lib, longer, i) == LinkedAt(lib, rows, i);
    if ValidChain(lib, longer) {
      assert LinkedAt(lib, longer, |rows|);
    }
  }
}
