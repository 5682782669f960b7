/**
 Following NextOffset through the pages of a search (internal/audit/search.go:44-49, 89-111). Search asks for
 "timestamp DESC" alone, so the database may order rows of one timestamp differently in each call.
 */
module AuditPaging {
  import opened Common
  import opened AuditChain
  import opened AuditSearch

  ghost predicate FixedTotal(order: nat -> seq<Row>, req: Request, total: nat) {
    forall k :: |Select(order(k), req)| == total
  }

  /** Call k of a caller, answered from the table in the order of that call. */
  ghost function Call(order: nat -> seq<Row>, req: Request, limit: nat -> int, k: nat, offset: nat): Response {
    SearchResult(order(k), req.(limit := limit(k), offset := offset))
  }

  lemma CallTakesSlice(order: nat -> seq<Row>, req: Request, limit: nat -> int, k: nat, offset: nat)
    ensures var resp, m := Call(order, req, limit, k, offset), Select(order(k), req);
            && resp.rows == Slice(m, offset, NormalLimit(limit(k)))
            && resp.nextOffset == NextOffset(m, offset, NormalLimit(limit(k)))
  {
    SelectIgnoresPaging(order(k), req, NormalLimit(limit(k)), offset);
  }

  function NextOffset(m: seq<Row>, offset: nat, limit: nat): nat {
    var next := offset + |Slice(m, offset, limit)|;
    if next < |m| then next else 0
  }

  /** A page with a next one moves on. */
  lemma NextOffsetGrows(m: seq<Row>, offset: nat, limit: nat)
    requires limit > 0
    ensures NextOffset(m, offset, limit) != 0 ==> offset < NextOffset(m, offset, limit) < |m|
  {
  }

  /**
   What a caller sees who, from call k on, asks with limit(k), limit(k + 1), ... and follows NextOffset until it is 0.
   It terminates whatever the limits.
   */
  ghost function Visit(order: nat -> seq<Row>, req: Request, limit: nat -> int, total: nat, k: nat, offset: nat)
    : seq<Row>
    requires FixedTotal(order, req, total)
    decreases total - offset
  {
    var resp := Call(order, req, limit, k, offset);
    CallTakesSlice(order, req, limit, k, offset);
    NextOffsetGrows(Select(order(k), req), offset, NormalLimit(limit(k)));
    resp.rows + if resp.nextOffset == 0 then [] else Visit(order, req, limit, total, k + 1, resp.nextOffset)
  }

  /** The same, told by the matching rows alone: m(k) are those of call k in their order. */
  ghost function Walk(m: nat -> seq<Row>, limit: nat -> int, total: nat, k: nat, offset: nat): seq<Row>
    requires forall i :: |m(i)| == total
    decreases total - offset
  {
    var n, next := NormalLimit(limit(k)), NextOffset(m(k), offset, NormalLimit(limit(k)));
    NextOffsetGrows(m(k), offset, n);
    Slice(m(k), offset, n) + if next == 0 then [] else Walk(m, limit, total, k + 1, next)
  }

  ghost function Matching(order: nat -> seq<Row>, req: Request): nat -> seq<Row> {
    (k: nat) => Select(order(k), req)
  }

  lemma {:induction false} VisitWalks(order: nat -> seq<Row>, req: Request, limit: nat -> int, total: nat, k: nat,
                                      offset: nat)
    requires FixedTotal(order, req, total)
    ensures Visit(order, req, limit, total, k, offset) == Walk(Matching(order, req), limit, total, k, offset)
    decreases total - offset
  {
    CallTakesSlice(order, req, limit, k, offset);
    NextOffsetGrows(Select(order(k), req), offset, NormalLimit(limit(k)));
    var next := NextOffset(Select(order(k), req), offset, NormalLimit(limit(k)));
    if next != 0 {
      VisitWalks(order, req, limit, total, k + 1, next);
    }
  }

  lemma SliceThenRest(m: seq<Row>, offset: nat, limit: nat)
    requires offset <= |m| && limit > 0
    ensures var next := NextOffset(m, offset, limit);
            m[offset..] == Slice(m, offset, limit) + if next == 0 then [] else m[next..]
  {
  }

  lemma {:induction false} WalkFromOffset(m: nat -> seq<Row>, limit: nat -> int, rows: seq<Row>, k: nat, offset: nat)
    requires forall i :: |m(i)| == |rows|
    requires forall i :: i >= k ==> m(i) == rows
    requires offset <= |rows|
    ensures Walk(m, limit, |rows|, k, offset) == rows[offset..]
    decreases |rows| - offset
  {
    var n := NormalLimit(limit(k));
    var next := NextOffset(rows, offset, n);
    assert m(k) == rows;
    SliceThenRest(rows, offset, n);
    NextOffsetGrows(rows, offset, n);
    if next != 0 {
      WalkFromOffset(m, limit, rows, k + 1, next);
    }
  }

  /** Under one fixed order, following NextOffset from 0 gives every matching row once and in order, for any limits. */
  lemma PagingVisitsEachRowOnce(order: seq<Row>, req: Request, limit: nat -> int)
    ensures FixedTotal(_ => order, req, |Select(order, req)|)
            && Visit(_ => order, req, limit, |Select(order, req)|, 0, 0) == Select(order, req)
  {
    VisitWalks(_ => order, req, limit, |Select(order, req)|, 0, 0);
    WalkFromOffset(Matching(_ => order, req), limit, Select(order, req), 0, 0);
  }

  // ---------------------------------------------------------------------------
  // When the order may change between calls
  // ---------------------------------------------------------------------------

  ghost predicate Descending(rows: seq<Row>) {
    forall i, j :: 0 <= i < j < |rows| ==> rows[i].ev.timestamp >= rows[j].ev.timestamp
  }

  /** An answer to "ORDER BY timestamp DESC". */
  ghost predicate Orders(log: seq<Row>, order: seq<Row>) {
    multiset(order) == multiset(log) && Descending(order)
  }

  ghost predicate NoTies(rows: seq<Row>) {
    forall x, y :: x in rows && y in rows && x.ev.timestamp == y.ev.timestamp ==> x == y
  }

  lemma {:induction false} SelectCounts(order: seq<Row>, req: Request, row: Row)
    ensures multiset(Select(order, req))[row] == if Selects(req, row) then multiset(order)[row] else 0
  {
    if order != [] {
      SelectCounts(order[1..], req, row);
      assert order == [order[0]] + order[1..];
    }
  }

  lemma SelectOfPermutation(a: seq<Row>, b: seq<Row>, req: Request)
    requires multiset(a) == multiset(b)
    ensures multiset(Select(a, req)) == multiset(Select(b, req))
    ensures |Select(a, req)| == |Select(b, req)|
  {
    forall row ensures multiset(Select(a, req))[row] == multiset(Select(b, req))[row] {
      SelectCounts(a, req, row);
      SelectCounts(b, req, row);
    }
    assert |multiset(Select(a, req))| == |Select(a, req)|;
  }

  /** Descending, with one row before all others of its timestamp. */
  ghost predicate Favours(rows: seq<Row>, first: Row) {
    forall i, j :: 0 <= i < j < |rows| ==> InOrder(rows[i], rows[j], first)
  }

  predicate InOrder(a: Row, b: Row, first: Row) {
    a.ev.timestamp > b.ev.timestamp || (a.ev.timestamp == b.ev.timestamp && (b == first ==> a == first))
  }

  function Insert(row: Row, rows: seq<Row>, first: Row): seq<Row> {
    if rows == [] || InOrder(row, rows[0], first) then [row] + rows
    else [rows[0]] + Insert(row, rows[1..], first)
  }

  function Sort(rows: seq<Row>, first: Row): seq<Row> {
    if rows == [] then [] else Insert(rows[0], Sort(rows[1..], first), first)
  }

  lemma {:induction false} InsertSorts(row: Row, rows: seq<Row>, first: Row)
    requires Favours(rows, first)
    ensures Favours(Insert(row, rows, first), first)
    ensures multiset(Insert(row, rows, first)) == multiset(rows) + multiset{row}
  {
    if rows == [] || InOrder(row, rows[0], first) {
    } else {
      var tail := rows[1..];
      var rest := Insert(row, tail, first);
      InsertSorts(row, tail, first);
      assert rows == [rows[0]] + tail;
      forall j | 0 <= j < |rest| ensures InOrder(rows[0], rest[j], first) {
        assert rest[j] in multiset(rest);
        if rest[j] != row {
          assert rest[j] in tail;
        }
      }
    }
  }

  lemma {:induction false} SortSorts(rows: seq<Row>, first: Row)
    ensures Favours(Sort(rows, first), first) && multiset(Sort(rows, first)) == multiset(rows)
  {
    if rows != [] {
      SortSorts(rows[1..], first);
      InsertSorts(rows[0], Sort(rows[1..], first), first);
      assert rows == [rows[0]] + rows[1..];
    }
  }

  lemma {:induction false} SelectedFrom(order: seq<Row>, req: Request)
    ensures forall i :: 0 <= i < |Select(order, req)| ==> Select(order, req)[i] in order
  {
    if order != [] {
      SelectedFrom(order[1..], req);
    }
  }

  lemma {:induction false} SelectFavours(order: seq<Row>, req: Request, first: Row)
    requires Favours(order, first)
    ensures Favours(Select(order, req), first)
  {
    if order != [] {
      SelectFavours(order[1..], req, first);
      SelectedFrom(order[1..], req);
    }
  }

  lemma {:induction false} SelectDescends(order: seq<Row>, req: Request)
    requires Descending(order)
    ensures Descending(Select(order, req))
  {
    if order != [] {
      SelectDescends(order[1..], req);
      SelectedFrom(order[1..], req);
    }
  }

  lemma HeadsAgree(a: seq<Row>, b: seq<Row>)
    requires a != [] && b != [] && multiset(a) == multiset(b) && Descending(a) && Descending(b) && NoTies(a)
    ensures a[0] == b[0]
  {
    assert a[0] in multiset(b) && b[0] in multiset(a);
    var i :| 0 <= i < |b| && b[i] == a[0];
    var j :| 0 <= j < |a| && a[j] == b[0];
  }

  lemma TailsAgree(a: seq<Row>, b: seq<Row>)
    requires a != [] && b != [] && multiset(a) == multiset(b) && a[0] == b[0]
    ensures multiset(a[1..]) == multiset(b[1..])
  {
    assert a == [a[0]] + a[1..] && b == [b[0]] + b[1..];
    assert multiset(a) == multiset{a[0]} + multiset(a[1..]);
    assert multiset(b) == multiset{a[0]} + multiset(b[1..]);
    assert multiset(a[1..]) == multiset(a) - multiset{a[0]};
    assert multiset(b[1..]) == multiset(b) - multiset{a[0]};
  }

  lemma SameLength(a: seq<Row>, b: seq<Row>)
    requires multiset(a) == multiset(b)
    ensures |a| == |b|
  {
    assert |a| == |multiset(a)| && |b| == |multiset(b)|;
  }

  lemma TailDescends(a: seq<Row>)
    requires a != [] && Descending(a)
    ensures Descending(a[1..])
  {}

  lemma TailNoTies(a: seq<Row>)
    requires a != [] && NoTies(a)
    ensures NoTies(a[1..])
  {}

  /** Without ties there is one descending order. */
  lemma {:induction false} DescendingUnique(a: seq<Row>, b: seq<Row>)
    requires multiset(a) == multiset(b) && Descending(a) && Descending(b) && NoTies(a)
    ensures a == b
  {
    hide Descending, NoTies;
    SameLength(a, b);
    if a != [] {
      HeadsAgree(a, b);
      TailsAgree(a, b);
      TailDescends(a);
      TailDescends(b);
      TailNoTies(a);
      DescendingUnique(a[1..], b[1..]);
      assert a == [a[0]] + a[1..] && b == [b[0]] + b[1..];
    }
  }

  lemma InSorted(log: seq<Row>, req: Request, first: Row, row: Row)
    requires row in Select(log, req)
    ensures row in Select(Sort(log, first), req)
  {
    SortSorts(log, first);
    SelectOfPermutation(Sort(log, first), log, req);
    assert row in multiset(Select(log, req));
    assert row in multiset(Select(Sort(log, first), req));
  }

  lemma OneFavourite(rows: seq<Row>, x: Row, y: Row)
    requires x in rows && y in rows && x != y && x.ev.timestamp == y.ev.timestamp
    ensures !(Favours(rows, x) && Favours(rows, y))
  {
    var p :| 0 <= p < |rows| && rows[p] == x;
    var q :| 0 <= q < |rows| && rows[q] == y;
    if p < q {
      assert !InOrder(rows[p], rows[q], y);
    } else {
      assert !InOrder(rows[q], rows[p], x);
    }
  }

  /** When two matching rows share a timestamp, the matching rows can come in two different orders. */
  lemma TieGivesTwoOrders(log: seq<Row>, req: Request, x: Row, y: Row)
    requires x in Select(log, req) && y in Select(log, req) && x != y && x.ev.timestamp == y.ev.timestamp
    ensures Orders(log, Sort(log, x)) && Orders(log, Sort(log, y))
    ensures Select(Sort(log, x), req) != Select(Sort(log, y), req)
  {
    SortSorts(log, x);
    SortSorts(log, y);
    SelectFavours(Sort(log, x), req, x);
    SelectFavours(Sort(log, y), req, y);
    InSorted(log, req, x, x);
    InSorted(log, req, x, y);
    OneFavourite(Select(Sort(log, x), req), x, y);
  }

  /** Whatever order each call is answered in, the caller sees every matching row exactly once. */
  ghost predicate PagingComplete(log: seq<Row>, req: Request) {
    forall order: nat -> seq<Row>, limit: nat -> int ::
      (forall k :: Orders(log, order(k))) ==> CompleteVisit(log, req, order, limit)
  }

  ghost predicate CompleteVisit(log: seq<Row>, req: Request, order: nat -> seq<Row>, limit: nat -> int)
    requires forall k :: Orders(log, order(k))
  {
    TotalsAgree(log, req, order);
    multiset(Visit(order, req, limit, |Select(log, req)|, 0, 0)) == multiset(Select(log, req))
  }

  lemma TotalsAgree(log: seq<Row>, req: Request, order: nat -> seq<Row>)
    requires forall k :: Orders(log, order(k))
    ensures FixedTotal(order, req, |Select(log, req)|)
  {
    forall k ensures |Select(order(k), req)| == |Select(log, req)| {
      assert Orders(log, order(k));
      SelectOfPermutation(order(k), log, req);
    }
  }

  /** The answers of a database that changes its order once, after call n. */
  ghost function Switch(a: seq<Row>, b: seq<Row>, n: nat): nat -> seq<Row> {
    (k: nat) => if k < n then a else b
  }

  ghost function OneByOne(): nat -> int {
    (k: nat) => 1
  }

  lemma OneOn(m: seq<Row>, k: nat)
    requires k < |m|
    ensures NormalLimit(1) == 1 && Slice(m, k, 1) == [m[k]] && NextOffset(m, k, 1) == if k + 1 == |m| then 0 else k + 1
  {
  }

  lemma WalkOneOn(order: nat -> seq<Row>, m: seq<Row>, k: nat)
    requires (forall i :: |order(i)| == |m|) && k < |m| && order(k) == m
    ensures Walk(order, OneByOne(), |m|, k, k)
        == [m[k]] + if k + 1 == |m| then [] else Walk(order, OneByOne(), |m|, k + 1, k + 1)
  {
    OneOn(m, k);
    hide Slice, NextOffset, NormalLimit;
    assert OneByOne()(k) == 1;
  }

  /** One row at a time from the first order, then the rest from the second. */
  lemma {:induction false} WalkAcrossSwitch(m: seq<Row>, m': seq<Row>, n: nat, k: nat)
    requires |m'| == |m| && k < n <= |m|
    ensures Walk(Switch(m, m', n), OneByOne(), |m|, k, k) == m[k..n] + m'[n..]
    decreases n - k
  {
    var order := Switch(m, m', n);
    WalkOneOn(order, m, k);
    hide Walk;
    if k + 1 < n {
      WalkAcrossSwitch(m, m', n, k + 1);
    } else if n < |m| {
      WalkFromOffset(order, OneByOne(), m', n, n);
    }
    HeadThenRest(m, m', k, n);
  }

  lemma HeadThenRest(m: seq<Row>, m': seq<Row>, k: nat, n: nat)
    requires k < n <= |m| == |m'|
    ensures m[k..n] + m'[n..] == [m[k]] + (m[k + 1..n] + m'[n..])
    ensures k + 1 == n ==> m[k..n] + m'[n..] == [m[k]] + m'[n..]
    ensures n == |m| ==> m'[n..] == []
  {
  }

  lemma {:induction false} WalkDependsOnRows(m: nat -> seq<Row>, n: nat -> seq<Row>, limit: nat -> int, total: nat,
                                             k: nat, offset: nat)
    requires forall i :: |m(i)| == total
    requires forall i :: n(i) == m(i)
    ensures Walk(m, limit, total, k, offset) == Walk(n, limit, total, k, offset)
    decreases total - offset
  {
    NextOffsetGrows(m(k), offset, NormalLimit(limit(k)));
    assert n(k) == m(k);
    var next := NextOffset(m(k), offset, NormalLimit(limit(k)));
    if next != 0 {
      WalkDependsOnRows(m, n, limit, total, k + 1, next);
    }
  }

  lemma {:induction false} FirstDifference(m: seq<Row>, m': seq<Row>) returns (d: nat)
    requires |m| == |m'| && m != m'
    ensures d < |m| && m[..d] == m'[..d] && m[d] != m'[d]
  {
    if m[0] != m'[0] {
      d := 0;
    } else {
      assert m == [m[0]] + m[1..] && m' == [m'[0]] + m'[1..];
      d := FirstDifference(m[1..], m'[1..]);
      d := d + 1;
      assert m[..d] == [m[0]] + m[1..][..d - 1] && m'[..d] == [m'[0]] + m'[1..][..d - 1];
    }
  }

  /** Past the first difference of two orders, a switch from one to the other repeats one row and misses another. */
  lemma SwitchLosesRow(m: seq<Row>, m': seq<Row>, d: nat)
    requires d < |m| == |m'| && m[..d] == m'[..d] && m[d] != m'[d]
    ensures multiset(m[0..d + 1] + m'[d + 1..]) != multiset(m')
  {
    assert m[0..d + 1] == m[..d] + [m[d]];
    assert m' == m[..d] + [m'[d]] + m'[d + 1..];
    var head, rest := multiset(m[..d]), multiset(m'[d + 1..]);
    assert multiset(m[0..d + 1] + m'[d + 1..]) == head + multiset{m[d]} + rest;
    assert multiset(m') == head + multiset{m'[d]} + rest;
    assert (head + multiset{m[d]} + rest)[m[d]] != (head + multiset{m'[d]} + rest)[m[d]];
  }

  lemma NoTiesMakesComplete(log: seq<Row>, req: Request, order: nat -> seq<Row>, limit: nat -> int)
    requires NoTies(Select(log, req)) && forall k :: Orders(log, order(k))
    ensures CompleteVisit(log, req, order, limit)
  {
    var m := Select(order(0), req);
    SelectOfPermutation(order(0), log, req);
    forall k: nat ensures Select(order(k), req) == m {
      SelectOfPermutation(order(k), log, req);
      SelectDescends(order(0), req);
      SelectDescends(order(k), req);
      NoTiesOfPermutation(Select(log, req), m);
      DescendingUnique(m, Select(order(k), req));
    }
    TotalsAgree(log, req, order);
    VisitWalks(order, req, limit, |m|, 0, 0);
    WalkFromOffset(Matching(order, req), limit, m, 0, 0);
  }

  lemma NoTiesOfPermutation(a: seq<Row>, b: seq<Row>)
    requires multiset(a) == multiset(b) && NoTies(a)
    ensures NoTies(b)
  {
    forall x | x in b ensures x in a {
      assert x in multiset(b);
    }
  }

  /** What is seen when the database answers the first n calls in one order and the others in another. */
  lemma VisitAcrossSwitch(log: seq<Row>, req: Request, a: seq<Row>, b: seq<Row>, n: nat)
    requires Orders(log, a) && Orders(log, b) && 0 < n <= |Select(log, req)|
    ensures |Select(a, req)| == |Select(b, req)| == |Select(log, req)|
    ensures FixedTotal(Switch(a, b, n), req, |Select(log, req)|)
    ensures Visit(Switch(a, b, n), req, OneByOne(), |Select(log, req)|, 0, 0)
        == Select(a, req)[0..n] + Select(b, req)[n..]
  {
    SelectOfPermutation(a, log, req);
    SelectOfPermutation(b, log, req);
    var order, total := Switch(a, b, n), |Select(log, req)|;
    assert forall k :: Orders(log, order(k));
    TotalsAgree(log, req, order);
    VisitWalks(order, req, OneByOne(), total, 0, 0);
    WalkDependsOnRows(Matching(order, req), Switch(Select(a, req), Select(b, req), n), OneByOne(), total, 0, 0);
    WalkAcrossSwitch(Select(a, req), Select(b, req), n, 0);
  }

  lemma TieMakesIncomplete(log: seq<Row>, req: Request, x: Row, y: Row)
    requires x in Select(log, req) && y in Select(log, req) && x != y && x.ev.timestamp == y.ev.timestamp
    ensures !PagingComplete(log, req)
  {
    var a, b := Sort(log, x), Sort(log, y);
    TieGivesTwoOrders(log, req, x, y);
    SelectOfPermutation(a, log, req);
    SelectOfPermutation(b, log, req);
    var d := FirstDifference(Select(a, req), Select(b, req));
    SwitchLosesRow(Select(a, req), Select(b, req), d);
    VisitAcrossSwitch(log, req, a, b, d + 1);
    var order := Switch(a, b, d + 1);
    assert forall k :: Orders(log, order(k));
    assert !CompleteVisit(log, req, order, OneByOne());
  }

  /**
   Paging is complete for every choice of limits and every order the database may give to each call exactly when no two
   matching rows share a timestamp.
   */
  lemma PagingCompleteIff(log: seq<Row>, req: Request)
    ensures PagingComplete(log, req) <==> NoTies(Select(log, req))
  {
    if NoTies(Select(log, req)) {
      forall order: nat -> seq<Row>, limit: nat -> int | forall k :: Orders(log, order(k))
        ensures CompleteVisit(log, req, order, limit)
      {
        NoTiesMakesComplete(log, req, order, limit);
      }
    } else {
      var x, y :| x in Select(log, req) && y in Select(log, req) && x.ev.timestamp == y.ev.timestamp && x != y;
      TieMakesIncomplete(log, req, x, y);
    }
  }
}
