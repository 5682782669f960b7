/**
 Search over the audit log and its paging (internal/audit/search.go). The table is given in the order in which the
 database answers; the filter forced on users who are not root is not part of this model.
 */
module AuditSearch {
  import opened Common
  import opened AsciiStrings
  import opened AuditChain

  const DEFAULT_LIMIT := 100
  const MAX_LIMIT := 1000

  datatype Request = Request(
    tenantId: string,
    userId: string,
    action: string,
    result: string,
    resourceType: string,
    since: Option<int>,
    until: Option<int>,
    limit: int,
    offset: int)

  datatype Response = Response(rows: seq<Row>, total: nat, limit: nat, offset: nat, nextOffset: nat, filters: Request)

  // ---------------------------------------------------------------------------
  // LIKE
  // ---------------------------------------------------------------------------

  predicate SameLetter(a: char, b: char) {
    ToLowerChar(a) == ToLowerChar(b)
  }

  /** SQLite's LIKE: '%' stands for any text, '_' for any character, and the case of ASCII letters is ignored. */
  predicate Like(pattern: string, text: string)
    decreases |pattern| + |text|
  {
    if pattern == "" then text == ""
    else if pattern[0] == '%' then Like(pattern[1..], text) || (text != "" && Like(pattern, text[1..]))
    else text != "" && (pattern[0] == '_' || SameLetter(pattern[0], text[0])) && Like(pattern[1..], text[1..])
  }

  // ---------------------------------------------------------------------------
  // The query
  // ---------------------------------------------------------------------------

  datatype Clause =
    | UserLike(pattern: string)
    | UserIs(user: string)
    | ActionLike(pattern: string)
    | ResultIs(result: string)
    | ResourceTypeIs(resourceType: string)
    | NotBefore(time: int)
    | NotAfter(time: int)

  predicate Satisfies(row: Row, c: Clause) {
    match c
    case UserLike(p) => Like(p, row.ev.userId)
    case UserIs(u) => row.ev.userId == u
    case ActionLike(p) => Like(p, row.ev.action)
    case ResultIs(r) => row.ev.result == r
    case ResourceTypeIs(t) => row.ev.resourceType == t
    case NotBefore(t) => row.ev.timestamp >= t
    case NotAfter(t) => row.ev.timestamp <= t
  }

  predicate SatisfiesAll(row: Row, q: seq<Clause>) {
    q == [] || (SatisfiesAll(row, q[..|q| - 1]) && Satisfies(row, q[|q| - 1]))
  }

  function Fetch(order: seq<Row>, q: seq<Clause>): seq<Row> {
    if order == [] then []
    else (if SatisfiesAll(order[0], q) then [order[0]] else []) + Fetch(order[1..], q)
  }

  /** LIMIT and OFFSET. */
  function Slice(rows: seq<Row>, offset: nat, limit: nat): seq<Row> {
    if offset >= |rows| then []
    else if offset + limit >= |rows| then rows[offset..]
    else rows[offset..offset + limit]
  }

  /** What a request asks of a row: every filter that is set holds. */
  predicate Selects(req: Request, row: Row) {
    && (req.tenantId != "" ==> Like("ROOT_" + req.tenantId + "%", row.ev.userId))
    && (req.userId != "" ==> row.ev.userId == req.userId)
    && (req.action != "" ==> Like("%" + req.action + "%", row.ev.action))
    && (req.result != "" ==> row.ev.result == req.result)
    && (req.resourceType != "" ==> row.ev.resourceType == req.resourceType)
    && (req.since.Some? ==> row.ev.timestamp >= req.since.value)
    && (req.until.Some? ==> row.ev.timestamp <= req.until.value)
  }

  function Select(order: seq<Row>, req: Request): seq<Row> {
    if order == [] then []
    else (if Selects(req, order[0]) then [order[0]] else []) + Select(order[1..], req)
  }

  function NormalLimit(limit: int): (n: nat)
    ensures 1 <= n <= MAX_LIMIT
  {
    if limit <= 0 || limit > MAX_LIMIT then DEFAULT_LIMIT else limit
  }

  function NormalOffset(offset: int): nat {
    if offset < 0 then 0 else offset
  }

  /** The request as the response echoes it. */
  function Normal(req: Request): Request {
    req.(limit := NormalLimit(req.limit), offset := NormalOffset(req.offset))
  }

  function Page(matching: seq<Row>, req: Request, limit: nat, offset: nat): Response {
    var rows := Slice(matching, offset, limit);
    Response(rows, |matching|, limit, offset, if offset + |rows| < |matching| then offset + |rows| else 0, req)
  }

  function SearchResult(order: seq<Row>, req: Request): Response {
    Page(Select(order, Normal(req)), Normal(req), NormalLimit(req.limit), NormalOffset(req.offset))
  }

  /** The query asks of a row what the request does. */
  ghost predicate Builds(q: seq<Clause>, req: Request) {
    forall row :: SatisfiesAll(row, q) <==> Selects(req, row)
  }

  lemma {:induction false} FetchSelects(order: seq<Row>, q: seq<Clause>, req: Request)
    requires Builds(q, req)
    ensures Fetch(order, q) == Select(order, req)
  {
    if order != [] {
      FetchSelects(order[1..], q, req);
      assert SatisfiesAll(order[0], q) <==> Selects(req, order[0]);
    }
  }

  lemma {:induction false} SelectIgnoresPaging(order: seq<Row>, req: Request, limit: int, offset: int)
    ensures Select(order, req.(limit := limit, offset := offset)) == Select(order, req)
  {
    if order != [] {
      SelectIgnoresPaging(order[1..], req, limit, offset);
    }
  }

  lemma EmptyQuery()
    ensures forall row :: SatisfiesAll(row, [])
  {
  }

  lemma OneMoreClause(q: seq<Clause>, c: Clause)
    ensures forall row :: SatisfiesAll(row, q + [c]) <==> SatisfiesAll(row, q) && Satisfies(row, c)
  {
    assert (q + [c])[..|q|] == q;
  }

  /** Search: builds the query clause by clause, counts, and fetches one page. None when a statement fails. */
  method Search(order: seq<Row>, request: Request, countFault: bool, findFault: bool) returns (resp: Option<Response>)
    ensures resp == if countFault || findFault then None else Some(SearchResult(order, request))
  {
    var req := request;
    if req.limit <= 0 || req.limit > MAX_LIMIT {
      req := req.(limit := DEFAULT_LIMIT);
    }
    if req.offset < 0 {
      req := req.(offset := 0);
    }
    var q := BuildQuery(req);
    assert req == Normal(request);
    FetchSelects(order, q, req);
    if countFault {
      return None;
    }
    var matching := Fetch(order, q);
    var total := |matching|;
    if findFault {
      return None;
    }
    var rows := Slice(matching, req.offset, req.limit);
    var nextOffset := 0;
    if req.offset + |rows| < total {
      nextOffset := req.offset + |rows|;
    }
    return Some(Response(rows, total, req.limit, req.offset, nextOffset, req));
  }

  /** The narrowing of the query, one clause for each filter that is set. */
  method BuildQuery(req: Request) returns (q: seq<Clause>)
    ensures Builds(q, req)
  {
    hide SatisfiesAll, Like;
    q := [];
    EmptyQuery();
    if req.tenantId != "" {
      OneMoreClause(q, UserLike("ROOT_" + req.tenantId + "%"));
      q := q + [UserLike("ROOT_" + req.tenantId + "%")];
    }
    if req.userId != "" {
      OneMoreClause(q, UserIs(req.userId));
      q := q + [UserIs(req.userId)];
    }
    if req.action != "" {
      OneMoreClause(q, ActionLike("%" + req.action + "%"));
      q := q + [ActionLike("%" + req.action + "%")];
    }
    if req.result != "" {
      OneMoreClause(q, ResultIs(req.result));
      q := q + [ResultIs(req.result)];
    }
    if req.resourceType != "" {
      OneMoreClause(q, ResourceTypeIs(req.resourceType));
      q := q + [ResourceTypeIs(req.resourceType)];
    }
    if req.since.Some? {
      OneMoreClause(q, NotBefore(req.since.value));
      q := q + [NotBefore(req.since.value)];
    }
    if req.until.Some? {
      OneMoreClause(q, NotAfter(req.until.value));
      q := q + [NotAfter(req.until.value)];
    }
  }

  /** The page is the part of the matching rows that offset and limit ask for; the next offset says if more follow. */
  ghost predicate IsPage(resp: Response, matching: seq<Row>) {
    && resp.total == |matching| && |resp.rows| <= resp.limit
    && (forall i :: 0 <= i < |resp.rows| ==> resp.offset + i < |matching| && resp.rows[i] == matching[resp.offset + i])
    && (resp.offset < |matching| && |resp.rows| < resp.limit ==> resp.offset + |resp.rows| == |matching|)
    && (resp.nextOffset != 0 <==> resp.offset + |resp.rows| < |matching|)
    && (resp.nextOffset != 0 ==> resp.nextOffset == resp.offset + |resp.rows|)
  }

  lemma PageIsPage(matching: seq<Row>, req: Request, limit: nat, offset: nat)
    requires limit > 0
    ensures IsPage(Page(matching, req, limit, offset), matching)
  {}

  /**
   What a caller of Search can rely on: the total and one page of all matching rows, for a limit from 1 to 1000 or
   the default of 100 and an offset from 0 on, and the filters as they were asked for.
   */
  lemma SearchGives(order: seq<Row>, request: Request)
    ensures var resp := SearchResult(order, request);
            && IsPage(resp, Select(order, request))
            && resp.limit == (if 1 <= request.limit <= 1000 then request.limit else 100)
            && resp.offset == (if request.offset >= 0 then request.offset else 0)
            && resp.filters == request.(limit := resp.limit, offset := resp.offset)
  {
    hide Select, IsPage, Page;
    SelectIgnoresPaging(order, request, NormalLimit(request.limit), NormalOffset(request.offset));
    PageIsPage(Select(order, request), Normal(request), NormalLimit(request.limit), NormalOffset(request.offset));
    PageEchoes(Select(order, request), Normal(request), NormalLimit(request.limit), NormalOffset(request.offset));
  }

  lemma PageEchoes(matching: seq<Row>, req: Request, limit: nat, offset: nat)
    ensures var resp := Page(matching, req, limit, offset);
            resp.limit == limit && resp.offset == offset && resp.filters == req
  {}

  // ---------------------------------------------------------------------------
  // The action filter
  // ---------------------------------------------------------------------------

  predicate Wildcard(c: char) {
    c == '%' || c == '_'
  }

  predicate HasWildcard(s: string) {
    exists i :: 0 <= i < |s| && Wildcard(s[i])
  }

  predicate PrefixIgnoringCase(part: string, text: string) {
    |part| <= |text| && forall i :: 0 <= i < |part| ==> SameLetter(part[i], text[i])
  }

  predicate ContainsIgnoringCase(text: string, part: string) {
    exists k :: 0 <= k <= |text| && PrefixIgnoringCase(part, text[k..])
  }

  lemma {:induction false} PercentMatchesAll(text: string)
    ensures Like("%", text)
  {
    if text != "" {
      PercentMatchesAll(text[1..]);
    } else {
      assert "%"[1..] == "";
    }
  }

  /** Without a wildcard of its own, a pattern closed by '%' matches the texts it starts. */
  lemma {:induction false} OpenPattern(part: string, text: string)
    requires !HasWildcard(part)
    ensures Like(part + "%", text) <==> PrefixIgnoringCase(part, text)
  {
    var pattern := part + "%";
    if part == "" {
      assert pattern == "%";
      PercentMatchesAll(text);
    } else {
      assert !Wildcard(part[0]) && pattern[0] == part[0] && pattern[1..] == part[1..] + "%";
      assert !HasWildcard(part[1..]) by {
        assert forall i :: 0 <= i < |part[1..]| ==> part[1..][i] == part[i + 1];
      }
      if text != "" {
        OpenPattern(part[1..], text[1..]);
        PrefixTail(part, text);
      }
    }
  }

  lemma PrefixTail(part: string, text: string)
    requires part != "" && text != ""
    ensures PrefixIgnoringCase(part, text) <==> SameLetter(part[0], text[0]) && PrefixIgnoringCase(part[1..], text[1..])
  {
    if SameLetter(part[0], text[0]) && PrefixIgnoringCase(part[1..], text[1..]) {
      forall i | 0 <= i < |part| ensures SameLetter(part[i], text[i]) {
        if i > 0 {
          assert SameLetter(part[1..][i - 1], text[1..][i - 1]);
        }
      }
    }
    if PrefixIgnoringCase(part, text) {
      assert forall i :: 0 <= i < |part[1..]| ==> part[1..][i] == part[i + 1] && text[1..][i] == text[i + 1];
    }
  }

  /** A leading '%' lets the rest match from any place on. */
  lemma {:induction false} LeadingPercent(rest: string, text: string)
    ensures Like("%" + rest, text) <==> exists k :: 0 <= k <= |text| && Like(rest, text[k..])
    decreases |text|
  {
    var pattern := "%" + rest;
    assert pattern[1..] == rest && text[0..] == text;
    if text != "" {
      var tail := text[1..];
      LeadingPercent(rest, tail);
      assert forall k :: 0 <= k <= |tail| ==> tail[k..] == text[k + 1..];
      if Like(pattern, tail) {
        var k :| 0 <= k <= |tail| && Like(rest, tail[k..]);
        assert Like(rest, text[k + 1..]);
      }
      if k :| 0 <= k <= |text| && Like(rest, text[k..]) {
        if k > 0 {
          assert Like(rest, tail[k - 1..]);
        }
      }
    }
  }

  lemma SubstringPattern(part: string, text: string)
    requires !HasWildcard(part)
    ensures Like("%" + part + "%", text) <==> ContainsIgnoringCase(text, part)
  {
    assert "%" + part + "%" == "%" + (part + "%");
    LeadingPercent(part + "%", text);
    forall k | 0 <= k <= |text| {
      OpenPattern(part, text[k..]);
    }
  }

  /** A text that a filter matches by its wildcards alone. */
  function Instance(part: string): (text: string)
    ensures forall i :: 0 <= i < |text| ==> !Wildcard(text[i])
  {
    if part == "" then ""
    else if part[0] == '%' then Instance(part[1..])
    else [if part[0] == '_' then '-' else part[0]] + Instance(part[1..])
  }

  lemma {:induction false} InstanceMatches(part: string)
    ensures Like(part + "%", Instance(part))
  {
    if part == "" {
      assert part + "%" == "%";
      PercentMatchesAll("");
    } else {
      InstanceMatches(part[1..]);
      assert (part + "%")[1..] == part[1..] + "%";
      assert part[0] != '%' ==> Instance(part)[1..] == Instance(part[1..]);
    }
  }

  lemma InstanceIsNoSubstring(action: string)
    requires HasWildcard(action)
    ensures !ContainsIgnoringCase(Instance(action), action)
  {
    var text := Instance(action);
    var i :| 0 <= i < |action| && Wildcard(action[i]);
    forall k | 0 <= k <= |text| ensures !PrefixIgnoringCase(action, text[k..]) {
      if |action| <= |text[k..]| {
        assert !Wildcard(text[k + i]);
        assert !SameLetter(action[i], text[k..][i]);
      }
    }
  }

  lemma InstanceIsMatched(action: string)
    ensures Like("%" + action + "%", Instance(action))
  {
    var text := Instance(action);
    InstanceMatches(action);
    assert text[0..] == text;
    LeadingPercent(action + "%", text);
    assert "%" + action + "%" == "%" + (action + "%");
  }

  /**
   The action filter is documented as a substring match. As Search applies it, it is one (up to the case of letters)
   exactly for filters without a wildcard.
   */
  lemma ActionIsSubstringIff(action: string)
    ensures (forall text :: Like("%" + action + "%", text) <==> ContainsIgnoringCase(text, action))
        <==> !HasWildcard(action)
  {
    if HasWildcard(action) {
      InstanceIsNoSubstring(action);
      InstanceIsMatched(action);
    } else {
      forall text {
        SubstringPattern(action, text);
      }
    }
  }

  function Without(s: string, c: char): (r: string)
    ensures forall i :: 0 <= i < |r| ==> r[i] != c && r[i] in s
  {
    if s == "" then ""
    else (if s[0] == c then "" else [s[0]]) + Without(s[1..], c)
  }

  function SanitizeAction(s: string): string {
    TrimSpace(Without(Without(s, '%'), '_'))
  }

  lemma {:induction false} WithoutIff(s: string, c: char)
    ensures Without(s, c) == s <==> c !in s
  {
    if s != "" {
      WithoutIff(s[1..], c);
      assert s == [s[0]] + s[1..];
      WithoutShortens(s[1..], c);
    }
  }

  lemma {:induction false} WithoutShortens(s: string, c: char)
    ensures |Without(s, c)| <= |s|
  {
    if s != "" {
      WithoutShortens(s[1..], c);
    }
  }

  predicate Trimmed(s: string) {
    s != "" ==> !IsSpace(s[0]) && !IsSpace(s[|s| - 1])
  }

  lemma {:induction false} TrimSpaceTrims(s: string)
    ensures Trimmed(TrimSpace(s)) && |TrimSpace(s)| <= |s|
    ensures forall i :: 0 <= i < |TrimSpace(s)| ==> TrimSpace(s)[i] in s
    ensures TrimSpace(s) == s <==> Trimmed(s)
  {
    if s != "" {
      if IsSpace(s[0]) {
        TrimSpaceTrims(s[1..]);
      } else if IsSpace(s[|s| - 1]) {
        TrimSpaceTrims(s[..|s| - 1]);
      }
    }
  }

  /** A sanitised filter is applied as a substring match, and sanitising changes just the filters that need it. */
  lemma SanitizedIsSubstring(action: string, text: string)
    ensures var part := SanitizeAction(action); Like("%" + part + "%", text) <==> ContainsIgnoringCase(text, part)
    ensures SanitizeAction(action) == action <==> !HasWildcard(action) && Trimmed(action)
  {
    var bare := Without(Without(action, '%'), '_');
    TrimSpaceTrims(bare);
    var part := SanitizeAction(action);
    assert !HasWildcard(part) by {
      forall i | 0 <= i < |part| ensures !Wildcard(part[i]) {
        var j :| 0 <= j < |bare| && bare[j] == part[i];
        assert bare[j] in Without(action, '%');
      }
    }
    SubstringPattern(part, text);
    WithoutIff(action, '%');
    WithoutIff(Without(action, '%'), '_');
    if !HasWildcard(action) {
      assert '%' !in action && '_' !in action;
    }
  }
}
