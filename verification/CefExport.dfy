/**
 CEF export of the audit log (internal/audit/export.go): one line per row, a pipe-separated
 header and an extension of escaped pairs.
 */
module CefExport {
  import opened Common
  import opened AsciiStrings
  import opened CefText
  import AuditChain

  type Row = AuditChain.Row

  const CEF_VENDOR := "Orvix"
  const CEF_PRODUCT := "Panel"
  const CEF_VERSION := "0.3.0"

  /** Nanoseconds from the zero time.Time to the Unix epoch. */
  const UNIX_EPOCH := 62_135_596_800 * 1_000_000_000

  /** Time.UnixMilli, which rounds down. */
  function UnixMilli(timestamp: int): int {
    (timestamp - UNIX_EPOCH) / 1_000_000
  }

  // ---------------------------------------------------------------------------
  // Decimal numbers, as %d prints them
  // ---------------------------------------------------------------------------

  const DIGITS := "0123456789"

  function Digits(n: nat): (s: string)
    ensures s != ""
  {
    if n < 10 then [DIGITS[n]] else Digits(n / 10) + [DIGITS[n % 10]]
  }

  function Decimal(n: int): string {
    if n < 0 then "-" + Digits(-n) else Digits(n)
  }

  lemma {:induction false} DigitsInjective(m: nat, n: nat)
    requires Digits(m) == Digits(n)
    ensures m == n
  {
    var a, b := Digits(m), Digits(n);
    assert a[|a| - 1] == DIGITS[m % 10] && b[|b| - 1] == DIGITS[n % 10];
    assert m % 10 == n % 10;
    if m >= 10 && n >= 10 {
      assert a[..|a| - 1] == Digits(m / 10) && b[..|b| - 1] == Digits(n / 10);
      DigitsInjective(m / 10, n / 10);
    }
  }

  lemma {:induction false} DigitsAreDigits(n: nat)
    ensures forall i :: 0 <= i < |Digits(n)| ==> Digits(n)[i] in DIGITS
  {
    if n >= 10 { DigitsAreDigits(n / 10); }
  }

  lemma DecimalSign(n: int)
    ensures Decimal(n) != "" && (Decimal(n)[0] == '-' <==> n < 0)
  {
    DigitsAreDigits(if n < 0 then -n else n);
  }

  lemma DecimalInjective(m: int, n: int)
    requires Decimal(m) == Decimal(n)
    ensures m == n
  {
    DecimalSign(m);
    DecimalSign(n);
    if m < 0 {
      assert Digits(-m) == Decimal(m)[1..] && Digits(-n) == Decimal(n)[1..];
      DigitsInjective(-m, -n);
    } else {
      DigitsInjective(m, n);
    }
  }

  // ---------------------------------------------------------------------------
  // One row
  // ---------------------------------------------------------------------------

  /** The pair of an optional field, with its label pair if the key has one; an empty field is left out. */
  function Field(key: string, value: string, lbl: Option<string>): seq<Pair> {
    if value == "" then []
    else [Pair(key, value)] + match lbl case None => [] case Some(l) => [Pair(key + "Label", l)]
  }

  /** The numbers come first and last but one; a duration of zero or less is left out. */
  function Start(r: Row): seq<Pair> {
    [Pair("rt", Decimal(UnixMilli(r.ev.timestamp)))] + [Pair("dvchost", "orvixpanel")]
  }

  function Duration(r: Row): seq<Pair> {
    if r.ev.durationMs > 0 then [Pair("cat", "action")] + [Pair("duration", Decimal(r.ev.durationMs))] else []
  }

  /** The pairs that a row exports, in order. */
  function Fields(r: Row): seq<Pair> {
    Actor(r) + Resource(r) + [Pair("outcome", r.ev.result)] + Duration(r) + Field("msg", r.ev.detail, None)
  }

  function Actor(r: Row): seq<Pair> {
    Start(r)
    + Field("suser", r.ev.userId, None)
    + Field("suid", r.ev.userEmail, None)
    + Field("src", r.ev.actorIp, None)
    + Field("cs1", r.ev.sessionId, Some("session_id"))
  }

  function Resource(r: Row): seq<Pair> {
    Field("cs2", r.ev.resourceType, Some("resource_type"))
    + Field("cs3", r.ev.resourceId, Some("resource_id"))
    + Field("cs4", r.ev.resourceName, Some("resource_name"))
  }

  /** strings.ReplaceAll(s, ".", " ") and an upper-case first letter. */
  function HumanizeAction(s: string): string {
    if s == "" then "Unknown action"
    else
      var out := seq(|s|, i requires 0 <= i < |s| => if s[i] == '.' then ' ' else s[i]);
      [ToUpperChar(out[0])] + out[1..]
  }

  function SeverityFromResult(result: string): string {
    match result
    case "success" => "3"
    case "failure" => "7"
    case "denied" => "5"
    case _ => "5"
  }

  function OrDefault(s: string, default: string): string {
    if s == "" then default else s
  }

  /** The seven header fields of a line; only the last two are not the caller's or the row's raw text. */
  function Header(r: Row, vendor: string, product: string, version: string): seq<string> {
    ["CEF:0", OrDefault(vendor, CEF_VENDOR), OrDefault(product, CEF_PRODUCT), OrDefault(version, CEF_VERSION),
     r.ev.action, HumanizeAction(r.ev.action), SeverityFromResult(r.ev.result)]
  }

  /** The header fields, each followed by a pipe. */
  function Piped(fields: seq<string>): string {
    if fields == [] then "" else fields[0] + "|" + Piped(fields[1..])
  }

  /** " item" for each item; strings.Join(items, " ") is this without its first space. */
  function SpacedItems(items: seq<string>): string {
    if items == [] then "" else SpacedItems(items[..|items| - 1]) + " " + items[|items| - 1]
  }

  function Join(items: seq<string>): string
    requires items != []
  {
    SpacedItems(items)[1..]
  }

  function Item(key: string, text: string): string {
    key + "=" + text
  }

  lemma SpacedItemsAppend(items: seq<string>, item: string)
    ensures SpacedItems(items + [item]) == SpacedItems(items) + " " + item
  {
    var longer := items + [item];
    assert longer[..|longer| - 1] == items;
  }

  /** The pairs `ps` were appended to the extension as the one item `item`. */
  lemma ItemAppended(items: seq<string>, item: string, pairs: seq<Pair>, ps: seq<Pair>)
    requires SpacedItems(items) == Spaced(pairs) && " " + item == Spaced(ps)
    ensures SpacedItems(items + [item]) == Spaced(pairs + ps)
  {
    SpacedItemsAppend(items, item);
    SpacedAppend(pairs, ps);
    ConcatAssociative(Spaced(pairs), " ", item);
  }

  lemma ConcatAssociative(a: string, b: string, c: string)
    ensures a + b + c == a + (b + c)
  {}

  lemma PairItem(p: Pair)
    ensures " " + Item(p.key, Escape(p.value)) == Spaced([p])
  {
    assert Spaced([p]) == " " + (p.key + ("=" + (Escape(p.value) + Spaced([p][1..]))));
  }

  lemma TwoPairItem(p: Pair, q: Pair)
    ensures " " + (Item(p.key, Escape(p.value)) + " " + Item(q.key, Escape(q.value))) == Spaced([p] + [q])
  {
    PairItem(p);
    PairItem(q);
    SpacedAppend([p], [q]);
    var x, y := Item(p.key, Escape(p.value)), Item(q.key, Escape(q.value));
    assert " " + (x + " " + y) == (" " + x) + (" " + y);
  }

  ghost predicate Unescaped(s: string) {
    forall i :: 0 <= i < |s| ==> !Special(s[i])
  }

  lemma {:induction false} UnescapedStays(s: string)
    requires Unescaped(s)
    ensures Escape(s) == s
  {
    if s != "" {
      UnescapedStays(s[1..]);
      assert s == [s[0]] + s[1..];
    }
  }

  lemma DecimalStays(n: int)
    ensures Escape(Decimal(n)) == Decimal(n)
  {
    DigitsAreDigits(if n < 0 then -n else n);
    UnescapedStays(Decimal(n));
  }

  /** Appends `key=value`, and the label pair, unless the value is empty. */
  method AppendField(items: seq<string>, key: string, value: string, lbl: Option<string>, ghost pairs: seq<Pair>)
    returns (longer: seq<string>)
    requires SpacedItems(items) == Spaced(pairs)
    requires lbl.Some? ==> Unescaped(lbl.value)
    ensures SpacedItems(longer) == Spaced(pairs + Field(key, value, lbl))
    ensures |longer| >= |items|
  {
    if value == "" {
      assert pairs + [] == pairs;
      return items;
    }
    var item := Item(key, Escape(value));
    match lbl {
      case None =>
        PairItem(Pair(key, value));
        assert [Pair(key, value)] + [] == [Pair(key, value)];
      case Some(text) =>
        UnescapedStays(text);
        TwoPairItem(Pair(key, value), Pair(key + "Label", text));
        item := item + " " + Item(key + "Label", text);
    }
    ItemAppended(items, item, pairs, Field(key, value, lbl));
    longer := items + [item];
  }

  method StartItems(r: Row) returns (ext: seq<string>)
    ensures ext != [] && SpacedItems(ext) == Spaced(Start(r))
  {
    var rt, host := Pair("rt", Decimal(UnixMilli(r.ev.timestamp))), Pair("dvchost", "orvixpanel");
    ext := [Item(rt.key, rt.value), Item(host.key, host.value)];
    LabelsUnescaped();
    DecimalStays(UnixMilli(r.ev.timestamp));
    UnescapedStays(host.value);
    TwoItems(rt, host);
  }

  lemma TwoItems(p: Pair, q: Pair)
    ensures SpacedItems([Item(p.key, Escape(p.value)), Item(q.key, Escape(q.value))]) == Spaced([p] + [q])
  {
    var x, y := Item(p.key, Escape(p.value)), Item(q.key, Escape(q.value));
    PairItem(p);
    PairItem(q);
    SpacedItemsAppend([], x);
    ItemAppended([x], y, [p], [q]);
    assert [] + [x] == [x] && [x] + [y] == [x, y];
  }

  method AppendPair(items: seq<string>, p: Pair, ghost pairs: seq<Pair>) returns (longer: seq<string>)
    requires SpacedItems(items) == Spaced(pairs)
    ensures SpacedItems(longer) == Spaced(pairs + [p]) && longer == items + [Item(p.key, Escape(p.value))]
  {
    PairItem(p);
    ItemAppended(items, Item(p.key, Escape(p.value)), pairs, [p]);
    longer := items + [Item(p.key, Escape(p.value))];
  }

  method AppendDuration(items: seq<string>, r: Row, ghost pairs: seq<Pair>) returns (longer: seq<string>)
    requires SpacedItems(items) == Spaced(pairs)
    ensures SpacedItems(longer) == Spaced(pairs + Duration(r)) && |longer| >= |items|
  {
    if r.ev.durationMs <= 0 {
      assert pairs + [] == pairs;
      return items;
    }
    var cat, duration := Pair("cat", "action"), Pair("duration", Decimal(r.ev.durationMs));
    LabelsUnescaped();
    UnescapedStays(cat.value);
    DecimalStays(r.ev.durationMs);
    TwoPairItem(cat, duration);
    var item := Item(cat.key, cat.value) + " " + Item(duration.key, duration.value);
    ItemAppended(items, item, pairs, Duration(r));
    longer := items + [item];
  }

  lemma Associative4<T>(a: seq<T>, b: seq<T>, c: seq<T>, d: seq<T>)
    ensures a + b + c + d == a + (b + c + d)
  {}

  lemma LabelsUnescaped()
    ensures Unescaped("session_id") && Unescaped("resource_type") && Unescaped("resource_id")
            && Unescaped("resource_name")
    ensures Unescaped("orvixpanel") && Unescaped("action")
  {}

  method ActorItems(r: Row) returns (ext: seq<string>)
    ensures ext != [] && SpacedItems(ext) == Spaced(Actor(r))
  {
    LabelsUnescaped();
    ext := StartItems(r);
    ghost var p := Start(r);
    ext := AppendField(ext, "suser", r.ev.userId, None, p);
    p := p + Field("suser", r.ev.userId, None);
    ext := AppendField(ext, "suid", r.ev.userEmail, None, p);
    p := p + Field("suid", r.ev.userEmail, None);
    ext := AppendField(ext, "src", r.ev.actorIp, None, p);
    p := p + Field("src", r.ev.actorIp, None);
    ext := AppendField(ext, "cs1", r.ev.sessionId, Some("session_id"), p);
  }

  method ResourceItems(items: seq<string>, r: Row, ghost p: seq<Pair>) returns (ext: seq<string>)
    requires SpacedItems(items) == Spaced(p)
    ensures |ext| >= |items| && SpacedItems(ext) == Spaced(p + Resource(r))
  {
    LabelsUnescaped();
    ghost var f2 := Field("cs2", r.ev.resourceType, Some("resource_type"));
    ghost var f3 := Field("cs3", r.ev.resourceId, Some("resource_id"));
    ghost var f4 := Field("cs4", r.ev.resourceName, Some("resource_name"));
    ext := AppendField(items, "cs2", r.ev.resourceType, Some("resource_type"), p);
    ext := AppendField(ext, "cs3", r.ev.resourceId, Some("resource_id"), p + f2);
    ext := AppendField(ext, "cs4", r.ev.resourceName, Some("resource_name"), p + f2 + f3);
    Associative4(p, f2, f3, f4);
  }

  /** The items of a row's extension, appended one after the other. */
  method ExtensionItems(r: Row) returns (ext: seq<string>)
    ensures ext != [] && SpacedItems(ext) == Spaced(Fields(r))
  {
    ghost var p := Actor(r);
    ext := ActorItems(r);
    ext := ResourceItems(ext, r, p);
    p := p + Resource(r);
    ext := AppendPair(ext, Pair("outcome", r.ev.result), p);
    p := p + [Pair("outcome", r.ev.result)];
    ext := AppendDuration(ext, r, p);
    p := p + Duration(r);
    ext := AppendField(ext, "msg", r.ev.detail, None, p);
  }

  /** A line: header and extension. */
  function Line(r: Row, vendor: string, product: string, version: string): string {
    Piped(Header(r, vendor, product, version)) + Extension(Fields(r))
  }

  /** FormatCEF: the header's fields and pipes, then the extension. */
  method FormatCEF(r: Row, vendor: string, product: string, version: string) returns (line: string)
    ensures line == Line(r, vendor, product, version)
  {
    var ext := ExtensionItems(r);
    line := Piped(Header(r, vendor, product, version)) + Join(ext);
  }
}
