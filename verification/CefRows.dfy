/** What a reader of the exported lines can rely on (internal/audit/export.go). */
module CefRows {
  import opened Common
  import opened AsciiStrings
  import opened CefText
  import opened CefExport

  // ---------------------------------------------------------------------------
  // The extension
  // ---------------------------------------------------------------------------

  lemma GoodKeysAppend(a: seq<Pair>, b: seq<Pair>)
    requires GoodKeys(a) && GoodKeys(b)
    ensures GoodKeys(a + b)
  {}

  lemma FieldGoodKeys(key: string, value: string, lbl: Option<string>)
    requires GoodKey(key)
    ensures GoodKeys(Field(key, value, lbl))
  {
    assert GoodKey("Label");
  }

  lemma KeysAreGood()
    ensures GoodKey("rt") && GoodKey("dvchost") && GoodKey("suser") && GoodKey("suid") && GoodKey("src")
    ensures GoodKey("cs1") && GoodKey("cs2") && GoodKey("cs3") && GoodKey("cs4")
    ensures GoodKey("outcome") && GoodKey("cat") && GoodKey("duration") && GoodKey("msg")
  {
    hide GoodKey;
    CustomKeysAreGood();
    WhoKeysAreGood();
    WhatKeysAreGood();
  }

  lemma CustomKeysAreGood()
    ensures GoodKey("cs1") && GoodKey("cs2") && GoodKey("cs3") && GoodKey("cs4") && GoodKey("rt") && GoodKey("src")
  {}

  lemma WhoKeysAreGood()
    ensures GoodKey("dvchost") && GoodKey("suser") && GoodKey("suid") && GoodKey("msg")
  {}

  lemma WhatKeysAreGood()
    ensures GoodKey("outcome") && GoodKey("duration") && GoodKey("cat")
  {}

  lemma ActorGoodKeys(r: Row)
    ensures GoodKeys(Actor(r))
  {
    hide Decimal, GoodKey, Field;
    KeysAreGood();
    FieldGoodKeys("suser", r.ev.userId, None);
    FieldGoodKeys("suid", r.ev.userEmail, None);
    FieldGoodKeys("src", r.ev.actorIp, None);
    FieldGoodKeys("cs1", r.ev.sessionId, Some("session_id"));
  }

  lemma ResourceGoodKeys(r: Row)
    ensures GoodKeys(Resource(r))
  {
    hide GoodKey, Field;
    KeysAreGood();
    FieldGoodKeys("cs2", r.ev.resourceType, Some("resource_type"));
    FieldGoodKeys("cs3", r.ev.resourceId, Some("resource_id"));
    FieldGoodKeys("cs4", r.ev.resourceName, Some("resource_name"));
  }

  lemma OutcomeAndDurationGoodKeys(r: Row)
    ensures GoodKeys([Pair("outcome", r.ev.result)]) && GoodKeys(Duration(r))
  {
    hide Decimal, GoodKey;
    KeysAreGood();
  }

  lemma FieldsGoodKeys(r: Row)
    ensures GoodKeys(Fields(r))
  {
    hide GoodKeys, GoodKey, Actor, Resource, Field, Duration;
    KeysAreGood();
    ActorGoodKeys(r);
    ResourceGoodKeys(r);
    OutcomeAndDurationGoodKeys(r);
    var a, b := [Pair("outcome", r.ev.result)], Field("msg", r.ev.detail, None);
    FieldGoodKeys("msg", r.ev.detail, None);
    GoodKeysAppend(Actor(r), Resource(r));
    GoodKeysAppend(Actor(r) + Resource(r), a);
    GoodKeysAppend(Actor(r) + Resource(r) + a, Duration(r));
    GoodKeysAppend(Actor(r) + Resource(r) + a + Duration(r), b);
  }

  /** The reader recovers the pairs of a row from its extension, which is one line. */
  lemma RowReadsBack(r: Row)
    ensures Read(Extension(Fields(r))) == Some(Fields(r))
    ensures OneLine(Extension(Fields(r)))
  {
    FieldsGoodKeys(r);
    ReadUndoesWriter(Fields(r));
    SpacedIsOneLine(Fields(r));
  }

  function Lookup(pairs: seq<Pair>, key: string): Option<string> {
    if pairs == [] then None
    else if pairs[0].key == key then Some(pairs[0].value)
    else Lookup(pairs[1..], key)
  }

  function OrElse(a: Option<string>, b: Option<string>): Option<string> {
    if a.Some? then a else b
  }

  lemma {:induction false} LookupAppend(a: seq<Pair>, b: seq<Pair>, key: string)
    ensures Lookup(a + b, key) == OrElse(Lookup(a, key), Lookup(b, key))
  {
    if a == [] {
      assert a + b == b;
    } else {
      assert (a + b)[1..] == a[1..] + b;
      LookupAppend(a[1..], b, key);
    }
  }

  function NonEmpty(s: string): Option<string> {
    if s == "" then None else Some(s)
  }

  /** What a row exports under a key, label keys aside. */
  function Exported(r: Row, key: string): Option<string> {
    if key == "rt" then Some(Decimal(UnixMilli(r.ev.timestamp)))
    else if key == "suser" then NonEmpty(r.ev.userId)
    else if key == "suid" then NonEmpty(r.ev.userEmail)
    else if key == "src" then NonEmpty(r.ev.actorIp)
    else if key == "cs1" then NonEmpty(r.ev.sessionId)
    else if key == "cs2" then NonEmpty(r.ev.resourceType)
    else if key == "cs3" then NonEmpty(r.ev.resourceId)
    else if key == "cs4" then NonEmpty(r.ev.resourceName)
    else if key == "outcome" then Some(r.ev.result)
    else if key == "duration" then (if r.ev.durationMs > 0 then Some(Decimal(r.ev.durationMs)) else None)
    else if key == "msg" then NonEmpty(r.ev.detail)
    else None
  }

  const KEYS := {"rt", "suser", "suid", "src", "cs1", "cs2", "cs3", "cs4", "outcome", "duration", "msg"}

  lemma FieldLookup(k: string, key: string, value: string, lbl: Option<string>)
    ensures Lookup(Field(key, value, lbl), k)
         == if k == key then NonEmpty(value) else if k == key + "Label" && value != "" then lbl else None
  {
    if value != "" {
      var p := Pair(key, value);
      match lbl {
        case None =>
          assert [p] + [] == [p];
        case Some(l) =>
          TwoLookup(p, Pair(key + "Label", l), k);
      }
    }
  }

  lemma TwoLookup(p: Pair, q: Pair, k: string)
    ensures Lookup([p] + [q], k) == if k == p.key then Some(p.value) else if k == q.key then Some(q.value) else None
  {
    LookupAppend([p], [q], k);
    assert Lookup([], k) == None;
  }

  lemma NotALabelKey(k: string)
    requires k in KEYS
    ensures k != "cs1" + "Label" && k != "cs2" + "Label" && k != "cs3" + "Label" && k != "cs4" + "Label"
  {
    assert "duration"[0] == 'd';
    assert ("cs1" + "Label")[0] == ("cs2" + "Label")[0] == ("cs3" + "Label")[0] == ("cs4" + "Label")[0] == 'c';
  }

  lemma ActorLookup(r: Row, k: string)
    requires k in KEYS
    ensures Lookup(Actor(r), k) == if k in {"rt", "suser", "suid", "src", "cs1"} then Exported(r, k) else None
  {
    var a, b, c, d := Field("suser", r.ev.userId, None), Field("suid", r.ev.userEmail, None),
      Field("src", r.ev.actorIp, None), Field("cs1", r.ev.sessionId, Some("session_id"));
    NotALabelKey(k);
    FieldLookup(k, "suser", r.ev.userId, None);
    FieldLookup(k, "suid", r.ev.userEmail, None);
    FieldLookup(k, "src", r.ev.actorIp, None);
    FieldLookup(k, "cs1", r.ev.sessionId, Some("session_id"));
    LookupAppend(Start(r), a, k);
    LookupAppend(Start(r) + a, b, k);
    LookupAppend(Start(r) + a + b, c, k);
    LookupAppend(Start(r) + a + b + c, d, k);
    StartLookup(r, k);
  }

  lemma StartLookup(r: Row, k: string)
    requires k in KEYS
    ensures Lookup(Start(r), k) == if k == "rt" then Exported(r, k) else None
  {
    TwoLookup(Pair("rt", Decimal(UnixMilli(r.ev.timestamp))), Pair("dvchost", "orvixpanel"), k);
    assert k != "dvchost" by {
      assert "dvchost"[1] == 'v';
    }
  }

  lemma ResourceLookup(r: Row, k: string)
    requires k in KEYS
    ensures Lookup(Resource(r), k) == if k in {"cs2", "cs3", "cs4"} then Exported(r, k) else None
  {
    var a, b, c := Field("cs2", r.ev.resourceType, Some("resource_type")),
      Field("cs3", r.ev.resourceId, Some("resource_id")), Field("cs4", r.ev.resourceName, Some("resource_name"));
    NotALabelKey(k);
    FieldLookup(k, "cs2", r.ev.resourceType, Some("resource_type"));
    FieldLookup(k, "cs3", r.ev.resourceId, Some("resource_id"));
    FieldLookup(k, "cs4", r.ev.resourceName, Some("resource_name"));
    LookupAppend(a, b, k);
    LookupAppend(a + b, c, k);
  }

  lemma OutcomeLookup(r: Row, k: string)
    ensures Lookup([Pair("outcome", r.ev.result)], k) == if k == "outcome" then Some(r.ev.result) else None
  {
    assert Lookup([], k) == None;
  }

  /** Reading a key off an exported row gives the row's field. */
  lemma FieldsLookup(r: Row, k: string)
    requires k in KEYS
    ensures Lookup(Fields(r), k) == Exported(r, k)
  {
    hide Actor, Resource, Duration, Field, Lookup;
    var outcome := [Pair("outcome", r.ev.result)];
    OutcomeLookup(r, k);
    ActorLookup(r, k);
    ResourceLookup(r, k);
    DurationLookup(r, k);
    FieldLookup(k, "msg", r.ev.detail, None);
    LookupAppend(Actor(r), Resource(r), k);
    LookupAppend(Actor(r) + Resource(r), outcome, k);
    LookupAppend(Actor(r) + Resource(r) + outcome, Duration(r), k);
    LookupAppend(Actor(r) + Resource(r) + outcome + Duration(r), Field("msg", r.ev.detail, None), k);
  }

  lemma DurationLookup(r: Row, k: string)
    requires k in KEYS
    ensures Lookup(Duration(r), k) == if k == "duration" then Exported(r, k) else None
  {
    if r.ev.durationMs > 0 {
      TwoLookup(Pair("cat", "action"), Pair("duration", Decimal(r.ev.durationMs)), k);
      assert k != "cat" by {
        assert "cat"[1] == 'a';
      }
    }
  }

  /** The texts that come with the fields: the host, the category of a timed row, and the labels of custom fields. */
  const FIXED := {"dvchost", "cat", "cs1Label", "cs2Label", "cs3Label", "cs4Label"}

  function Fixed(r: Row, key: string): Option<string> {
    if key == "dvchost" then Some("orvixpanel")
    else if key == "cat" && r.ev.durationMs > 0 then Some("action")
    else if key == "cs1Label" && r.ev.sessionId != "" then Some("session_id")
    else if key == "cs2Label" && r.ev.resourceType != "" then Some("resource_type")
    else if key == "cs3Label" && r.ev.resourceId != "" then Some("resource_id")
    else if key == "cs4Label" && r.ev.resourceName != "" then Some("resource_name")
    else None
  }

  lemma LabelKeys(k: string)
    requires k in FIXED
    ensures k !in KEYS
    ensures "cs1" + "Label" == "cs1Label" && "cs2" + "Label" == "cs2Label"
    ensures "cs3" + "Label" == "cs3Label" && "cs4" + "Label" == "cs4Label"
  {
    assert "dvchost"[1] == 'v' && "duration"[1] == 'u' && "cat"[1] == 'a' && "src"[1] == 'r' && "msg"[1] == 's';
    assert "cs1"[1] == "cs2"[1] == "cs3"[1] == "cs4"[1] == 's';
  }

  lemma ActorFixed(r: Row, k: string)
    requires k in FIXED
    ensures Lookup(Actor(r), k) == if k in {"dvchost", "cs1Label"} then Fixed(r, k) else None
  {
    hide Field, Lookup;
    var a, b, c, d := Field("suser", r.ev.userId, None), Field("suid", r.ev.userEmail, None),
      Field("src", r.ev.actorIp, None), Field("cs1", r.ev.sessionId, Some("session_id"));
    LabelKeys(k);
    FieldLookup(k, "suser", r.ev.userId, None);
    FieldLookup(k, "suid", r.ev.userEmail, None);
    FieldLookup(k, "src", r.ev.actorIp, None);
    FieldLookup(k, "cs1", r.ev.sessionId, Some("session_id"));
    LookupAppend(Start(r), a, k);
    LookupAppend(Start(r) + a, b, k);
    LookupAppend(Start(r) + a + b, c, k);
    LookupAppend(Start(r) + a + b + c, d, k);
    TwoLookup(Pair("rt", Decimal(UnixMilli(r.ev.timestamp))), Pair("dvchost", "orvixpanel"), k);
  }

  lemma ResourceFixed(r: Row, k: string)
    requires k in FIXED
    ensures Lookup(Resource(r), k) == if k in {"cs2Label", "cs3Label", "cs4Label"} then Fixed(r, k) else None
  {
    hide Field, Lookup;
    var a, b, c := Field("cs2", r.ev.resourceType, Some("resource_type")),
      Field("cs3", r.ev.resourceId, Some("resource_id")), Field("cs4", r.ev.resourceName, Some("resource_name"));
    LabelKeys(k);
    FieldLookup(k, "cs2", r.ev.resourceType, Some("resource_type"));
    FieldLookup(k, "cs3", r.ev.resourceId, Some("resource_id"));
    FieldLookup(k, "cs4", r.ev.resourceName, Some("resource_name"));
    LookupAppend(a, b, k);
    LookupAppend(a + b, c, k);
  }

  lemma DurationFixed(r: Row, k: string)
    requires k in FIXED
    ensures Lookup(Duration(r), k) == if k == "cat" then Fixed(r, k) else None
  {
    LabelKeys(k);
    if r.ev.durationMs > 0 {
      TwoLookup(Pair("cat", "action"), Pair("duration", Decimal(r.ev.durationMs)), k);
    }
  }

  /** Each label says what its field is, and is there exactly when the field is. */
  lemma FixedLookup(r: Row, k: string)
    requires k in FIXED
    ensures Lookup(Fields(r), k) == Fixed(r, k)
  {
    hide Actor, Resource, Duration, Field, Lookup;
    var outcome := [Pair("outcome", r.ev.result)];
    LabelKeys(k);
    OutcomeLookup(r, k);
    ActorFixed(r, k);
    ResourceFixed(r, k);
    DurationFixed(r, k);
    FieldLookup(k, "msg", r.ev.detail, None);
    LookupAppend(Actor(r), Resource(r), k);
    LookupAppend(Actor(r) + Resource(r), outcome, k);
    LookupAppend(Actor(r) + Resource(r) + outcome, Duration(r), k);
    LookupAppend(Actor(r) + Resource(r) + outcome + Duration(r), Field("msg", r.ev.detail, None), k);
  }

  /** Two rows agree on everything the export is meant to carry. */
  ghost predicate AgreeOnExported(a: Row, b: Row) {
    && UnixMilli(a.ev.timestamp) == UnixMilli(b.ev.timestamp)
    && a.ev.userId == b.ev.userId && a.ev.userEmail == b.ev.userEmail && a.ev.actorIp == b.ev.actorIp
    && a.ev.sessionId == b.ev.sessionId && a.ev.resourceType == b.ev.resourceType
    && a.ev.resourceId == b.ev.resourceId && a.ev.resourceName == b.ev.resourceName
    && a.ev.result == b.ev.result && a.ev.detail == b.ev.detail
    && (a.ev.durationMs == b.ev.durationMs || (a.ev.durationMs <= 0 && b.ev.durationMs <= 0))
  }

  lemma SameField(a: Row, b: Row, k: string)
    requires Extension(Fields(a)) == Extension(Fields(b)) && k in KEYS
    ensures Exported(a, k) == Exported(b, k)
  {
    RowReadsBack(a);
    RowReadsBack(b);
    FieldsLookup(a, k);
    FieldsLookup(b, k);
  }

  /** Two rows have the same extension exactly when they agree on every exported field. */
  lemma ExtensionDeterminesFields(a: Row, b: Row)
    ensures Extension(Fields(a)) == Extension(Fields(b)) <==> AgreeOnExported(a, b)
  {
    if Extension(Fields(a)) == Extension(Fields(b)) {
      SameExtensionAgrees(a, b);
    }
  }

  lemma SameExtensionAgrees(a: Row, b: Row)
    requires Extension(Fields(a)) == Extension(Fields(b))
    ensures AgreeOnExported(a, b)
  {
    hide Extension, Fields;
    SameField(a, b, "rt");
    DecimalInjective(UnixMilli(a.ev.timestamp), UnixMilli(b.ev.timestamp));
    SameField(a, b, "suser");
    SameField(a, b, "suid");
    SameField(a, b, "src");
    SameField(a, b, "cs1");
    SameField(a, b, "cs2");
    SameField(a, b, "cs3");
    SameField(a, b, "cs4");
    SameField(a, b, "outcome");
    SameField(a, b, "msg");
    SameField(a, b, "duration");
    if a.ev.durationMs > 0 && b.ev.durationMs > 0 {
      DecimalInjective(a.ev.durationMs, b.ev.durationMs);
    }
  }

  // ---------------------------------------------------------------------------
  // The header, which is not escaped
  // ---------------------------------------------------------------------------

  /** What follows the `n`th pipe. */
  function AfterPipes(s: string, n: nat): string {
    if n == 0 then s
    else if s == "" then ""
    else AfterPipes(s[1..], if s[0] == '|' then n - 1 else n)
  }

  function Pipes(s: string): nat {
    if s == "" then 0 else Pipes(s[1..]) + if s[0] == '|' then 1 else 0
  }

  lemma {:induction false} AfterAllPipes(s: string, t: string, n: nat)
    ensures n == Pipes(s) && (s == "" || s[|s| - 1] == '|') ==> AfterPipes(s + t, n) == t
    ensures n < Pipes(s) ==> |AfterPipes(s + t, n)| > |t|
  {
    if s == "" {
      assert s + t == t;
    } else {
      var m := if s[0] == '|' then n - 1 else n;
      assert (s + t)[1..] == s[1..] + t;
      if n > 0 {
        AfterAllPipes(s[1..], t, m);
      } else {
        LastPipe(s);
      }
    }
  }

  lemma {:induction false} LastPipe(s: string)
    requires s != ""
    ensures s[|s| - 1] == '|' ==> Pipes(s) > 0
  {
    if |s| > 1 { LastPipe(s[1..]); }
  }

  lemma {:induction false} PipesAppend(s: string, t: string)
    ensures Pipes(s + t) == Pipes(s) + Pipes(t)
  {
    if s == "" {
      assert s + t == t;
    } else {
      assert (s + t)[1..] == s[1..] + t;
      PipesAppend(s[1..], t);
    }
  }

  lemma {:induction false} PipesIn(s: string)
    ensures Pipes(s) > 0 <==> '|' in s
  {
    if s != "" {
      PipesIn(s[1..]);
      assert s == [s[0]] + s[1..];
    }
  }

  ghost predicate NoneHolds(fields: seq<string>, c: char) {
    forall i :: 0 <= i < |fields| ==> c !in fields[i]
  }

  lemma {:induction false} PipedPipes(fields: seq<string>)
    ensures Pipes(Piped(fields)) >= |fields|
    ensures Pipes(Piped(fields)) == |fields| <==> NoneHolds(fields, '|')
    ensures fields != [] ==> Piped(fields) != "" && Piped(fields)[|Piped(fields)| - 1] == '|'
  {
    if fields != [] {
      var rest := Piped(fields[1..]);
      PipedPipes(fields[1..]);
      PipesIn(fields[0]);
      PipesAppend(fields[0], "|");
      PipesAppend(fields[0] + "|", rest);
      assert Pipes("|") == 1;
      assert NoneHolds(fields, '|') <==> '|' !in fields[0] && NoneHolds(fields[1..], '|');
    }
  }

  lemma UpperKeeps(x: char, c: char)
    requires x != c && (c == '|' || c == '\n' || c == '\r')
    ensures ToUpperChar(x) != c
  {
  }

  /** The action as it stands in the header, in both of its fields. */
  lemma HumanizedHolds(action: string, c: char)
    requires c == '|' || c == '\n' || c == '\r'
    ensures c !in action ==> c !in HumanizeAction(action)
  {
    if action != "" && c !in action {
      UpperKeeps(if action[0] == '.' then ' ' else action[0], c);
      hide ToUpperChar;
      forall i | 0 <= i < |HumanizeAction(action)| ensures HumanizeAction(action)[i] != c {
        assert action[i] != c;
      }
    }
  }

  lemma HeaderHolds(r: Row, vendor: string, product: string, version: string, c: char)
    requires c == '|' || c == '\n' || c == '\r'
    ensures NoneHolds(Header(r, vendor, product, version), c)
            <==> c !in vendor && c !in product && c !in version && c !in r.ev.action
  {
    var h := Header(r, vendor, product, version);
    HumanizedHolds(r.ev.action, c);
    assert c !in CEF_VENDOR && c !in CEF_PRODUCT && c !in CEF_VERSION && c !in h[0] && c !in h[6];
    assert h[1] == OrDefault(vendor, CEF_VENDOR) && h[2] == OrDefault(product, CEF_PRODUCT)
           && h[3] == OrDefault(version, CEF_VERSION) && h[4] == r.ev.action;
  }

  /**
   The header's fields are printed as they are: a reader that skips seven pipes finds the
   extension exactly when none of vendor, product, version and action holds a pipe.
   */
  lemma ExtensionFoundIff(r: Row, vendor: string, product: string, version: string)
    ensures AfterPipes(Line(r, vendor, product, version), 7) == Extension(Fields(r))
            <==> '|' !in vendor && '|' !in product && '|' !in version && '|' !in r.ev.action
  {
    var h := Header(r, vendor, product, version);
    PipedPipes(h);
    HeaderHolds(r, vendor, product, version, '|');
    AfterAllPipes(Piped(h), Extension(Fields(r)), 7);
  }

  function UpToPipe(s: string): string {
    if s == "" || s[0] == '|' then "" else [s[0]] + UpToPipe(s[1..])
  }

  /** The header field that a reader finds after `n` pipes. */
  function FieldAt(s: string, n: nat): string {
    UpToPipe(AfterPipes(s, n))
  }

  lemma {:induction false} FirstField(field: string, rest: string)
    requires '|' !in field
    ensures UpToPipe(field + ("|" + rest)) == field
    ensures forall n :: n > 0 ==> AfterPipes(field + ("|" + rest), n) == AfterPipes(rest, n - 1)
    decreases field
  {
    var s := field + ("|" + rest);
    if field == "" {
      assert s == "|" + rest && s[1..] == rest;
    } else {
      assert s[0] == field[0] && s[1..] == field[1..] + ("|" + rest);
      FirstField(field[1..], rest);
      assert field == [field[0]] + field[1..];
    }
  }

  lemma {:induction false} PipedField(fields: seq<string>, rest: string, k: nat)
    requires NoneHolds(fields, '|') && k < |fields|
    ensures FieldAt(Piped(fields) + rest, k) == fields[k]
  {
    var more := Piped(fields[1..]) + rest;
    assert Piped(fields) + rest == fields[0] + ("|" + more);
    FirstField(fields[0], more);
    if k > 0 {
      assert NoneHolds(fields[1..], '|');
      PipedField(fields[1..], rest, k - 1);
    }
  }

  /** The action in words: dots are spaces, and the first letter is a capital. */
  ghost predicate IsNameOf(name: string, action: string) {
    if action == "" then name == "Unknown action"
    else |name| == |action| && forall i :: 0 <= i < |name| ==>
      var c := if action[i] == '.' then ' ' else action[i];
      name[i] == if i == 0 then ToUpperChar(c) else c
  }

  /**
   What a reader finds in the header when vendor, product, version and action hold no pipe: those four, with the
   defaults for empty ones, the action in words, and a severity that tells failures and successes apart.
   */
  lemma HeaderReadsBack(r: Row, vendor: string, product: string, version: string)
    requires '|' !in vendor && '|' !in product && '|' !in version && '|' !in r.ev.action
    ensures var line := Line(r, vendor, product, version);
            && FieldAt(line, 0) == "CEF:0"
            && (vendor != "" ==> FieldAt(line, 1) == vendor) && (vendor == "" ==> FieldAt(line, 1) == "Orvix")
            && (product != "" ==> FieldAt(line, 2) == product) && (product == "" ==> FieldAt(line, 2) == "Panel")
            && (version != "" ==> FieldAt(line, 3) == version) && (version == "" ==> FieldAt(line, 3) == "0.3.0")
            && FieldAt(line, 4) == r.ev.action && IsNameOf(FieldAt(line, 5), r.ev.action)
            && (r.ev.result == "success" ==> FieldAt(line, 6) == "3")
            && (r.ev.result == "failure" ==> FieldAt(line, 6) == "7")
            && (r.ev.result !in ["success", "failure"] ==> FieldAt(line, 6) == "5")
  {
    var h := Header(r, vendor, product, version);
    HeaderHolds(r, vendor, product, version, '|');
    hide FieldAt, Piped, NoneHolds, Extension, Fields;
    forall k | 0 <= k < 7 ensures FieldAt(Line(r, vendor, product, version), k) == h[k] {
      PipedField(h, Extension(Fields(r)), k);
    }
  }

  lemma {:induction false} PipedHolds(fields: seq<string>, c: char)
    requires c != '|'
    ensures c !in Piped(fields) <==> NoneHolds(fields, c)
  {
    if fields != [] {
      PipedHolds(fields[1..], c);
      assert NoneHolds(fields, c) <==> c !in fields[0] && NoneHolds(fields[1..], c);
    }
  }

  /** A row is one line exactly when no header field brings a newline. */
  lemma LineHasNoNewlineIff(r: Row, vendor: string, product: string, version: string)
    ensures '\n' !in Line(r, vendor, product, version)
            <==> '\n' !in vendor && '\n' !in product && '\n' !in version && '\n' !in r.ev.action
  {
    RowReadsBack(r);
    PipedHolds(Header(r, vendor, product, version), '\n');
    HeaderHolds(r, vendor, product, version, '\n');
  }
}
