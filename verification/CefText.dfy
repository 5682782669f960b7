/**
 The text of a CEF extension (internal/audit/export.go): `key=value` pairs joined by spaces, the
 values escaped, and a reader for it that knows nothing of the writer.
 */
module CefText {
  import opened Common

  datatype Pair = Pair(key: string, value: string)

  /** The characters that the replacer of escapeCEF rewrites. */
  predicate Special(c: char) {
    c == '\\' || c == '|' || c == '=' || c == '\n' || c == '\r'
  }

  /** What follows the backslash: line breaks are named by a letter. */
  function Code(c: char): char {
    if c == '\n' then 'n' else if c == '\r' then 'r' else c
  }

  function Decode(c: char): char {
    if c == 'n' then '\n' else if c == 'r' then '\r' else c
  }

  /** escapeCEF: the five single-character rules, applied in one pass. */
  function EscapeChar(c: char): string {
    if Special(c) then ['\\', Code(c)] else [c]
  }

  function Escape(s: string): string {
    if s == "" then "" else EscapeChar(s[0]) + Escape(s[1..])
  }

  /** The five rules, and that they apply to each character on its own. */
  lemma {:induction false} EscapeRules(a: string, b: string)
    ensures Escape("\\") == "\\\\" && Escape("|") == "\\|" && Escape("=") == "\\="
    ensures Escape("\n") == "\\n" && Escape("\r") == "\\r"
    ensures forall c :: c !in "\\|=\n\r" ==> Escape([c]) == [c]
    ensures Escape(a + b) == Escape(a) + Escape(b)
    decreases |a|
  {
    if a == "" {
      assert a + b == b;
    } else {
      assert (a + b)[1..] == a[1..] + b;
      EscapeRules(a[1..], b);
    }
  }

  /** One " key=value" per pair; an extension is this without its first space. */
  function Spaced(pairs: seq<Pair>): string {
    if pairs == [] then ""
    else " " + (pairs[0].key + ("=" + (Escape(pairs[0].value) + Spaced(pairs[1..]))))
  }

  function Extension(pairs: seq<Pair>): string
    requires pairs != []
  {
    Spaced(pairs)[1..]
  }

  // ---------------------------------------------------------------------------
  // The reader
  // ---------------------------------------------------------------------------

  /** The index of the first '=' that no backslash escapes, or the length. */
  function FirstEquals(s: string): (e: nat)
    ensures e <= |s| && (e < |s| ==> s[e] == '=')
  {
    if s == "" || s[0] == '=' then 0
    else if s[0] == '\\' && |s| >= 2 then 2 + FirstEquals(s[2..])
    else 1 + FirstEquals(s[1..])
  }

  /** The index of the last space, if there is one. */
  function LastSpace(s: string): (i: Option<nat>)
    ensures i.Some? ==> i.value < |s| && s[i.value] == ' '
  {
    if s == "" then None
    else if s[|s| - 1] == ' ' then Some(|s| - 1)
    else LastSpace(s[..|s| - 1])
  }

  function Unescape(s: string): string {
    if s == "" then ""
    else if s[0] == '\\' && |s| >= 2 then
      [Decode(s[1])] + Unescape(s[2..])
    else [s[0]] + Unescape(s[1..])
  }

  /** Reads an extension: a key runs from the last space before an unescaped '=' to it. */
  function Read(s: string): Option<seq<Pair>> {
    var e := FirstEquals(s);
    if e == |s| then None else ReadValue(s[..e], s[e + 1..])
  }

  /** Reads the value of `key` and the pairs after it. */
  function ReadValue(key: string, s: string): Option<seq<Pair>>
    decreases |s|
  {
    var e := FirstEquals(s);
    if e == |s| then Some([Pair(key, Unescape(s))])
    else
      match LastSpace(s[..e])
      case None => None
      case Some(sp) =>
        match ReadValue(s[sp + 1..e], s[e + 1..])
        case None => None
        case Some(rest) => Some([Pair(key, Unescape(s[..sp]))] + rest)
  }

  // ---------------------------------------------------------------------------
  // The reader undoes the writer
  // ---------------------------------------------------------------------------

  ghost predicate Plain(s: string) {
    '=' !in s && '\\' !in s
  }

  /** No raw line break. */
  ghost predicate OneLine(s: string) {
    '\n' !in s && '\r' !in s
  }

  /** A key has no '=', backslash, space or line break. */
  ghost predicate GoodKey(key: string) {
    Plain(key) && ' ' !in key && OneLine(key)
  }

  ghost predicate GoodKeys(pairs: seq<Pair>) {
    forall i :: 0 <= i < |pairs| ==> GoodKey(pairs[i].key)
  }

  lemma {:induction false} PlainFirstEquals(s: string, t: string)
    requires Plain(s)
    ensures FirstEquals(s + t) == |s| + FirstEquals(t)
  {
    if s == "" {
      assert s + t == t;
    } else {
      assert (s + t)[1..] == s[1..] + t;
      PlainFirstEquals(s[1..], t);
    }
  }

  /** Neither reading function stops inside the image of a character. */
  lemma EscapedCharSteps(c: char, rest: string)
    ensures FirstEquals(EscapeChar(c) + rest) == |EscapeChar(c)| + FirstEquals(rest)
    ensures Unescape(EscapeChar(c) + rest) == [c] + Unescape(rest)
  {
    var s := EscapeChar(c) + rest;
    if Special(c) {
      assert s[0] == '\\' && s[1] == Code(c) && s[2..] == rest;
      assert Decode(Code(c)) == c;
    } else {
      assert s[0] == c && s[1..] == rest;
    }
  }

  lemma {:induction false} EscapedFirstEquals(v: string, t: string)
    ensures FirstEquals(Escape(v) + t) == |Escape(v)| + FirstEquals(t)
  {
    if v == "" {
      assert Escape(v) + t == t;
    } else {
      var rest := Escape(v[1..]) + t;
      assert Escape(v) + t == EscapeChar(v[0]) + rest;
      EscapedCharSteps(v[0], rest);
      EscapedFirstEquals(v[1..], t);
    }
  }

  lemma {:induction false} LastSpaceBeforeKey(s: string, key: string)
    requires ' ' !in key
    ensures LastSpace(s + " " + key) == Some(|s|)
  {
    var t := s + " " + key;
    if key == "" {
      assert t[|t| - 1] == ' ';
    } else {
      var shorter := key[..|key| - 1];
      assert t[..|t| - 1] == s + " " + shorter;
      LastSpaceBeforeKey(s, shorter);
    }
  }

  lemma {:induction false} UnescapeEscape(v: string)
    ensures Unescape(Escape(v)) == v
  {
    if v != "" {
      EscapedCharSteps(v[0], Escape(v[1..]));
      UnescapeEscape(v[1..]);
      assert v == [v[0]] + v[1..];
    }
  }

  /** A value `v` in escaped form, followed by a pair with key `k`. */
  function Followed(v: string, k: string, after: string): string {
    v + " " + k + ("=" + after)
  }

  lemma EqualsFirst(after: string)
    ensures FirstEquals("=" + after) == 0
  {}

  lemma KeyIsPlain(k: string)
    requires GoodKey(k)
    ensures Plain(" " + k)
  {}

  lemma FollowedFirstEquals(value: string, k: string, after: string)
    requires GoodKey(k)
    ensures FirstEquals(Followed(Escape(value), k, after)) == |Escape(value)| + 1 + |k|
  {
    hide Escape, FirstEquals, Plain;
    var v, t := Escape(value), "=" + after;
    EqualsFirst(after);
    KeyIsPlain(k);
    assert Followed(v, k, after) == v + (" " + k + t);
    EscapedFirstEquals(value, " " + k + t);
    PlainFirstEquals(" " + k, t);
    assert " " + k + t == (" " + k) + t;
  }

  lemma FollowedParts(v: string, k: string, after: string)
    ensures var s, e := Followed(v, k, after), |v| + 1 + |k|;
            && e < |s| && s[..e] == v + " " + k && s[..|v|] == v && s[|v| + 1..e] == k && s[e + 1..] == after
  {
  }

  /** Where the reader cuts a value that a further pair follows. */
  lemma ReadValueCuts(key: string, v: string, k: string, after: string)
    requires ' ' !in k && FirstEquals(Followed(v, k, after)) == |v| + 1 + |k|
    ensures ReadValue(key, Followed(v, k, after))
            == match ReadValue(k, after)
               case None => None
               case Some(tail) => Some([Pair(key, Unescape(v))] + tail)
  {
    hide Followed, FirstEquals, LastSpace, Unescape;
    FollowedParts(v, k, after);
    LastSpaceBeforeKey(v, k);
  }

  lemma {:induction false} ReadValueUndoesWriter(key: string, value: string, rest: seq<Pair>)
    requires GoodKeys(rest)
    ensures ReadValue(key, Escape(value) + Spaced(rest)) == Some([Pair(key, value)] + rest)
    decreases rest
  {
    UnescapeEscape(value);
    if rest == [] {
      LastValue(key, value);
      assert Escape(value) + Spaced(rest) == Escape(value);
      assert [Pair(key, value)] + rest == [Pair(key, value)];
    } else {
      var p, v := rest[0], Escape(value);
      var after := Escape(p.value) + Spaced(rest[1..]);
      ReadValueUndoesWriter(p.key, p.value, rest[1..]);
      FollowedFirstEquals(value, p.key, after);
      ReadValueCuts(key, v, p.key, after);
      SpacedFollows(v, rest);
      assert [p] + rest[1..] == rest;
    }
  }

  lemma SpacedFollows(v: string, rest: seq<Pair>)
    requires rest != []
    ensures v + Spaced(rest) == Followed(v, rest[0].key, Escape(rest[0].value) + Spaced(rest[1..]))
  {}

  lemma LastValue(key: string, value: string)
    ensures ReadValue(key, Escape(value)) == Some([Pair(key, value)])
  {
    EscapedFirstEquals(value, "");
    UnescapeEscape(value);
    assert Escape(value) + "" == Escape(value);
  }

  lemma ExtensionParts(pairs: seq<Pair>)
    requires pairs != []
    ensures var after := Escape(pairs[0].value) + Spaced(pairs[1..]);
            Extension(pairs) == pairs[0].key + ("=" + after) && [pairs[0]] + pairs[1..] == pairs
  {
  }

  lemma KeyAndRest(key: string, after: string)
    ensures var s := key + ("=" + after); s[..|key|] == key && s[|key| + 1..] == after && ("=" + after)[0] == '='
  {
  }

  /** Round trip: the reader recovers exactly the pairs that were written, whatever the values hold. */
  lemma ReadUndoesWriter(pairs: seq<Pair>)
    requires pairs != [] && GoodKeys(pairs)
    ensures Read(Extension(pairs)) == Some(pairs)
  {
    var p := pairs[0];
    var after := Escape(p.value) + Spaced(pairs[1..]);
    ExtensionParts(pairs);
    KeyAndRest(p.key, after);
    PlainFirstEquals(p.key, "=" + after);
    assert FirstEquals("=" + after) == 0;
    ReadValueUndoesWriter(p.key, p.value, pairs[1..]);
    hide Extension, Spaced, Escape, ReadValue, FirstEquals;
  }

  lemma {:induction false} EscapeIsOneLine(v: string)
    ensures OneLine(Escape(v))
  {
    if v != "" {
      EscapeIsOneLine(v[1..]);
      assert OneLine(EscapeChar(v[0]));
    }
  }

  /** The extension has no raw line break, whatever the values hold. */
  lemma {:induction false} SpacedIsOneLine(pairs: seq<Pair>)
    requires GoodKeys(pairs)
    ensures OneLine(Spaced(pairs))
  {
    if pairs != [] {
      EscapeIsOneLine(pairs[0].value);
      SpacedIsOneLine(pairs[1..]);
    }
  }

  lemma {:induction false} SpacedAppend(a: seq<Pair>, b: seq<Pair>)
    ensures Spaced(a + b) == Spaced(a) + Spaced(b)
  {
    if a == [] {
      assert a + b == b;
    } else {
      assert (a + b)[1..] == a[1..] + b;
      SpacedAppend(a[1..], b);
    }
  }
}
