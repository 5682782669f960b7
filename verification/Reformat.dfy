/**
 The scanner that puts collapsed Go source back on lines (scripts/recover_newlines.py, reformat_go).
 `out` is the Python list of chunks; a chunk may be empty or several characters long.
 */
module Reformat {
  import opened Lexemes
  import opened Relex

  lemma {:induction false} IndentIsLayout(depth: int)
    ensures Layout(Indent(depth))
    decreases depth
  {
    if depth > 0 { IndentIsLayout(depth - 1); }
  }

  lemma IndentIsNoNewline(depth: int)
    ensures Indent(depth) != "\n"
  {
    assert depth > 0 ==> Indent(depth)[0] == ' ';
  }

  /** `chunk in " \t"`: a substring test, which the empty chunk passes and an indent does not. */
  predicate BlankChunk(chunk: string) {
    chunk in ["", " ", "\t", " \t"]
  }

  predicate EndsLine(out: seq<string>) {
    out == [] || out[|out| - 1] == "\n"
  }

  lemma EndedLine(out: seq<string>, depth: int)
    requires EndsLine(out)
    ensures AtLineStart(Concat(out) + Indent(depth), depth)
  {
    if out == [] {
      assert Concat(out) + Indent(depth) == Indent(depth);
    } else {
      assert Concat(out) == Concat(out[..|out| - 1]) + "\n";
    }
  }

  /** newline(): ends the line unless it is ended, and indents. */
  method Newline(out: seq<string>, depth: int) returns (out': seq<string>, ghost w: string)
    ensures Concat(out') == Concat(out) + w && Layout(w)
    ensures AtLineStart(Concat(out'), depth)
    ensures !EndsLine(out) ==> w == "\n" + Indent(depth)
    ensures !EndsLine(out') && out <= out'
  {
    IndentIsLayout(depth);
    IndentIsNoNewline(depth);
    w := (if EndsLine(out) then "" else "\n") + Indent(depth);
    if EndsLine(out) {
      out' := out;
      EndedLine(out, depth);
    } else {
      ConcatAppend(out, "\n");
      out' := out + ["\n"];
    }
    ConcatAppend(out', Indent(depth));
    out' := out' + [Indent(depth)];
  }

  // ---------------------------------------------------------------------------
  // Copying one lexeme
  // ---------------------------------------------------------------------------

  /** What is still to be copied of a literal whose inside goes on at `i` and ends before `end`. */
  ghost function Remaining(src: string, i: nat, end: nat, quote: char): string
    requires i <= end <= |src|
  {
    Inside(quote, src[i..end])
  }

  lemma RemainingEscape(src: string, i: nat, end: nat, quote: char)
    requires i + 2 <= end <= |src| && src[i] == '\\'
    ensures Remaining(src, i, end, quote) == [src[i]] + [src[i + 1]] + Remaining(src, i + 2, end, quote)
  {
    var s := src[i..end];
    assert s[..2] == [src[i]] + [src[i + 1]] && s[2..] == src[i + 2..end];
    assert s == s[..2] + s[2..];
  }

  lemma RemainingPlain(src: string, i: nat, end: nat, quote: char)
    requires i < end <= |src| && (src[i] == '\\' ==> end == i + 1)
    ensures Remaining(src, i, end, quote)
            == [src[i]] + (if src[i] == '\n' && quote == '`' then "\n" else "") + Remaining(src, i + 1, end, quote)
  {
    var s := src[i..end];
    assert s[1..] == src[i + 1..end] && s == [src[i]] + s[1..];
    assert "\n\n" == "\n" + "\n";
  }

  lemma Reassociate(a: string, b: string, c: string, d: string)
    ensures a + b + c + d == a + (b + c + d)
    ensures c == "" ==> a + b + d == a + (b + c + d)
  {
    assert c == "" ==> b + c == b;
  }

  /** The literal from `start` to `end` is copied up to `i`. */
  ghost predicate Copied(src: string, start: nat, i: nat, end: nat, quote: char, before: string, now: string) {
    && start < i <= end <= |src|
    && now + Remaining(src, i, end, quote) == before + [quote] + Remaining(src, start + 1, end, quote)
  }

  lemma CopiedEscape(src: string, start: nat, i: nat, end: nat, quote: char, before: string, now: string)
    requires Copied(src, start, i, end, quote, before, now) && i + 2 <= end && src[i] == '\\'
    ensures Copied(src, start, i + 2, end, quote, before, now + [src[i]] + [src[i + 1]])
  {
    hide Inside;
    RemainingEscape(src, i, end, quote);
    Reassociate(now, [src[i]], [src[i + 1]], Remaining(src, i + 2, end, quote));
  }

  lemma CopiedPlain(src: string, start: nat, i: nat, end: nat, quote: char, before: string, now: string)
    requires Copied(src, start, i, end, quote, before, now) && i < end && (src[i] == '\\' ==> end == i + 1)
    ensures src[i] == '\n' && quote == '`' ==> Copied(src, start, i + 1, end, quote, before, now + [src[i]] + "\n")
    ensures !(src[i] == '\n' && quote == '`') ==> Copied(src, start, i + 1, end, quote, before, now + [src[i]])
  {
    hide Inside;
    RemainingPlain(src, i, end, quote);
    Reassociate(now, [src[i]], if src[i] == '\n' && quote == '`' then "\n" else "", Remaining(src, i + 1, end, quote));
  }

  lemma CopiedAll(src: string, start: nat, end: nat, quote: char, before: string, now: string)
    requires Copied(src, start, end, end, quote, before, now) && src[start] == quote
    ensures now == before + Body(Lexeme(Quoted, src[start..end]))
  {
    assert Remaining(src, end, end, quote) == "";
    var text := src[start..end];
    assert text[0] == quote && text[1..] == src[start + 1..end];
    assert before + [quote] + Remaining(src, start + 1, end, quote) == before + ([quote] + Inside(quote, text[1..]));
  }

  method CopyQuoted(src: string, start: nat, out: seq<string>) returns (i: nat, out': seq<string>)
    requires start < |src| && (src[start] == '"' || src[start] == '`')
    ensures i == QuotedEnd(src, start + 1, src[start])
    ensures Concat(out') == Concat(out) + Body(Lexeme(Quoted, src[start..i]))
    ensures i < |src| ==> !EndsLine(out')
  {
    hide Concat, Body;
    var quote := src[start];
    ghost var end := QuotedEnd(src, start + 1, quote);
    ConcatAppend(out, [quote]);
    out' := out + [[quote]];
    i := start + 1;
    var closed := false;
    while i < |src| && !closed
      invariant start < i <= end <= |src|
      invariant if closed then i == end else QuotedEnd(src, i, quote) == end
      invariant out' != [] && (closed ==> !EndsLine(out'))
      invariant Copied(src, start, i, end, quote, Concat(out), Concat(out'))
      decreases |src| - i, !closed
    {
      hide Copied;
      var c := src[i];
      ghost var now := Concat(out');
      ConcatAppend(out', [c]);
      out' := out' + [[c]];
      if c == '\\' && i + 1 < |src| {
        CopiedEscape(src, start, i, end, quote, Concat(out), now);
        ConcatAppend(out', [src[i + 1]]);
        out' := out' + [[src[i + 1]]];
        i := i + 2;
      } else {
        CopiedPlain(src, start, i, end, quote, Concat(out), now);
        if c == quote {
          closed := true;
        } else if c == '\n' && quote == '`' {
          ConcatAppend(out', "\n");
          out' := out' + ["\n"];
        }
        i := i + 1;
      }
    }
    CopiedAll(src, start, i, quote, Concat(out), Concat(out'));
  }

  lemma CopyMore(src: string, start: nat, i: nat, j: nat, before: string, now: string)
    requires start <= i <= j <= |src| && now == before + src[start..i]
    ensures now + src[i..j] == before + src[start..j]
    ensures j == i + 1 ==> src[i..j] == [src[i]]
  {
    assert src[start..j] == src[start..i] + src[i..j];
  }

  method CopyRune(src: string, start: nat, out: seq<string>) returns (i: nat, out': seq<string>)
    requires start < |src| && src[start] == '\''
    ensures i == RuneEnd(src, start + 1)
    ensures Concat(out') == Concat(out) + src[start..i]
    ensures i < |src| ==> !EndsLine(out')
  {
    hide Concat;
    ghost var end := RuneEnd(src, start + 1);
    ConcatAppend(out, "'");
    out' := out + ["'"];
    i := start + 1;
    while i < |src| && src[i] != '\''
      invariant start < i <= end <= |src|
      invariant RuneEnd(src, i) == end && out' != []
      invariant Concat(out') == Concat(out) + src[start..i]
    {
      if src[i] == '\\' {
        var next := if i + 2 <= |src| then i + 2 else |src|;
        CopyMore(src, start, i, next, Concat(out), Concat(out'));
        ConcatAppend(out', src[i..next]);
        out' := out' + [src[i..next]];
        i := next;
      } else {
        CopyMore(src, start, i, i + 1, Concat(out), Concat(out'));
        ConcatAppend(out', [src[i]]);
        out' := out' + [[src[i]]];
        i := i + 1;
      }
    }
    if i < |src| {
      CopyMore(src, start, i, i + 1, Concat(out), Concat(out'));
      ConcatAppend(out', [src[i]]);
      out' := out' + [[src[i]]];
      i := i + 1;
    }
  }

  method ScanWord(u: Unicode, src: string, start: nat) returns (j: nat)
    requires start < |src|
    ensures j == WordEnd(u, src, start)
  {
    j := start;
    while j < |src| && WordChar(u, src[j])
      invariant start <= j <= |src| && WordEnd(u, src, j) == WordEnd(u, src, start)
    {
      j := j + 1;
    }
  }

  // ---------------------------------------------------------------------------
  // One turn of the scanner's loop
  // ---------------------------------------------------------------------------

  /** The lexeme has no line break promised about it, `last` being the lexeme before it, if any. */
  ghost predicate Unruled(init: seq<Lexeme>, l: Lexeme) {
    && !IsDeclaration(l) && l.kind != LineComment
    && (l.kind == Single ==> l.text !in ["{", "}", ";", "\n"])
    && (l == SPACE ==> Settled(init, " "))
  }

  /** The space after "package" or "import" is taken along with the word. */
  predicate Settled(ls: seq<Lexeme>, rest: string) {
    ls != [] && IsFileWord(ls[|ls| - 1]) ==> !StartsWith(rest, ' ')
  }

  /** While there is input left, newline() adds a newline to anything that is written. */
  predicate LineOpen(src: string, i: nat, out: seq<string>) {
    i < |src| && out != [] ==> !EndsLine(out)
  }

  /** The scanner between two turns: the lexemes before `i` are in the output, and `d` are their depths. */
  ghost predicate Between(u: Unicode, src: string, i: nat, out: seq<string>, d: Depths)
    requires Proper(u)
  {
    && i <= |src| && Done(u, src, i, Before(u, src, i), out) && d == DepthsOf(Before(u, src, i))
    && LineOpen(src, i, out) && Settled(Before(u, src, i), src[i..])
  }

  /** newline() between two lexemes; `shown` is the brace depth it indents by. */
  method BreakLine(u: Unicode, src: string, i: nat, out: seq<string>, d: Depths, shown: int := d.brace)
    returns (out': seq<string>)
    requires Proper(u) && Between(u, src, i, out, d) && i < |src| && LineStartsAt(u, Before(u, src, i), src[i..])
    ensures Between(u, src, i, out', d) && AtLineStart(Concat(out'), shown)
  {
    hide Relayout, Lex, Concat, LineStartsAt;
    ghost var w;
    out', w := Newline(out, shown);
    DoneLayout(u, src, i, Before(u, src, i), out, out', w);
  }

  /** The lexeme at `i` came out, with layout `w` after it. */
  lemma Advance(u: Unicode, src: string, i: nat, out: seq<string>, d: Depths, l: Lexeme, out': seq<string>, w: string)
    requires Proper(u) && Between(u, src, i, out, d) && i < |src| && l == LexemeAt(u, src, i)
    requires Layout(w) && Concat(out') == Concat(out) + Body(l) + w
    requires BrokenBefore(Before(u, src, i), l, Concat(out))
    requires BrokenAfter(Before(u, src, i), l, Concat(out), w, src[EndAt(u, src, i)..])
    requires NoOtherLayout(u, Before(u, src, i), l, w, src[EndAt(u, src, i)..])
    requires LineOpen(src, EndAt(u, src, i), out') && Settled([l], src[EndAt(u, src, i)..])
    ensures i < EndAt(u, src, i) && Between(u, src, EndAt(u, src, i), out', Deepen(d, l))
    ensures Before(u, src, EndAt(u, src, i)) == Before(u, src, i) + [l]
  {
    hide Relayout, Lex, LexemeAt, Before, BrokenBefore, BrokenAfter, NoOtherLayout;
    var ls := Before(u, src, i);
    DoneLexeme(u, src, i, ls, out, out', w);
    DepthsAppend(ls, l);
    BeforeIs(u, src, EndAt(u, src, i), ls + [l]);
  }

  /** The same for a lexeme about which no line break is promised, without layout after it. */
  lemma AdvanceUnruled(u: Unicode, src: string, i: nat, out: seq<string>, d: Depths, l: Lexeme, out': seq<string>)
    requires Proper(u) && Between(u, src, i, out, d) && i < |src| && l == LexemeAt(u, src, i)
    requires Unruled(Before(u, src, i), l) && LineOpen(src, EndAt(u, src, i), out')
    requires Concat(out') == Concat(out) + Body(l)
    ensures i < EndAt(u, src, i) && Between(u, src, EndAt(u, src, i), out', Deepen(d, l))
  {
    hide Relayout, Lex, LexemeAt, Done;
    Unextended(out');
    Advance(u, src, i, out, d, l, out', "");
  }

  /** A punctuation mark is a lexeme of its own. */
  lemma SingleAt(u: Unicode, src: string, i: nat)
    requires Proper(u) && i < |src| && KindAt(u, src, i) == Single
    ensures LexemeAt(u, src, i) == Lexeme(Single, [src[i]]) && EndAt(u, src, i) == i + 1
  {
    assert src[i..i + 1] == [src[i]];
  }

  lemma PunctuationAt(u: Unicode, src: string, i: nat)
    requires Proper(u) && i < |src| && src[i] in "\n{};"
    ensures LexemeAt(u, src, i) == Lexeme(Single, [src[i]]) && EndAt(u, src, i) == i + 1
  {
    SingleAt(u, src, i);
  }

  /** With the lexeme at `i` a line may start. */
  lemma LineStarts(u: Unicode, src: string, i: nat, out: seq<string>, d: Depths)
    requires Proper(u) && Between(u, src, i, out, d) && i < |src|
    requires var l := LexemeAt(u, src, i);
             l == Lexeme(Single, "}") || IsFileWord(l) || (IsDeclaration(l) && d.brace == 0 && d.paren == 0)
    ensures LineStartsAt(u, Before(u, src, i), src[i..])
  {
    hide Done, LexemeAt;
    assert src == src[..i] + src[i..];
    LexemeShift(u, src[..i], src[i..], 0);
  }

  lemma KnownDepths(u: Unicode, src: string, i: nat, out: seq<string>, d: Depths)
    requires Proper(u) && Between(u, src, i, out, d)
    ensures i <= |src| && d == DepthsOf(Before(u, src, i))
    ensures LineOpen(src, i, out) && Settled(Before(u, src, i), src[i..])
  {
    hide Done, DepthsOf, LineOpen, Settled;
  }

  lemma Unextended(out: seq<string>)
    ensures Concat(out) == Concat(out) + "" && Layout("")
  {
  }

  method Comment(u: Unicode, src: string, start: nat, out: seq<string>, d: Depths)
    returns (i: nat, out': seq<string>)
    requires Proper(u) && Between(u, src, start, out, d)
    requires start < |src| && KindAt(u, src, start) in {LineComment, BlockComment}
    ensures start < i && Between(u, src, i, out', d)
  {
    hide Between, Concat;
    ghost var l := LexemeAt(u, src, start);
    EndIsPast(u, src, start);
    i := if At(src, start, '/', '/') then FindNewline(src, start) else BlockEnd(src, start);
    ConcatAppend(out, src[start..i]);
    out' := out + [src[start..i]];
    ghost var w := "";
    assert l.text[0] == '/';
    Unextended(out');
    if At(src, start, '/', '/') && i < |src| {
      out', w := Newline(out', d.brace);
    }
    KnownDepths(u, src, start, out, d);
    Advance(u, src, start, out, d, l, out', w);
  }

  method Literal(u: Unicode, src: string, start: nat, out: seq<string>, d: Depths)
    returns (i: nat, out': seq<string>)
    requires Proper(u) && Between(u, src, start, out, d)
    requires start < |src| && KindAt(u, src, start) in {Quoted, Rune}
    ensures start < i && Between(u, src, i, out', d)
  {
    hide Between, Concat;
    ghost var l := LexemeAt(u, src, start);
    EndIsPast(u, src, start);
    if src[start] == '\'' {
      i, out' := CopyRune(src, start, out);
      assert l.text[0] == '\'';
    } else {
      i, out' := CopyQuoted(src, start, out);
    }
    AdvanceUnruled(u, src, start, out, d, l, out');
  }

  /** Emits the single character at `i`, about which no line break is promised. */
  method EmitSingle(u: Unicode, src: string, i: nat, out: seq<string>, d: Depths)
    returns (out': seq<string>)
    requires Proper(u) && Between(u, src, i, out, d)
    requires i < |src| && KindAt(u, src, i) == Single && src[i] !in "\n{};"
    ensures Between(u, src, i + 1, out', Deepen(d, Lexeme(Single, [src[i]])))
    ensures out' == out + [[src[i]]]
  {
    hide Between, Concat;
    SingleAt(u, src, i);
    ghost var l := Lexeme(Single, [src[i]]);
    ConcatAppend(out, [src[i]]);
    out' := out + [[src[i]]];
    KnownDepths(u, src, i, out, d);
    AdvanceUnruled(u, src, i, out, d, l, out');
  }

  lemma NewlineRules(u: Unicode, init: seq<Lexeme>, before: string, after: string, rest: string)
    requires Proper(u)
    requires before == "" || Begins(after, DepthsOf(init).brace)
    ensures BrokenBefore(init, NEWLINE, before) && BrokenAfter(init, NEWLINE, before, after, rest)
    ensures NoOtherLayout(u, init, NEWLINE, after, rest)
    ensures Deepen(DepthsOf(init), NEWLINE) == DepthsOf(init) && Settled([NEWLINE], rest) && Body(NEWLINE) == ""
  {}

  lemma NothingWritten(out: seq<string>)
    ensures out == [] ==> Concat(out) == ""
  {}

  lemma LineBegins(depth: int)
    ensures Begins("\n" + Indent(depth), depth)
  {}

  /** A newline of the input gives way to newline(). */
  method InputNewline(u: Unicode, src: string, i: nat, out: seq<string>, d: Depths)
    returns (out': seq<string>)
    requires Proper(u) && Between(u, src, i, out, d)
    requires i < |src| && src[i] == '\n'
    ensures Between(u, src, i + 1, out', d)
  {
    hide Concat, Begins, AtLineStart;
    hide Between, BrokenBefore, BrokenAfter, NoOtherLayout, Deepen, Body, Settled, LexemeAt, EndAt, KindAt;
    NothingWritten(out);
    PunctuationAt(u, src, i);
    KnownDepths(u, src, i, out, d);
    ghost var w;
    out', w := Newline(out, d.brace);
    LineBegins(d.brace);
    NewlineRules(u, Before(u, src, i), Concat(out), w, src[i + 1..]);
    assert Concat(out) + Body(NEWLINE) == Concat(out);
    Advance(u, src, i, out, d, NEWLINE, out', w);
  }

  // ---------------------------------------------------------------------------
  // Braces
  // ---------------------------------------------------------------------------

  /** The last chunk that is not blank lets an opening brace stand inline. */
  predicate Inline(out: seq<string>) {
    out != [] &&
    var last := out[|out| - 1];
    if BlankChunk(last) then Inline(out[..|out| - 1]) else last != ")" && last != "\n"
  }

  method StandsInline(out: seq<string>) returns (inline: bool)
    ensures inline == Inline(out)
  {
    var j := |out| - 1;
    assert out[..|out|] == out;
    while j >= 0 && BlankChunk(out[j])
      invariant -1 <= j < |out| && Inline(out[..j + 1]) == Inline(out)
    {
      assert out[..j + 1][..j] == out[..j];
      j := j - 1;
    }
    if j >= 0 {
      assert out[..j + 1][|out[..j + 1]| - 1] == out[j];
    }
    inline := j >= 0 && out[j] != ")" && out[j] != "\n";
  }

  lemma OpenRules(u: Unicode, init: seq<Lexeme>, before: string, after: string, rest: string)
    requires Proper(u) && Begins(after, DepthsOf(init).brace + 1)
    ensures var l := Lexeme(Single, "{");
            && BrokenBefore(init, l, before) && BrokenAfter(init, l, before, after, rest) && Settled([l], rest)
            && NoOtherLayout(u, init, l, after, rest)
            && Deepen(DepthsOf(init), l) == DepthsOf(init).(brace := DepthsOf(init).brace + 1) && Body(l) == "{"
  {}

  method BraceWithLine(u: Unicode, src: string, i: nat, out: seq<string>, d: Depths)
    returns (out': seq<string>, d': Depths)
    requires Proper(u) && Between(u, src, i, out, d)
    requires i < |src| && src[i] == '{'
    ensures Between(u, src, i + 1, out', d') && out + ["{"] <= out'
  {
    hide Between, Concat, BrokenBefore, BrokenAfter, NoOtherLayout, Deepen, Body, Settled, LexemeAt, EndAt, KindAt;
    PunctuationAt(u, src, i);
    ghost var l := Lexeme(Single, "{");
    ConcatAppend(out, "{");
    out' := out + ["{"];
    d' := d.(brace := d.brace + 1);
    ghost var w;
    out', w := Newline(out', d'.brace);
    KnownDepths(u, src, i, out, d);
    OpenRules(u, Before(u, src, i), Concat(out), w, src[i + 1..]);
    Advance(u, src, i, out, d, l, out', w);
  }

  /** The braces of "{}" break no line. */
  lemma EmptyRules(u: Unicode, init: seq<Lexeme>, before: string, rest: string)
    requires Proper(u)
    ensures var open, close := Lexeme(Single, "{"), Lexeme(Single, "}");
            && BrokenBefore(init, open, before) && BrokenAfter(init, open, before, "", "}" + rest)
            && BrokenBefore(init + [open], close, before) && BrokenAfter(init + [open], close, before, "", rest)
            && Deepen(Deepen(DepthsOf(init), open), close) == DepthsOf(init)
            && NoOtherLayout(u, init, open, "", "}" + rest) && NoOtherLayout(u, init + [open], close, "", rest)
            && Settled([open], "}" + rest) && Settled([close], rest) && Body(open) == "{" && Body(close) == "}"
  {
    assert StartsWith("}" + rest, '}');
  }

  method EmptyBraces(u: Unicode, src: string, i: nat, out: seq<string>, d: Depths)
    returns (out': seq<string>)
    requires Proper(u) && Between(u, src, i, out, d)
    requires At(src, i, '{', '}')
    ensures Between(u, src, i + 2, out', d) && out' == out + ["{", "}"]
  {
    hide Between, Concat, BrokenBefore, BrokenAfter, NoOtherLayout, Deepen, Body, Settled, LexemeAt, EndAt, KindAt;
    PunctuationAt(u, src, i);
    PunctuationAt(u, src, i + 1);
    KnownDepths(u, src, i, out, d);
    ghost var ls, rest := Before(u, src, i), src[i + 2..];
    assert src[i + 1..] == "}" + rest;
    ghost var open, close := Lexeme(Single, "{"), Lexeme(Single, "}");
    EmptyRules(u, ls, Concat(out), rest);
    ConcatAppend(out, "{");
    var mid := out + ["{"];
    Unextended(mid);
    Advance(u, src, i, out, d, open, mid, "");
    EmptyRules(u, ls, Concat(mid), rest);
    ConcatAppend(mid, "}");
    out' := mid + ["}"];
    Unextended(out');
    Advance(u, src, i + 1, mid, Deepen(d, open), close, out', "");
  }

  method Blank(u: Unicode, src: string, i: nat, out: seq<string>, d: Depths) returns (out': seq<string>)
    requires Proper(u) && Between(u, src, i, out, d) && i < |src| && src[i] == '{'
    ensures Between(u, src, i, out', d) && out' == out + [" "]
  {
    hide Relayout, Lex, Concat, LineStartsAt;
    ConcatAppend(out, " ");
    out' := out + [" "];
    DoneLayout(u, src, i, Before(u, src, i), out, out', " ");
  }

  method OpenBrace(u: Unicode, src: string, start: nat, out: seq<string>, d: Depths)
    returns (i: nat, out': seq<string>, d': Depths)
    requires Proper(u) && Between(u, src, start, out, d)
    requires start < |src| && src[start] == '{'
    ensures i == (if Inline(out) && At(src, start, '{', '}')
                    then start + 2 else start + 1) && Between(u, src, i, out', d')
    ensures out + (if Inline(out) || EndsLine(out) then [] else [" "]) + ["{"] <= out'
  {
    hide Between, Concat;
    var inline := StandsInline(out);
    if !inline {
      out' := out;
      if !EndsLine(out) {
        out' := Blank(u, src, start, out, d);
      }
      out', d' := BraceWithLine(u, src, start, out', d);
      i := start + 1;
    } else if start + 1 < |src| && src[start + 1] == '}' {
      out' := EmptyBraces(u, src, start, out, d);
      d' := d;
      i := start + 2;
    } else {
      out', d' := BraceWithLine(u, src, start, out, d);
      i := start + 1;
    }
  }

  lemma CloseRules(u: Unicode, init: seq<Lexeme>, before: string, after: string, rest: string)
    requires Proper(u) &&  AtLineStart(before, DepthsOf(init).brace - 1)
    requires DepthsOf(init).brace == 1 ==> Begins(after, 0)
    requires DepthsOf(init).brace != 1 ==> after == ""
    ensures var l := Lexeme(Single, "}");
            && BrokenBefore(init, l, before) && BrokenAfter(init, l, before, after, rest) && Settled([l], rest)
            && NoOtherLayout(u, init, l, after, rest)
            && Deepen(DepthsOf(init), l) == DepthsOf(init).(brace := DepthsOf(init).brace - 1) && Body(l) == "}"
  {}

  method CloseBrace(u: Unicode, src: string, i: nat, out: seq<string>, d: Depths)
    returns (out': seq<string>, d': Depths)
    requires Proper(u) && Between(u, src, i, out, d)
    requires i < |src| && src[i] == '}'
    ensures Between(u, src, i + 1, out', d')
  {
    hide Between, Concat, BrokenBefore, BrokenAfter, NoOtherLayout, Deepen, Body, Settled, LexemeAt, EndAt, KindAt;
    PunctuationAt(u, src, i);
    ghost var l := Lexeme(Single, "}");
    d' := d.(brace := d.brace - 1);
    LineStarts(u, src, i, out, d);
    var broken := BreakLine(u, src, i, out, d, d'.brace);
    ConcatAppend(broken, "}");
    out' := broken + ["}"];
    ghost var w := "";
    Unextended(out');
    if d'.brace == 0 {
      out', w := Newline(out', d'.brace);
    }
    KnownDepths(u, src, i, broken, d);
    CloseRules(u, Before(u, src, i), Concat(broken), w, src[i + 1..]);
    Advance(u, src, i, broken, d, l, out', w);
  }

  method NextVisible(src: string, i: nat) returns (j: nat)
    requires i <= |src|
    ensures i <= j <= |src| && src[j..] == Visible(src[i..])
  {
    j := i;
    while j < |src| && (src[j] == ' ' || src[j] == '\t')
      invariant i <= j <= |src| && Visible(src[j..]) == Visible(src[i..])
    {
      assert src[j..][1..] == src[j + 1..];
      j := j + 1;
    }
  }

  lemma SemicolonRules(u: Unicode, init: seq<Lexeme>, before: string, after: string, rest: string)
    requires Proper(u)
    requires if DepthsOf(init) == Depths(0, 0, 0) && !StartsWith(Visible(rest), ',') then Begins(after, 0)
             else after == ""
    ensures var l := Lexeme(Single, ";");
            && BrokenBefore(init, l, before) && BrokenAfter(init, l, before, after, rest) && Settled([l], rest)
            && NoOtherLayout(u, init, l, after, rest) && Deepen(DepthsOf(init), l) == DepthsOf(init) && Body(l) == ";"
  {}

  method Semicolon(u: Unicode, src: string, i: nat, out: seq<string>, d: Depths)
    returns (out': seq<string>)
    requires Proper(u) && Between(u, src, i, out, d)
    requires i < |src| && src[i] == ';'
    ensures Between(u, src, i + 1, out', d)
  {
    hide Between, Concat, BrokenBefore, BrokenAfter, NoOtherLayout, Deepen, Body, Settled, LexemeAt, EndAt, KindAt;
    PunctuationAt(u, src, i);
    ghost var l := Lexeme(Single, ";");
    ConcatAppend(out, ";");
    out' := out + [";"];
    ghost var w := "";
    Unextended(out');
    if d.brace == 0 && d.paren == 0 && d.bracket == 0 {
      var j := NextVisible(src, i + 1);
      if j >= |src| || src[j] != ',' {
        out', w := Newline(out', d.brace);
      }
    }
    KnownDepths(u, src, i, out, d);
    SemicolonRules(u, Before(u, src, i), Concat(out), w, src[i + 1..]);
    Advance(u, src, i, out, d, l, out', w);
  }

  // ---------------------------------------------------------------------------
  // Words
  // ---------------------------------------------------------------------------

  method EmitWord(u: Unicode, src: string, start: nat, i: nat, out: seq<string>, d: Depths)
    returns (out': seq<string>)
    requires Proper(u) && Between(u, src, start, out, d)
    requires start < |src| && KindAt(u, src, start) == Word && i == EndAt(u, src, start)
    requires BrokenBefore(Before(u, src, start), LexemeAt(u, src, start), Concat(out))
    requires !IsFileWord(LexemeAt(u, src, start))
    ensures start < i && Between(u, src, i, out', d)
    ensures out' == out + [src[start..i]]
  {
    hide Between, Concat;
    ghost var l := LexemeAt(u, src, start);
    EndIsPast(u, src, start);
    ConcatAppend(out, src[start..i]);
    out' := out + [src[start..i]];
    assert l.text[0] != '\n';
    Unextended(out');
    Advance(u, src, start, out, d, l, out', "");
  }

  /** if out and out[-1] != "\n": newline() */
  method StartLine(u: Unicode, src: string, i: nat, out: seq<string>, d: Depths)
    returns (out': seq<string>)
    requires Proper(u) && Between(u, src, i, out, d) && i < |src| && LineStartsAt(u, Before(u, src, i), src[i..])
    ensures Between(u, src, i, out', d)
    ensures Concat(out') == "" || AtLineStart(Concat(out'), d.brace)
  {
    hide Between;
    if EndsLine(out) {
      out' := out;
      KnownDepths(u, src, i, out, d);
      assert Concat(out) == "";
    } else {
      out' := BreakLine(u, src, i, out, d);
    }
  }

  lemma FileWordSpaced(u: Unicode, init: seq<Lexeme>, l: Lexeme, before: string, rest: string)
    requires Proper(u) && IsFileWord(l)
    ensures BrokenAfter(init, l, before, "", " " + rest) && NoOtherLayout(u, init, l, "", " " + rest)
    ensures Body(l) == l.text && Deepen(DepthsOf(init), l) == DepthsOf(init)
  {
    assert (" " + rest)[0] == ' ';
  }

  lemma SpaceRules(u: Unicode, init: seq<Lexeme>, before: string, after: string, rest: string)
    requires Proper(u) && Begins(after, DepthsOf(init).brace) && init != [] && IsFileWord(init[|init| - 1])
    ensures BrokenBefore(init, SPACE, before) && BrokenAfter(init, SPACE, before, after, rest)
    ensures NoOtherLayout(u, init, SPACE, after, rest) && Body(SPACE) == " "
    ensures Deepen(DepthsOf(init), SPACE) == DepthsOf(init)
  {
    hide DepthsOf, Begins, LineStartsAt, Deepen;
    SpaceIsNeutral(DepthsOf(init));
    assert SPACE.text[0] == ' ';
    assert "{"[0] == '{' && "}"[0] == '}' && ";"[0] == ';' && "\n"[0] == '\n';
  }

  lemma SpaceIsNeutral(d: Depths)
    ensures Deepen(d, SPACE) == d
  {
    assert SPACE.text[0] == ' ';
    assert "{"[0] == '{' && "}"[0] == '}' && "("[0] == '(' && ")"[0] == ')' && "["[0] == '[' && "]"[0] == ']';
  }

  /** "package" or "import" came out and the space after it, with layout `w` after them. */
  lemma AdvanceClause(u: Unicode, src: string, i: nat, out: seq<string>, d: Depths, l: Lexeme, out': seq<string>,
                      w: string)
    requires Proper(u) && Between(u, src, i, out, d) && i < |src| && l == LexemeAt(u, src, i) && IsFileWord(l)
    requires var j := EndAt(u, src, i); j < |src| && src[j] == ' '
    requires BrokenBefore(Before(u, src, i), l, Concat(out))
    requires Begins(w, d.brace) && Layout(w) && Concat(out') == Concat(out) + l.text + " " + w && !EndsLine(out')
    ensures i <= EndAt(u, src, i) && Between(u, src, EndAt(u, src, i) + 1, out', d)
  {
    hide Relayout, Lex, Before, BrokenBefore, BrokenAfter, NoOtherLayout, Deepen, Body, Begins, Concat;
    var j, ls := EndAt(u, src, i), Before(u, src, i);
    var mid := out + [l.text];
    ConcatAppend(out, l.text);
    FileWordSpaced(u, ls, l, Concat(out), src[j + 1..]);
    assert src[j..] == " " + src[j + 1..];
    assert Concat(out) + l.text + "" == Concat(mid);
    DoneLexeme(u, src, i, ls, out, mid, "");
    DepthsAppend(ls, l);
    SingleAt(u, src, j);
    SpaceRules(u, ls + [l], Concat(mid), w, src[j + 1..]);
    DoneLexeme(u, src, j, ls + [l], mid, out', w);
    DepthsAppend(ls + [l], SPACE);
    BeforeIs(u, src, j + 1, ls + [l] + [SPACE]);
  }

  lemma FileWordStarts(init: seq<Lexeme>, l: Lexeme, before: string)
    requires IsFileWord(l) && (before == "" || AtLineStart(before, DepthsOf(init).brace))
    ensures BrokenBefore(init, l, before)
  {
    assert before == "" ==> AtLineStart(before, 0);
  }

  lemma FileWordRules(u: Unicode, init: seq<Lexeme>, l: Lexeme, before: string, after: string, rest: string)
    requires Proper(u) && IsFileWord(l) && Begins(after, DepthsOf(init).brace) && !StartsWith(rest, ' ')
    ensures BrokenAfter(init, l, before, after, rest) && NoOtherLayout(u, init, l, after, rest)
    ensures Body(l) == l.text && Deepen(DepthsOf(init), l) == DepthsOf(init) && Settled([l], rest)
  {}

  /** package and import: the rest of the clause starts a line of its own. */
  method FileClause(u: Unicode, src: string, start: nat, end: nat, out: seq<string>, d: Depths)
    returns (i: nat, out': seq<string>)
    requires Proper(u) && Between(u, src, start, out, d)
    requires start < |src| && KindAt(u, src, start) == Word && end == EndAt(u, src, start)
    requires src[start..end] in ["package", "import"]
    ensures start < i && Between(u, src, i, out', d)
  {
    hide Between, Concat, Begins, AtLineStart, BrokenBefore, BrokenAfter, NoOtherLayout, Deepen, Body, EndAt, KindAt;
    EndIsPast(u, src, start);
    ghost var l := LexemeAt(u, src, start);
    LineStarts(u, src, start, out, d);
    out' := StartLine(u, src, start, out, d);
    ghost var before := out';
    KnownDepths(u, src, start, before, d);
    FileWordStarts(Before(u, src, start), l, Concat(before));
    ConcatAppend(out', src[start..end]);
    out' := out' + [src[start..end]];
    i := end;
    if i < |src| && src[i] == ' ' {
      ConcatAppend(out', " ");
      out' := out' + [" "];
      i := i + 1;
    }
    ghost var w;
    out', w := Newline(out', d.brace);
    LineBegins(d.brace);
    if i == end {
      FileWordRules(u, Before(u, src, start), l, Concat(before), w, src[end..]);
      Advance(u, src, start, before, d, l, out', w);
    } else {
      AdvanceClause(u, src, start, before, d, l, out', w);
    }
  }

  method TakeWord(u: Unicode, src: string, start: nat, out: seq<string>, d: Depths)
    returns (i: nat, out': seq<string>)
    requires Proper(u) && Between(u, src, start, out, d)
    requires start < |src| && KindAt(u, src, start) == Word
    ensures start < i && Between(u, src, i, out', d)
  {
    hide Between;
    i := ScanWord(u, src, start);
    var word := src[start..i];
    if word in ["package", "import"] {
      i, out' := FileClause(u, src, start, i, out, d);
    } else {
      out' := out;
      if word in ["func", "type", "var", "const"] && d.brace == 0 && d.paren == 0 {
        EndIsPast(u, src, start);
        LineStarts(u, src, start, out, d);
        out' := StartLine(u, src, start, out, d);
      }
      KnownDepths(u, src, start, out', d);
      out' := EmitWord(u, src, start, i, out', d);
    }
  }

  // ---------------------------------------------------------------------------
  // The scanner
  // ---------------------------------------------------------------------------

  /** Blanks, parentheses, brackets, commas, numbers and operators come out as they are. */
  method PassOn(u: Unicode, src: string, i: nat, out: seq<string>, d: Depths) returns (out': seq<string>, d': Depths)
    requires Proper(u) && Between(u, src, i, out, d)
    requires i < |src| && KindAt(u, src, i) == Single && src[i] !in "\n{};"
    ensures Between(u, src, i + 1, out', d') && out' == out + [[src[i]]]
  {
    hide Between;
    var ch := src[i];
    out' := EmitSingle(u, src, i, out, d);
    d' := d;
    if ch == '(' {
      d' := d.(paren := d.paren + 1);
    } else if ch == ')' {
      d' := d.(paren := d.paren - 1);
    } else if ch == '[' {
      d' := d.(bracket := d.bracket + 1);
    } else if ch == ']' {
      d' := d.(bracket := d.bracket - 1);
    }
  }

  /** One turn of the loop. */
  method Turn(u: Unicode, src: string, start: nat, out: seq<string>, d: Depths)
    returns (i: nat, out': seq<string>, d': Depths)
    requires Proper(u) && Between(u, src, start, out, d) && start < |src|
    ensures start < i && Between(u, src, i, out', d')
  {
    hide Between;
    var ch := src[start];
    d' := d;
    i := start + 1;
    if At(src, start, '/', '/') || At(src, start, '/', '*') {
      i, out' := Comment(u, src, start, out, d);
    } else if ch == '"' || ch == '`' || ch == '\'' {
      i, out' := Literal(u, src, start, out, d);
    } else if ch == '\n' {
      out' := InputNewline(u, src, start, out, d);
    } else if ch == '{' {
      i, out', d' := OpenBrace(u, src, start, out, d);
    } else if ch == '}' {
      out', d' := CloseBrace(u, src, start, out, d);
    } else if ch == ';' {
      out' := Semicolon(u, src, start, out, d);
    } else if ch !in " \t()[]," && (u.isAlpha(ch) || ch == '_') {
      i, out' := TakeWord(u, src, start, out, d);
    } else {
      out', d' := PassOn(u, src, start, out, d);
    }
  }

  function Newlines(src: string): nat {
    if src == "" then 0 else Newlines(src[..|src| - 1]) + if src[|src| - 1] == '\n' then 1 else 0
  }

  method Join(out: seq<string>) returns (text: string)
    ensures text == Concat(out)
  {
    text := "";
    var k := 0;
    while k < |out|
      invariant 0 <= k <= |out| && text == Concat(out[..k])
    {
      assert out[..k + 1][..k] == out[..k];
      text := text + out[k];
      k := k + 1;
    }
    assert out[..|out|] == out;
  }

  /**
   reformat_go: for every text it ends, a text of more than five lines is left alone, and any other is
   cut into lines with nothing but its layout changed, so that it reads the same.
   */
  method ReformatGo(u: Unicode, src: string) returns (result: string)
    requires Proper(u)
    ensures Newlines(src) > 5 ==> result == src
    ensures Newlines(src) <= 5 ==> LayoutOnly(u, src, result) && ReadsTheSame(u, src, result)
    ensures Strip(result) == Strip(src)
  {
    if Newlines(src) > 5 {
      return src;
    }
    var out: seq<string> := [];
    var d := Depths(0, 0, 0);
    var i := 0;
    DoneAtStart(u, src);
    BeforeIs(u, src, 0, []);
    while i < |src|
      invariant i <= |src| && Between(u, src, i, out, d)
      decreases |src| - i
    {
      i, out, d := Turn(u, src, i, out, d);
    }
    DoneAtEnd(u, src, Before(u, src, |src|), out);
    result := Join(out);
    LayoutOnlyReadsTheSame(u, src, result);
    LayoutOnlyStrips(u, src, result);
  }
}
