/**
 What a reader of the reformatted text sees (scripts/recover_newlines.py): cut into lexemes again, the output has the
 input's lexemes in the same order, none glued together or split, and those on different lines stay on different lines.
 */
module Relex {
  import opened Lexemes

  // ---------------------------------------------------------------------------
  // A lexeme of the input is one in the output
  // ---------------------------------------------------------------------------

  /** A first lexeme, and what follows it is cut on its own. */
  lemma LexFirst(u: Unicode, text: string, rest: string)
    requires Proper(u) && text != "" && EndAt(u, text + rest, 0) == |text|
    ensures Lex(u, text + rest, 0) == [Lexeme(KindAt(u, text + rest, 0), text)] + Lex(u, rest, 0)
  {
    assert (text + rest)[0..|text|] == text;
    LexShift(u, text, rest, 0);
    hide KindAt, EndAt;
  }

  predicate LayoutChar(c: char) {
    c == ' ' || c == '\n'
  }

  /** `f` may come where `rest` came: it starts in the same way or with layout. */
  predicate Follows(f: string, rest: string) {
    if rest == "" then f == "" || LayoutChar(f[0])
    else f != "" && (LayoutChar(f[0]) || f[0] == rest[0])
  }

  /** What stands after a comment or literal of the output. */
  predicate EndsThere(kind: Kind, f: string, rest: string) {
    && (kind == LineComment && rest != "" ==> f != "" && f[0] == '\n')
    && (kind !in {Word, Single} && rest == "" ==> f == "")
  }

  lemma {:induction false} LineCommentEnds(s: string, rest: string, f: string, i: nat)
    requires i <= |s| && FindNewline(s + rest, i) == |s|
    requires f == "" || f[0] == '\n'
    ensures FindNewline(s + f, i) == |s|
    decreases |s| - i
  {
    if i < |s| {
      LineCommentEnds(s, rest, f, i + 1);
    } else if f != "" {
      assert (s + f)[i] == '\n';
    }
  }

  lemma {:induction false} BlockCommentEnds(s: string, rest: string, f: string, i: nat)
    requires i <= |s| && BlockEnd(s + rest, i) == |s| && (rest == "" ==> f == "")
    ensures BlockEnd(s + f, i) == |s|
    decreases |s| - i
  {
    if rest != "" && i < |s| && !(s[i] == '*' && i + 1 < |s| && s[i + 1] == '/') {
      BlockCommentEnds(s, rest, f, i + 1);
    }
  }

  lemma {:induction false} RuneEnds(s: string, rest: string, f: string, i: nat)
    requires i <= |s| && RuneEnd(s + rest, i) == |s| && (rest == "" ==> f == "")
    ensures RuneEnd(s + f, i) == |s|
    decreases |s| - i
  {
    if rest != "" && i < |s| && s[i] != '\'' {
      if s[i] == '\\' && i + 1 < |s| {
        RuneEnds(s, rest, f, i + 2);
      } else {
        RuneEnds(s, rest, f, i + 1);
      }
    }
  }

  lemma {:induction false} WordEnds(u: Unicode, s: string, rest: string, f: string, i: nat)
    requires Proper(u) && i <= |s| && WordEnd(u, s + rest, i) == |s| && Follows(f, rest)
    ensures WordEnd(u, s + f, i) == |s|
    decreases |s| - i
  {
    if i < |s| {
      WordEnds(u, s, rest, f, i + 1);
    } else if f != "" {
      assert (s + f)[i] == f[0] && (rest != "" ==> (s + rest)[i] == rest[0]);
    }
  }

  /** Reading from the front of a literal's inside. */
  lemma QuotedFront(s: string, n: nat, quote: char)
    requires n <= |s|
    ensures QuotedEnd(s, n, quote) == n + QuotedEnd(s[n..], 0, quote)
  {
    assert s == s[..n] + s[n..];
    QuotedEndShift(s[..n], s[n..], 0, quote);
  }

  lemma QuotedPlain(c: char, s: string, quote: char)
    requires c != '\\' && c != quote
    ensures QuotedEnd([c] + s, 0, quote) == 1 + QuotedEnd(s, 0, quote)
  {
    QuotedEndShift([c], s, 0, quote);
  }

  lemma InsidePlain(quote: char, s: string)
    requires s != "" && s[0] != '\\'
    ensures Inside(quote, s)
            == if quote == '`' && s[0] == '\n' then ['\n'] + (['\n'] + Inside(quote, s[1..]))
               else [s[0]] + Inside(quote, s[1..])
  {
    assert s == [s[0]] + s[1..];
    assert "\n\n" == ['\n'] + ['\n'];
  }

  lemma OneInside(quote: char, s: string)
    requires |s| == 1 && s[0] != '\n'
    ensures Inside(quote, s) == s
  {
    assert s[1..] == "" && RawInside("") == "" && s == [s[0]];
  }

  /** The inside of a literal ends where it ended, its doubled newlines included. */
  lemma {:induction false} QuotedEnds(quote: char, s: string, rest: string, f: string)
    requires quote == '"' || quote == '`'
    requires QuotedEnd(s + rest, 0, quote) == |s| && (rest == "" ==> f == "")
    ensures QuotedEnd(Inside(quote, s) + f, 0, quote) == |Inside(quote, s)|
    decreases |s|
  {
    if s == "" {
      assert rest == "";
    } else if s[0] == '\\' && |s| >= 2 {
      QuotedFront(s + rest, 2, quote);
      assert (s + rest)[2..] == s[2..] + rest;
      QuotedEnds(quote, s[2..], rest, f);
      var t := Inside(quote, s) + f;
      assert Inside(quote, s) == s[..2] + Inside(quote, s[2..]) by { assert s == s[..2] + s[2..]; }
      assert t[2..] == Inside(quote, s[2..]) + f;
      QuotedFront(t, 2, quote);
    } else if s[0] == '\\' {
      assert rest == "";
      OneInside(quote, s);
    } else if s[0] == quote {
      OneInside(quote, s);
    } else {
      PlainQuotedEnds(quote, s, rest, f);
    }
  }

  lemma PlainQuotedEnds(quote: char, s: string, rest: string, f: string)
    requires quote == '"' || quote == '`'
    requires s != "" && s[0] != '\\' && s[0] != quote
    requires QuotedEnd(s + rest, 0, quote) == |s| && (rest == "" ==> f == "")
    ensures QuotedEnd(Inside(quote, s) + f, 0, quote) == |Inside(quote, s)|
    decreases |s|, 0
  {
    hide Inside, QuotedEnd;
    var inner := Inside(quote, s[1..]);
    var doubled := quote == '`' && s[0] == '\n';
    InsidePlain(quote, s);
    QuotedPlain(s[0], s[1..] + rest, quote);
    assert s + rest == [s[0]] + (s[1..] + rest);
    QuotedEnds(quote, s[1..], rest, f);
    QuotedPlain(s[0], inner + f, quote);
    if doubled {
      QuotedPlain('\n', ['\n'] + (inner + f), quote);
      assert Inside(quote, s) + f == ['\n'] + (['\n'] + (inner + f));
      assert |Inside(quote, s)| == 2 + |inner|;
    } else {
      assert Inside(quote, s) + f == [s[0]] + (inner + f);
    }
  }

  /** The first lexeme of `l.text + rest` is `l`. */
  ghost predicate Starts(u: Unicode, l: Lexeme, rest: string)
    requires Proper(u)
  {
    l.text != "" && LexemeAt(u, l.text + rest, 0) == l
  }

  lemma StartsIs(u: Unicode, l: Lexeme, rest: string)
    requires Proper(u) && Starts(u, l, rest)
    ensures KindAt(u, l.text + rest, 0) == l.kind && EndAt(u, l.text + rest, 0) == |l.text|
  {
    hide KindAt, EndAt;
    EndIsPast(u, l.text + rest, 0);
  }

  /** The kind is told by the first two characters. */
  lemma KindFollows(u: Unicode, text: string, rest: string, f: string)
    requires text != "" && (|text| >= 2 || text[0] != '/' || Follows(f, rest))
    requires |text| == 1 ==> KindAt(u, text + rest, 0) !in {LineComment, BlockComment}
    ensures KindAt(u, text + f, 0) == KindAt(u, text + rest, 0)
  {
    var s, t := text + rest, text + f;
    assert s[0] == t[0] == text[0];
    if |text| >= 2 {
      assert s[1] == t[1] == text[1];
    } else if text[0] == '/' {
      assert rest != "" ==> s[1] == rest[0];
      assert f != "" ==> t[1] == f[0];
    }
  }

  /** A comment has two characters at least. */
  lemma CommentIsLong(u: Unicode, l: Lexeme, rest: string)
    requires Proper(u) && Starts(u, l, rest) && l.kind in {LineComment, BlockComment}
    ensures |l.text| >= 2
  {
    var s := l.text + rest;
    StartsIs(u, l, rest);
    assert s[0] == '/' && s[1] != '\n';
    assert l.kind == LineComment ==> FindNewline(s, 0) == FindNewline(s, 2);
    assert l.kind == BlockComment ==> BlockEnd(s, 0) == BlockEnd(s, 1);
  }

  lemma VerbatimStable(u: Unicode, l: Lexeme, rest: string, f: string)
    requires Proper(u) && Starts(u, l, rest) && l.kind != Quoted
    requires EndsThere(l.kind, f, rest) && (l.kind in {Word, Single} ==> Follows(f, rest))
    ensures KindAt(u, l.text + f, 0) == l.kind && EndAt(u, l.text + f, 0) == |l.text|
  {
    var text := l.text;
    StartsIs(u, l, rest);
    if l.kind in {LineComment, BlockComment} {
      CommentIsLong(u, l, rest);
    }
    assert l.kind == Rune ==> text[0] == '\'';
    KindFollows(u, text, rest, f);
    hide KindAt, Follows;
    match l.kind {
      case LineComment => LineCommentEnds(text, rest, f, 0);
      case BlockComment => BlockCommentEnds(text, rest, f, 0);
      case Rune => RuneEnds(text, rest, f, 1);
      case Word => WordEnds(u, text, rest, f, 0);
      case Single =>
    }
  }

  lemma QuotedStable(u: Unicode, l: Lexeme, rest: string, f: string)
    requires Proper(u) && Starts(u, l, rest) && l.kind == Quoted && EndsThere(Quoted, f, rest)
    ensures KindAt(u, Body(l) + f, 0) == Quoted && EndAt(u, Body(l) + f, 0) == |Body(l)|
  {
    var quote, inside := l.text[0], l.text[1..];
    StartsIs(u, l, rest);
    assert (l.text + rest)[0] == quote && (l.text + rest)[1..] == inside + rest;
    QuotedFront(l.text + rest, 1, quote);
    QuotedEnds(quote, inside, rest, f);
    var t := Body(l) + f;
    assert t[0] == quote && t[1..] == Inside(quote, inside) + f;
    hide Inside;
    QuotedFront(t, 1, quote);
  }

  /** A lexeme as a reader of the output sees it. */
  function Shown(l: Lexeme): Lexeme {
    Lexeme(l.kind, Body(l))
  }

  /** What the output has of a lexeme is one lexeme again. */
  lemma LexemeStable(u: Unicode, l: Lexeme, rest: string, f: string)
    requires Proper(u) && Starts(u, l, rest) && l != NEWLINE
    requires EndsThere(l.kind, f, rest) && (l.kind in {Word, Single} ==> Follows(f, rest))
    ensures Body(l) != "" && Lex(u, Body(l) + f, 0) == [Shown(l)] + Lex(u, f, 0)
  {
    if l.kind == Quoted {
      QuotedStable(u, l, rest, f);
    } else {
      VerbatimStable(u, l, rest, f);
      NoNewline(u, l, rest);
    }
    hide KindAt, EndAt;
    LexFirst(u, Body(l), f);
  }

  lemma NoNewline(u: Unicode, l: Lexeme, rest: string)
    requires Proper(u) && Starts(u, l, rest) && l != NEWLINE && l.kind != Quoted
    ensures Body(l) == l.text
  {
    StartsIs(u, l, rest);
    assert (l.text + rest)[0] == l.text[0];
  }

  // ---------------------------------------------------------------------------
  // Layout is cut into single characters
  // ---------------------------------------------------------------------------

  ghost function Singles(w: string): seq<Lexeme> {
    if w == "" then [] else [Lexeme(Single, [w[0]])] + Singles(w[1..])
  }

  lemma LexLayoutChar(u: Unicode, c: char, tail: string)
    requires Proper(u) && LayoutChar(c)
    ensures Lex(u, [c] + tail, 0) == [Lexeme(Single, [c])] + Lex(u, tail, 0)
  {
    hide Lex;
    assert KindAt(u, [c] + tail, 0) == Single;
    LexFirst(u, [c], tail);
  }

  lemma SinglesCons(w: string, rest: seq<Lexeme>)
    requires w != ""
    ensures [Lexeme(Single, [w[0]])] + (Singles(w[1..]) + rest) == Singles(w) + rest
  {}

  lemma {:induction false} LexLayout(u: Unicode, w: string, tail: string)
    requires Proper(u) && Layout(w)
    ensures Lex(u, w + tail, 0) == Singles(w) + Lex(u, tail, 0)
  {
    hide Lex;
    if w == "" {
      assert "" + tail == tail;
      assert [] + Lex(u, tail, 0) == Lex(u, tail, 0);
    } else {
      var head, rest := [w[0]], w[1..];
      assert w + tail == head + (rest + tail);
      LexLayoutChar(u, w[0], rest + tail);
      LexLayout(u, rest, tail);
      SinglesCons(w, Lex(u, tail, 0));
    }
  }

  // ---------------------------------------------------------------------------
  // Lines
  // ---------------------------------------------------------------------------

  /** A lexeme that is no layout, and whether a line ended since the one before it. */
  datatype Item = Item(lexeme: Lexeme, startsLine: bool)

  /** The items of a text, and whether a line ended after the last. */
  datatype Lines = Lines(items: seq<Item>, ended: bool)

  function Take(s: Lines, l: Lexeme): Lines {
    if l == NEWLINE then s.(ended := true)
    else if l == SPACE then s
    else Lines(s.items + [Item(l, s.ended)], false)
  }

  function LinesOf(ls: seq<Lexeme>): Lines {
    if ls == [] then Lines([], false) else Take(LinesOf(ls[..|ls| - 1]), ls[|ls| - 1])
  }

  lemma LinesAppend(ls: seq<Lexeme>, l: Lexeme)
    ensures LinesOf(ls + [l]) == Take(LinesOf(ls), l)
  {
    assert (ls + [l])[..|ls|] == ls;
  }

  lemma TakeLayout(s: Lines, c: char)
    requires LayoutChar(c)
    ensures Take(s, Lexeme(Single, [c])) == Lines(s.items, s.ended || c == '\n')
  {}

  lemma {:induction false} LinesLayout(ls: seq<Lexeme>, w: string)
    requires Layout(w)
    ensures LinesOf(ls + Singles(w)) == Lines(LinesOf(ls).items, LinesOf(ls).ended || '\n' in w)
    decreases |w|
  {
    if w == "" {
      assert ls + [] == ls;
    } else {
      var l, rest := Lexeme(Single, [w[0]]), w[1..];
      LinesAppend(ls, l);
      TakeLayout(LinesOf(ls), w[0]);
      assert Singles(w) == [l] + Singles(rest);
      hide LinesOf, Singles, Take;
      assert ls + ([l] + Singles(rest)) == ls + [l] + Singles(rest);
      assert '\n' in w <==> w[0] == '\n' || '\n' in rest by { assert w == [w[0]] + rest; }
      LinesLayout(ls + [l], rest);
    }
  }

  /** The output shows the same lexemes, and where a line ends between two of them in the input, one does there. */
  ghost predicate SameLines(a: Lines, b: Lines) {
    && |b.items| == |a.items|
    && (forall k :: 0 <= k < |a.items| ==> b.items[k].lexeme == Shown(a.items[k].lexeme))
    && (forall k :: 0 < k < |a.items| ==> a.items[k].startsLine ==> b.items[k].startsLine)
    && (a.items != [] && a.ended ==> b.ended)
  }

  // ---------------------------------------------------------------------------
  // Cutting the output again
  // ---------------------------------------------------------------------------

  /** `ls` are the lexemes of a text that `rest` follows. */
  ghost predicate Lexed(u: Unicode, ls: seq<Lexeme>, rest: string)
    requires Proper(u)
    decreases |ls|
  {
    ls == [] ||
    var init, l := ls[..|ls| - 1], ls[|ls| - 1];
    Starts(u, l, rest) && Lexed(u, init, l.text + rest)
  }

  lemma {:induction false} LexIsLexed(u: Unicode, src: string, i: nat, ls: seq<Lexeme>)
    requires Proper(u) && i <= |src| && Lexed(u, ls, src[i..])
    ensures Lexed(u, ls + Lex(u, src, i), "")
    decreases |src| - i
  {
    if i == |src| {
      assert ls + [] == ls && src[i..] == "";
    } else {
      var l, j := LexemeAt(u, src, i), EndAt(u, src, i);
      LexStep(u, src, i);
      assert src == src[..i] + src[i..];
      LexemeShift(u, src[..i], src[i..], 0);
      hide LexemeAt, EndAt;
      assert Starts(u, l, src[j..]);
      assert (ls + [l])[..|ls|] == ls;
      LexIsLexed(u, src, j, ls + [l]);
      Regroup(ls, l, Lex(u, src, j));
    }
  }

  /** `tail` may follow `text` in the output when `rest` follows in the input. */
  predicate Compatible(text: string, rest: string, tail: string) {
    if rest == "" then tail == ""
    else text == "" || (tail != "" && (LayoutChar(tail[0]) || tail[0] == rest[0]))
  }

  lemma ShownStays(u: Unicode, l: Lexeme, rest: string)
    requires Proper(u) && Starts(u, l, rest) && l != NEWLINE
    ensures Shown(l) != NEWLINE && (Shown(l) == SPACE <==> l == SPACE)
    ensures Body(l) != "" && Body(l)[0] == l.text[0]
  {
    if l.kind != Quoted {
      NoNewline(u, l, rest);
    }
  }

  lemma SameLinesTake(a: Lines, b: Lines, l: Lexeme, more: bool)
    requires SameLines(a, b) && l != NEWLINE && Shown(l) != NEWLINE && (Shown(l) == SPACE <==> l == SPACE)
    ensures var b' := Take(b, Shown(l)); SameLines(Take(a, l), Lines(b'.items, b'.ended || more))
  {
  }

  /** What follows a lexeme of the output lets it stand. */
  lemma WhatFollows(init: seq<Lexeme>, l: Lexeme, before: string, after: string, rest: string, tail: string)
    requires BrokenAfter(init, l, before, after, rest) && Layout(after)
    requires if rest == "" then tail == "" else tail != "" && (LayoutChar(tail[0]) || tail[0] == rest[0])
    ensures EndsThere(l.kind, after + tail, rest) && Follows(after + tail, rest)
  {
    assert after != "" ==> (after + tail)[0] == after[0];
    assert after == "" ==> after + tail == tail;
  }

  lemma BodyOfNewline()
    ensures Body(NEWLINE) == ""
  {}

  lemma RelexedLayout(u: Unicode, text: string, tail: string) returns (seen: seq<Lexeme>)
    requires Proper(u) && Layout(text)
    ensures Lex(u, text + tail, 0) == seen + Lex(u, tail, 0)
    ensures SameLines(LinesOf([]), LinesOf(seen)) && (text == "" ==> seen == [])
  {
    LexLayout(u, text, tail);
    seen := Singles(text);
    LinesLayout([], text);
    assert [] + seen == seen;
  }

  lemma {:induction false} Relexed(u: Unicode, ls: seq<Lexeme>, text: string, rest: string, tail: string)
    returns (seen: seq<Lexeme>)
    requires Proper(u) && Lexed(u, ls, rest) && Relayout(u, ls, text, rest) && Compatible(text, rest, tail)
    ensures Lex(u, text + tail, 0) == seen + Lex(u, tail, 0)
    ensures SameLines(LinesOf(ls), LinesOf(seen)) && (text == "" ==> seen == [])
    decreases |ls|
  {
    hide Lex, SameLines, Take, BrokenAfter, BrokenBefore, NoOtherLayout, Starts, Compatible, Body;
    if ls == [] {
      seen := RelexedLayout(u, text, tail);
    } else {
      var init, l := ls[..|ls| - 1], ls[|ls| - 1];
      var before, after :| EndsIn(u, init, l, text, rest, before, after) && Relayout(u, init, before, l.text + rest);
      assert init + [l] == ls;
      LinesAppend(init, l);
      if l == NEWLINE {
        BodyOfNewline();
        assert text == before + after;
        seen := RelexedNewline(u, init, before, after, rest, tail);
      } else {
        seen := RelexedLexeme(u, init, l, before, after, rest, tail);
      }
    }
  }

  lemma RelexedLexeme(u: Unicode, init: seq<Lexeme>, l: Lexeme, before: string, after: string, rest: string,
                      tail: string)
    returns (seen: seq<Lexeme>)
    requires Proper(u) && Starts(u, l, rest) && Lexed(u, init, l.text + rest) && l != NEWLINE
    requires Relayout(u, init, before, l.text + rest) && Layout(after) && BrokenAfter(init, l, before, after, rest)
    requires Compatible(before + Body(l) + after, rest, tail)
    ensures Lex(u, before + Body(l) + after + tail, 0) == seen + Lex(u, tail, 0) && Body(l) != ""
    ensures SameLines(Take(LinesOf(init), l), LinesOf(seen))
    decreases |init| + 1, 0
  {
    hide Relayout, Lexed, Lex, LinesOf, SameLines, Layout;
    var f := after + tail;
    ShownStays(u, l, rest);
    assert before + Body(l) + after != "";
    WhatFollows(init, l, before, after, rest, tail);
    LexemeStable(u, l, rest, f);
    LexLayout(u, after, tail);
    assert l.text != "";
    hide BrokenAfter, Starts, Body;
    assert before + Body(l) + after + tail == before + (Body(l) + f);
    assert (Body(l) + f)[0] == (l.text + rest)[0];
    var head := Relexed(u, init, before, l.text + rest, Body(l) + f);
    seen := head + [Shown(l)] + Singles(after);
    assert head + ([Shown(l)] + (Singles(after) + Lex(u, tail, 0))) == seen + Lex(u, tail, 0);
    LinesAppend(head, Shown(l));
    LinesLayout(head + [Shown(l)], after);
    SameLinesTake(LinesOf(init), LinesOf(head), l, '\n' in after);
  }

  lemma RelexedNewline(u: Unicode, init: seq<Lexeme>, before: string, after: string, rest: string, tail: string)
    returns (seen: seq<Lexeme>)
    requires Proper(u) && Lexed(u, init, "\n" + rest) && Relayout(u, init, before, "\n" + rest)
    requires Layout(after) && BrokenAfter(init, NEWLINE, before, after, rest) && Compatible(before + after, rest, tail)
    ensures Lex(u, before + after + tail, 0) == seen + Lex(u, tail, 0)
    ensures SameLines(Take(LinesOf(init), NEWLINE), LinesOf(seen)) && (before + after == "" ==> seen == [])
    decreases |init| + 1, 0
  {
    hide Relayout, Lexed, Lex, Layout;
    var f := after + tail;
    assert before + after + tail == before + f;
    assert before != "" ==> after != "" && after[0] == '\n' && f[0] == '\n';
    hide BrokenAfter;
    var head := Relexed(u, init, before, "\n" + rest, f);
    LexLayout(u, after, tail);
    seen := head + Singles(after);
    assert head + (Singles(after) + Lex(u, tail, 0)) == seen + Lex(u, tail, 0);
    LinesLayout(head, after);
  }

  // ---------------------------------------------------------------------------
  // The theorem
  // ---------------------------------------------------------------------------

  /** Cut into lexemes, `result` shows what `src` shows, line ends between two lexemes included. */
  ghost predicate ReadsTheSame(u: Unicode, src: string, result: string)
    requires Proper(u)
  {
    SameLines(LinesOf(Lex(u, src, 0)), LinesOf(Lex(u, result, 0)))
  }

  /** Whatever only changes layout in this way reads the same: no two lexemes are glued together or torn apart. */
  lemma LayoutOnlyReadsTheSame(u: Unicode, src: string, result: string)
    requires Proper(u) && LayoutOnly(u, src, result)
    ensures ReadsTheSame(u, src, result)
  {
    var ls := Lex(u, src, 0);
    assert [] + ls == ls && src[0..] == src;
    LexIsLexed(u, src, 0, []);
    var seen := Relexed(u, ls, result, "", "");
    assert result + "" == result && seen + [] == seen;
  }

  ghost predicate DoublesNewline(l: Lexeme) {
    l.kind == Quoted && l.text != "" && l.text[0] == '`' && HoldsRawNewline(l.text[1..])
  }

  /** The lexemes themselves are the same exactly when no raw literal holds an unescaped newline. */
  lemma SameLexemesIff(u: Unicode, src: string, result: string)
    requires Proper(u) && ReadsTheSame(u, src, result)
    ensures var a, b := LinesOf(Lex(u, src, 0)).items, LinesOf(Lex(u, result, 0)).items;
            |a| == |b| && ((forall k :: 0 <= k < |a| ==> a[k].lexeme == b[k].lexeme)
                           <==> (forall k :: 0 <= k < |a| ==> !DoublesNewline(a[k].lexeme)))
  {
    assert [] + Lex(u, src, 0) == Lex(u, src, 0);
    LexIsLexed(u, src, 0, []);
    ItemsVisible(u, Lex(u, src, 0), "");
    var a := LinesOf(Lex(u, src, 0)).items;
    hide LinesOf, Lex;
    forall k | 0 <= k < |a| ensures Shown(a[k].lexeme) == a[k].lexeme <==> !DoublesNewline(a[k].lexeme) {
      ShownIff(a[k].lexeme);
    }
  }

  lemma ShownIff(l: Lexeme)
    requires l.text != "" && l.text != "\n"
    ensures Shown(l) == l <==> !DoublesNewline(l)
  {
    if l.kind == Quoted {
      RawInsideLength(l.text[1..]);
      assert l.text == [l.text[0]] + l.text[1..];
    }
  }

  lemma {:induction false} ItemsVisible(u: Unicode, ls: seq<Lexeme>, rest: string)
    requires Proper(u) && Lexed(u, ls, rest)
    ensures forall k :: 0 <= k < |LinesOf(ls).items| ==> LinesOf(ls).items[k].lexeme.text !in ["", "\n"]
    decreases |ls|
  {
    if ls != [] {
      var init, l := ls[..|ls| - 1], ls[|ls| - 1];
      ItemsVisible(u, init, l.text + rest);
      if l != NEWLINE {
        StartsIs(u, l, rest);
        assert (l.text + rest)[0] == l.text[0];
      }
    }
  }
}
