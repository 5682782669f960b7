/**
 Go source text cut into comments, literals, words and single characters, as the scanner of
 scripts/recover_newlines.py tells them apart, and what it may do to each.
 */
module Lexemes {

  /** Python's str.isalpha and str.isalnum. */
  datatype Unicode = Unicode(isAlpha: char -> bool, isAlnum: char -> bool)

  ghost predicate Proper(u: Unicode) {
    && (forall c :: u.isAlpha(c) ==> u.isAlnum(c))
    && !u.isAlnum(' ') && !u.isAlnum('\n')
  }

  datatype Kind = LineComment | BlockComment | Quoted | Rune | Word | Single

  datatype Lexeme = Lexeme(kind: Kind, text: string)

  const NEWLINE := Lexeme(Single, "\n")
  const SPACE := Lexeme(Single, " ")

  // ---------------------------------------------------------------------------
  // Where a lexeme ends
  // ---------------------------------------------------------------------------

  /** src.find("\n", i), or the end. */
  function FindNewline(src: string, i: nat): (j: nat)
    requires i <= |src|
    ensures i <= j <= |src|
    decreases |src| - i
  {
    if i == |src| || src[i] == '\n' then i else FindNewline(src, i + 1)
  }

  /** src.find("*" + "/", i) and past it, or the end. */
  function BlockEnd(src: string, i: nat): (j: nat)
    requires i <= |src|
    ensures i <= j <= |src| && (i < |src| ==> i < j)
    decreases |src| - i
  {
    if i == |src| then i
    else if src[i] == '*' && i + 1 < |src| && src[i + 1] == '/' then i + 2
    else BlockEnd(src, i + 1)
  }

  /** Past the quote that closes a literal whose inside starts at `i`; a backslash escapes, in raw literals too. */
  function QuotedEnd(src: string, i: nat, quote: char): (j: nat)
    requires i <= |src|
    ensures i <= j <= |src|
    decreases |src| - i
  {
    if i == |src| then i
    else if src[i] == '\\' && i + 1 < |src| then QuotedEnd(src, i + 2, quote)
    else if src[i] == quote then i + 1
    else QuotedEnd(src, i + 1, quote)
  }

  function RuneEnd(src: string, i: nat): (j: nat)
    requires i <= |src|
    ensures i <= j <= |src|
    decreases |src| - i
  {
    if i == |src| then i
    else if src[i] == '\'' then i + 1
    else if src[i] == '\\' && i + 1 < |src| then RuneEnd(src, i + 2)
    else RuneEnd(src, i + 1)
  }

  predicate WordChar(u: Unicode, c: char) {
    u.isAlnum(c) || c == '_'
  }

  function WordEnd(u: Unicode, src: string, i: nat): (j: nat)
    requires i <= |src|
    ensures i <= j <= |src|
    decreases |src| - i
  {
    if i == |src| || !WordChar(u, src[i]) then i else WordEnd(u, src, i + 1)
  }

  predicate At(src: string, i: nat, c: char, d: char) {
    i + 1 < |src| && src[i] == c && src[i + 1] == d
  }

  predicate IsPunctuation(c: char) {
    c in " \t\n{}()[];,"
  }

  function KindAt(u: Unicode, src: string, i: nat): Kind
    requires i < |src|
  {
    if At(src, i, '/', '/') then LineComment
    else if At(src, i, '/', '*') then BlockComment
    else if src[i] == '"' || src[i] == '`' then Quoted
    else if src[i] == '\'' then Rune
    else if IsPunctuation(src[i]) then Single
    else if u.isAlpha(src[i]) || src[i] == '_' then Word
    else Single
  }

  function EndAt(u: Unicode, src: string, i: nat): (j: nat)
    requires i < |src|
    ensures j <= |src|
  {
    match KindAt(u, src, i)
    case LineComment => FindNewline(src, i)
    case BlockComment => BlockEnd(src, i)
    case Quoted => QuotedEnd(src, i + 1, src[i])
    case Rune => RuneEnd(src, i + 1)
    case Word => WordEnd(u, src, i)
    case Single => i + 1
  }

  lemma EndIsPast(u: Unicode, src: string, i: nat)
    requires Proper(u) && i < |src|
    ensures i < EndAt(u, src, i)
  {}

  ghost function LexemeAt(u: Unicode, src: string, i: nat): Lexeme
    requires Proper(u) && i < |src|
  {
    EndIsPast(u, src, i);
    Lexeme(KindAt(u, src, i), src[i..EndAt(u, src, i)])
  }

  /** The lexemes of the text from `i` on. */
  ghost function Lex(u: Unicode, src: string, i: nat): seq<Lexeme>
    requires Proper(u) && i <= |src|
    decreases |src| - i
  {
    if i == |src| then []
    else
      EndIsPast(u, src, i);
      [LexemeAt(u, src, i)] + Lex(u, src, EndAt(u, src, i))
  }

  // ---------------------------------------------------------------------------
  // Lexing does not look back
  // ---------------------------------------------------------------------------

  lemma {:induction false} FindNewlineShift(a: string, s: string, i: nat)
    requires i <= |s|
    ensures FindNewline(a + s, |a| + i) == |a| + FindNewline(s, i)
    decreases |s| - i
  {
    if i < |s| { FindNewlineShift(a, s, i + 1); }
  }

  lemma {:induction false} BlockEndShift(a: string, s: string, i: nat)
    requires i <= |s|
    ensures BlockEnd(a + s, |a| + i) == |a| + BlockEnd(s, i)
    decreases |s| - i
  {
    if i < |s| { BlockEndShift(a, s, i + 1); }
  }

  lemma {:induction false} QuotedEndShift(a: string, s: string, i: nat, quote: char)
    requires i <= |s|
    ensures QuotedEnd(a + s, |a| + i, quote) == |a| + QuotedEnd(s, i, quote)
    decreases |s| - i
  {
    if i < |s| {
      QuotedEndShift(a, s, i + 1, quote);
      if i + 1 < |s| { QuotedEndShift(a, s, i + 2, quote); }
    }
  }

  lemma {:induction false} RuneEndShift(a: string, s: string, i: nat)
    requires i <= |s|
    ensures RuneEnd(a + s, |a| + i) == |a| + RuneEnd(s, i)
    decreases |s| - i
  {
    if i < |s| {
      RuneEndShift(a, s, i + 1);
      if i + 1 < |s| { RuneEndShift(a, s, i + 2); }
    }
  }

  lemma {:induction false} WordEndShift(u: Unicode, a: string, s: string, i: nat)
    requires i <= |s|
    ensures WordEnd(u, a + s, |a| + i) == |a| + WordEnd(u, s, i)
    decreases |s| - i
  {
    if i < |s| { WordEndShift(u, a, s, i + 1); }
  }

  lemma KindShift(u: Unicode, a: string, s: string, i: nat)
    requires i < |s|
    ensures KindAt(u, a + s, |a| + i) == KindAt(u, s, i)
  {
    assert (a + s)[|a| + i] == s[i] && (i + 1 < |s| ==> (a + s)[|a| + i + 1] == s[i + 1]);
  }

  lemma EndShift(u: Unicode, a: string, s: string, i: nat)
    requires i < |s|
    ensures EndAt(u, a + s, |a| + i) == |a| + EndAt(u, s, i)
  {
    KindShift(u, a, s, i);
    hide KindAt;
    FindNewlineShift(a, s, i);
    BlockEndShift(a, s, i);
    QuotedEndShift(a, s, i + 1, s[i]);
    RuneEndShift(a, s, i + 1);
    WordEndShift(u, a, s, i);
  }

  lemma LexemeShift(u: Unicode, a: string, s: string, i: nat)
    requires Proper(u) && i < |s|
    ensures LexemeAt(u, a + s, |a| + i) == LexemeAt(u, s, i)
  {
    KindShift(u, a, s, i);
    EndShift(u, a, s, i);
    hide KindAt, EndAt;
    var j := EndAt(u, s, i);
    EndIsPast(u, s, i);
    assert (a + s)[|a| + i..|a| + j] == s[i..j];
  }

  lemma {:induction false} LexShift(u: Unicode, a: string, s: string, i: nat)
    requires Proper(u) && i <= |s|
    ensures Lex(u, a + s, |a| + i) == Lex(u, s, i)
    decreases |s| - i
  {
    if i < |s| {
      EndIsPast(u, s, i);
      EndShift(u, a, s, i);
      LexemeShift(u, a, s, i);
      LexShift(u, a, s, EndAt(u, s, i));
    }
  }

  // ---------------------------------------------------------------------------
  // Layout
  // ---------------------------------------------------------------------------

  /** Deletes all spaces and newlines. */
  function Strip(s: string): string {
    if s == "" then ""
    else (if s[0] == ' ' || s[0] == '\n' then "" else [s[0]]) + Strip(s[1..])
  }

  ghost predicate Layout(s: string) {
    forall i :: 0 <= i < |s| ==> s[i] == ' ' || s[i] == '\n'
  }

  /** A raw literal's inside as the scanner copies it: an unescaped newline comes out twice. */
  function RawInside(s: string): string {
    if s == "" then ""
    else if s[0] == '\\' && |s| >= 2 then s[..2] + RawInside(s[2..])
    else if s[0] == '\n' then "\n\n" + RawInside(s[1..])
    else [s[0]] + RawInside(s[1..])
  }

  /** The inside of a literal as the scanner copies it. */
  function Inside(quote: char, s: string): string {
    if quote == '`' then RawInside(s) else s
  }

  predicate HoldsRawNewline(s: string) {
    s != "" &&
    if s[0] == '\\' && |s| >= 2 then HoldsRawNewline(s[2..])
    else s[0] == '\n' || HoldsRawNewline(s[1..])
  }

  /** A lexeme as it appears in the output, layout around it aside. A newline of the input is layout. */
  function Body(l: Lexeme): string {
    if l.kind == Quoted && l.text != "" then [l.text[0]] + Inside(l.text[0], l.text[1..])
    else if l.text == "\n" then ""
    else l.text
  }

  /** Open braces, parentheses and brackets outside comments and literals. */
  datatype Depths = Depths(brace: int, paren: int, bracket: int)

  function Deepen(d: Depths, l: Lexeme): Depths {
    if l.kind != Single then d
    else if l.text == "{" then d.(brace := d.brace + 1)
    else if l.text == "}" then d.(brace := d.brace - 1)
    else if l.text == "(" then d.(paren := d.paren + 1)
    else if l.text == ")" then d.(paren := d.paren - 1)
    else if l.text == "[" then d.(bracket := d.bracket + 1)
    else if l.text == "]" then d.(bracket := d.bracket - 1)
    else d
  }

  function DepthsOf(ls: seq<Lexeme>): Depths {
    if ls == [] then Depths(0, 0, 0) else Deepen(DepthsOf(ls[..|ls| - 1]), ls[|ls| - 1])
  }

  /** "  " * depth: empty for a depth of zero or less. */
  function Indent(depth: int): string
    decreases depth
  {
    if depth <= 0 then "" else "  " + Indent(depth - 1)
  }

  /** What is written next stands first on a line, indented by `depth`. */
  ghost predicate AtLineStart(text: string, depth: int) {
    text == Indent(depth) || exists t: string :: text == t + "\n" + Indent(depth)
  }

  /** A line ends, and the next one is indented by `depth`. */
  ghost predicate Begins(after: string, depth: int) {
    "\n" + Indent(depth) <= after
  }

  predicate IsFileWord(l: Lexeme) {
    l.kind == Word && l.text in ["package", "import"]
  }

  predicate IsDeclaration(l: Lexeme) {
    l.kind == Word && l.text in ["package", "import", "func", "type", "var", "const"]
  }

  predicate EndsInOpenBrace(ls: seq<Lexeme>) {
    ls != [] && ls[|ls| - 1] == Lexeme(Single, "{")
  }

  /** A closing brace starts a line, unless it closes "{}"; so do "package", "import" and a top-level declaration. */
  ghost predicate BrokenBefore(init: seq<Lexeme>, l: Lexeme, before: string) {
    && (IsFileWord(l) ==> before == "" || AtLineStart(before, DepthsOf(init).brace))
    && (l == Lexeme(Single, "}") && !EndsInOpenBrace(init) ==> AtLineStart(before, DepthsOf(init).brace - 1))
    && (IsDeclaration(l) && DepthsOf(init).brace == 0 && DepthsOf(init).paren == 0 ==> AtLineStart(before, 0))
  }

  /** The text without the blanks it starts with. */
  function Visible(s: string): string {
    if s != "" && (s[0] == ' ' || s[0] == '\t') then Visible(s[1..]) else s
  }

  predicate StartsWith(s: string, c: char) {
    s != "" && s[0] == c
  }

  /** "package" or "import" with the one space that may follow it. */
  predicate EndsFileWord(init: seq<Lexeme>, l: Lexeme, rest: string) {
    if l == SPACE then init != [] && IsFileWord(init[|init| - 1])
    else IsFileWord(l) && !StartsWith(rest, ' ')
  }

  /**
   Where `rest` of the input follows `l`: a line ends after an opening brace that "}" does not follow, after a
   closing brace that ends the top level, after a top-level ";" that no comma follows, after a line comment, after
   "package" and "import", and wherever a line of the input ends, unless nothing is written yet. Nothing is added
   to a comment or literal that ends the input.
   */
  ghost predicate BrokenAfter(init: seq<Lexeme>, l: Lexeme, before: string, after: string, rest: string) {
    var d := Deepen(DepthsOf(init), l);
    && (l == Lexeme(Single, "{") && !StartsWith(rest, '}') ==> Begins(after, d.brace))
    && (l == Lexeme(Single, "}") && !EndsInOpenBrace(init) && d.brace == 0 ==> Begins(after, 0))
    && (l == Lexeme(Single, ";") && d == Depths(0, 0, 0) && !StartsWith(Visible(rest), ',') ==> Begins(after, 0))
    && (l.kind == LineComment && rest != "" ==> Begins(after, d.brace))
    && (EndsFileWord(init, l, rest) ==> Begins(after, d.brace))
    && (l == NEWLINE ==> before == "" || Begins(after, d.brace))
    && (rest == "" && l.kind !in {Word, Single} ==> after == "")
  }

  /** After `l` a line ends or may end. */
  predicate LineEndsAfter(init: seq<Lexeme>, l: Lexeme, rest: string) {
    var d := Deepen(DepthsOf(init), l);
    || l in [NEWLINE, Lexeme(Single, "{")] || (l == Lexeme(Single, "}") && d.brace == 0)
    || (l == Lexeme(Single, ";") && d == Depths(0, 0, 0) && !StartsWith(Visible(rest), ','))
    || (l.kind == LineComment && rest != "") || EndsFileWord(init, l, rest)
  }

  /** With the first lexeme of `rest` a line starts or may start. */
  ghost predicate LineStartsAt(u: Unicode, ls: seq<Lexeme>, rest: string)
    requires Proper(u)
  {
    rest != "" &&
    var l := LexemeAt(u, rest, 0);
    l == Lexeme(Single, "}") || IsFileWord(l)
    || (IsDeclaration(l) && DepthsOf(ls).brace == 0 && DepthsOf(ls).paren == 0)
  }

  /** No line ends anywhere else, and no blank is added except before an opening brace. */
  ghost predicate NoOtherLayout(u: Unicode, init: seq<Lexeme>, l: Lexeme, after: string, rest: string)
    requires Proper(u)
  {
    LineEndsAfter(init, l, rest) || LineStartsAt(u, init + [l], rest)
    || (if StartsWith(rest, '{') then '\n' !in after else after == "")
  }

  /** `text` ends in the body of `l` and then layout, broken into lines as promised and nowhere else. */
  ghost predicate EndsIn(u: Unicode, init: seq<Lexeme>, l: Lexeme, text: string, rest: string, before: string,
                         after: string)
    requires Proper(u)
  {
    && text == before + Body(l) + after && Layout(after) && NoOtherLayout(u, init, l, after, rest)
    && BrokenBefore(init, l, before) && BrokenAfter(init, l, before, after, rest)
  }

  /**
   `text` is the bodies of the lexemes in order with nothing but spaces and newlines around them,
   broken into lines as promised and nowhere else; `rest` is the input that follows.
   */
  ghost predicate Relayout(u: Unicode, ls: seq<Lexeme>, text: string, rest: string)
    requires Proper(u)
    decreases |ls|
  {
    if ls == [] then Layout(text) && ('\n' in text ==> LineStartsAt(u, [], rest))
    else
      var init, l := ls[..|ls| - 1], ls[|ls| - 1];
      exists before: string, after: string ::
        EndsIn(u, init, l, text, rest, before, after) && Relayout(u, init, before, l.text + rest)
  }

  /** The output is the input's lexemes in order, with only the layout between them changed, and in lines. */
  ghost predicate LayoutOnly(u: Unicode, src: string, result: string)
    requires Proper(u)
  {
    Relayout(u, Lex(u, src, 0), result, "")
  }

  /** Layout `w` may be added after these lexemes. */
  ghost predicate Extensible(u: Unicode, ls: seq<Lexeme>, rest: string, w: string)
    requires Proper(u)
  {
    Layout(w) && (LineStartsAt(u, ls, rest) || (StartsWith(rest, '{') && '\n' !in w))
  }

  lemma AddLayout(u: Unicode, ls: seq<Lexeme>, text: string, rest: string, w: string)
    requires Proper(u) && Relayout(u, ls, text, rest) && Extensible(u, ls, rest, w)
    ensures Relayout(u, ls, text + w, rest)
  {
    hide EndsIn, LineStartsAt;
    if ls != [] {
      var init, l := ls[..|ls| - 1], ls[|ls| - 1];
      var before, after :| EndsIn(u, init, l, text, rest, before, after) && Relayout(u, init, before, l.text + rest);
      assert init + [l] == ls;
      MoreLayout(u, init, l, text, rest, before, after, w);
    }
  }

  lemma MoreLayout(u: Unicode, init: seq<Lexeme>, l: Lexeme, text: string, rest: string, before: string, after: string,
                   w: string)
    requires Proper(u) && EndsIn(u, init, l, text, rest, before, after) && Extensible(u, init + [l], rest, w)
    ensures EndsIn(u, init, l, text + w, rest, before, after + w)
  {
    assert text + w == before + Body(l) + (after + w);
    assert forall depth :: Begins(after, depth) ==> Begins(after + w, depth);
    hide LineStartsAt, LineEndsAfter, Begins, Body, BrokenBefore, IsFileWord;
  }

  lemma AddLexeme(u: Unicode, ls: seq<Lexeme>, text: string, rest: string, l: Lexeme, w: string)
    requires Proper(u) && Relayout(u, ls, text, l.text + rest) && Layout(w) && NoOtherLayout(u, ls, l, w, rest)
    requires BrokenBefore(ls, l, text) && BrokenAfter(ls, l, text, w, rest)
    ensures Relayout(u, ls + [l], text + Body(l) + w, rest)
  {
    var longer := ls + [l];
    assert longer[..|longer| - 1] == ls && longer[|longer| - 1] == l;
    assert EndsIn(u, ls, l, text + Body(l) + w, rest, text, w);
  }

  // ---------------------------------------------------------------------------
  // The output list
  // ---------------------------------------------------------------------------

  function Concat(out: seq<string>): string {
    if out == [] then "" else Concat(out[..|out| - 1]) + out[|out| - 1]
  }

  lemma ConcatAppend(out: seq<string>, chunk: string)
    ensures Concat(out + [chunk]) == Concat(out) + chunk
  {
    assert (out + [chunk])[..|out|] == out;
  }

  /** `ls` are the lexemes before `i`, and they are all in the output. */
  ghost predicate Done(u: Unicode, src: string, i: nat, ls: seq<Lexeme>, out: seq<string>)
    requires Proper(u)
  {
    i <= |src| && Lex(u, src, 0) == ls + Lex(u, src, i) && Relayout(u, ls, Concat(out), src[i..])
  }

  /** The lexemes before a place where one starts. */
  ghost function Before(u: Unicode, src: string, i: nat): seq<Lexeme>
    requires Proper(u) && i <= |src|
  {
    var all, rest := Lex(u, src, 0), Lex(u, src, i);
    if |rest| <= |all| then all[..|all| - |rest|] else []
  }

  lemma BeforeIs(u: Unicode, src: string, i: nat, ls: seq<Lexeme>)
    requires Proper(u) && i <= |src| && Lex(u, src, 0) == ls + Lex(u, src, i)
    ensures Before(u, src, i) == ls
  {
  }

  lemma DoneLayout(u: Unicode, src: string, i: nat, ls: seq<Lexeme>, out: seq<string>, out': seq<string>, w: string)
    requires Proper(u) && Done(u, src, i, ls, out)
    requires Concat(out') == Concat(out) + w && Extensible(u, ls, src[i..], w)
    ensures Done(u, src, i, ls, out')
  {
    AddLayout(u, ls, Concat(out), src[i..], w);
  }

  lemma LexStep(u: Unicode, src: string, i: nat)
    requires Proper(u) && i < |src|
    ensures i < EndAt(u, src, i) && Lex(u, src, i) == [LexemeAt(u, src, i)] + Lex(u, src, EndAt(u, src, i))
    ensures src[i..] == LexemeAt(u, src, i).text + src[EndAt(u, src, i)..]
  {
    EndIsPast(u, src, i);
  }

  lemma Regroup(ls: seq<Lexeme>, l: Lexeme, rest: seq<Lexeme>)
    ensures ls + ([l] + rest) == (ls + [l]) + rest
  {}

  /** The lexeme at `i` came out, with layout `w` after it. */
  lemma DoneLexeme(u: Unicode, src: string, i: nat, ls: seq<Lexeme>, out: seq<string>, out': seq<string>, w: string)
    requires Proper(u) && i < |src| && Done(u, src, i, ls, out)
    requires Layout(w) && Concat(out') == Concat(out) + Body(LexemeAt(u, src, i)) + w
    requires BrokenBefore(ls, LexemeAt(u, src, i), Concat(out))
    requires BrokenAfter(ls, LexemeAt(u, src, i), Concat(out), w, src[EndAt(u, src, i)..])
    requires NoOtherLayout(u, ls, LexemeAt(u, src, i), w, src[EndAt(u, src, i)..])
    ensures i < EndAt(u, src, i) && Done(u, src, EndAt(u, src, i), ls + [LexemeAt(u, src, i)], out')
  {
    var l, j := LexemeAt(u, src, i), EndAt(u, src, i);
    LexStep(u, src, i);
    AddLexeme(u, ls, Concat(out), src[j..], l, w);
    Regroup(ls, l, Lex(u, src, j));
  }

  lemma DoneAtStart(u: Unicode, src: string)
    requires Proper(u)
    ensures Done(u, src, 0, [], [])
  {
    assert Lex(u, src, 0) == [] + Lex(u, src, 0);
  }

  lemma DoneAtEnd(u: Unicode, src: string, ls: seq<Lexeme>, out: seq<string>)
    requires Proper(u) && Done(u, src, |src|, ls, out)
    ensures LayoutOnly(u, src, Concat(out))
  {
    assert ls + [] == ls && src[|src|..] == "";
  }

  lemma DepthsAppend(ls: seq<Lexeme>, l: Lexeme)
    ensures DepthsOf(ls + [l]) == Deepen(DepthsOf(ls), l)
  {
    var longer := ls + [l];
    assert longer[..|longer| - 1] == ls;
  }

  // ---------------------------------------------------------------------------
  // Changing the layout only keeps everything but spaces and newlines
  // ---------------------------------------------------------------------------

  lemma {:induction false} StripAppend(a: string, b: string)
    ensures Strip(a + b) == Strip(a) + Strip(b)
  {
    if a == "" {
      assert a + b == b;
    } else {
      assert (a + b)[1..] == a[1..] + b;
      StripAppend(a[1..], b);
    }
  }

  lemma {:induction false} StripLayout(s: string)
    requires Layout(s)
    ensures Strip(s) == ""
  {
    if s != "" { StripLayout(s[1..]); }
  }

  lemma {:induction false} StripRawInside(s: string)
    ensures Strip(RawInside(s)) == Strip(s)
  {
    if s == "" {
    } else if s[0] == '\\' && |s| >= 2 {
      StripRawInside(s[2..]);
      StripAppend(s[..2], RawInside(s[2..]));
      StripAppend(s[..2], s[2..]);
      assert s == s[..2] + s[2..];
    } else if s[0] == '\n' {
      StripRawInside(s[1..]);
      StripAppend("\n\n", RawInside(s[1..]));
      StripLayout("\n\n");
    } else {
      StripRawInside(s[1..]);
      assert ([s[0]] + RawInside(s[1..]))[1..] == RawInside(s[1..]);
    }
  }

  lemma StripBody(l: Lexeme)
    ensures Strip(Body(l)) == Strip(l.text)
  {
    if l.kind == Quoted && l.text != "" {
      var head, inside := [l.text[0]], l.text[1..];
      StripRawInside(inside);
      StripAppend(head, Inside(l.text[0], inside));
      StripAppend(head, inside);
      assert l.text == head + inside;
    } else if l.text == "\n" {
      StripLayout(l.text);
    }
  }

  ghost function Texts(ls: seq<Lexeme>): string {
    if ls == [] then "" else Texts(ls[..|ls| - 1]) + ls[|ls| - 1].text
  }

  lemma {:induction false} StripRelayout(u: Unicode, ls: seq<Lexeme>, text: string, rest: string)
    requires Proper(u) && Relayout(u, ls, text, rest)
    ensures Strip(text) == Strip(Texts(ls))
  {
    if ls == [] {
      StripLayout(text);
    } else {
      var n := |ls| - 1;
      var before, after :| EndsIn(u, ls[..n], ls[n], text, rest, before, after)
          && Relayout(u, ls[..n], before, ls[n].text + rest);
      StripRelayout(u, ls[..n], before, ls[n].text + rest);
      StripBody(ls[n]);
      StripAppend(before + Body(ls[n]), after);
      StripAppend(before, Body(ls[n]));
      StripLayout(after);
      StripAppend(Texts(ls[..n]), ls[n].text);
    }
  }

  lemma {:induction false} TextsPrepend(l: Lexeme, ls: seq<Lexeme>)
    ensures Texts([l] + ls) == l.text + Texts(ls)
  {
    var all := [l] + ls;
    if ls == [] {
      assert all[..0] == [];
    } else {
      assert all[..|all| - 1] == [l] + ls[..|ls| - 1];
      TextsPrepend(l, ls[..|ls| - 1]);
    }
  }

  /** The lexemes are all of the text. */
  lemma {:induction false} LexCovers(u: Unicode, src: string, i: nat)
    requires Proper(u) && i <= |src|
    ensures Texts(Lex(u, src, i)) == src[i..]
    decreases |src| - i
  {
    if i < |src| {
      var j := EndAt(u, src, i);
      EndIsPast(u, src, i);
      LexCovers(u, src, j);
      TextsPrepend(LexemeAt(u, src, i), Lex(u, src, j));
      assert src[i..] == src[i..j] + src[j..];
    }
  }

  /** Layout only: deleting all spaces and newlines from the input and from the output gives the same. */
  lemma LayoutOnlyStrips(u: Unicode, src: string, result: string)
    requires Proper(u) && LayoutOnly(u, src, result)
    ensures Strip(result) == Strip(src)
  {
    StripRelayout(u, Lex(u, src, 0), result, "");
    LexCovers(u, src, 0);
    assert src[0..] == src;
  }

  lemma {:induction false} RawInsideLength(s: string)
    ensures |RawInside(s)| >= |s|
    ensures |RawInside(s)| == |s| <==> !HoldsRawNewline(s)
    ensures !HoldsRawNewline(s) ==> RawInside(s) == s
  {
    if s != "" {
      if s[0] == '\\' && |s| >= 2 { RawInsideLength(s[2..]); } else { RawInsideLength(s[1..]); }
      assert s == [s[0]] + s[1..];
    }
  }

  /**
   What the scanner does inside literals: a comment, rune or literal comes out verbatim,
   exactly unless it is a raw literal that holds a newline.
   */
  lemma LiteralSurvivesIff(l: Lexeme)
    requires l.kind in {LineComment, BlockComment, Quoted, Rune} && l.text != "" && l.text[0] != '\n'
    ensures Body(l) == l.text <==> !(l.kind == Quoted && l.text[0] == '`' && HoldsRawNewline(l.text[1..]))
  {
    RawInsideLength(l.text[1..]);
    assert l.text == [l.text[0]] + l.text[1..];
  }
}
