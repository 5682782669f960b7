/**
 Export of the audit log to a file (internal/audit/export.go:148-214): the lines go through a bufio.Writer, whose
 flush at the end is deferred and whose error is dropped. A character stands for a byte.
 */
module CefFile {
  import opened CefExport
  import opened CefRows

  /** A file: every line ended by a newline. */
  function FileText(lines: seq<string>): string {
    if lines == [] then "" else FileText(lines[..|lines| - 1]) + lines[|lines| - 1] + "\n"
  }

  lemma FileTextAppend(lines: seq<string>, line: string)
    ensures FileText(lines + [line]) == FileText(lines) + line + "\n"
  {
    assert (lines + [line])[..|lines|] == lines;
  }

  function Lines(rows: seq<Row>, vendor: string, product: string): (lines: seq<string>)
    ensures |lines| == |rows| && forall i :: 0 <= i < |rows| ==> lines[i] == Line(rows[i], vendor, product, CEF_VERSION)
  {
    seq(|rows|, i requires 0 <= i < |rows| => Line(rows[i], vendor, product, CEF_VERSION))
  }

  lemma Associative(a: string, b: string, c: string)
    ensures a + b + c == a + (b + c)
  {
  }

  lemma {:induction false} TextAppend(a: seq<string>, b: seq<string>)
    ensures FileText(a + b) == FileText(a) + FileText(b)
  {
    if b == [] {
      assert a + b == a && FileText(a) + "" == FileText(a);
    } else {
      hide FileText;
      var init, last := b[..|b| - 1], b[|b| - 1];
      assert b == init + [last] && a + b == (a + init) + [last];
      TextAppend(a, init);
      FileTextAppend(init, last);
      FileTextAppend(a + init, last);
      Associative(FileText(a), FileText(init), last);
      Associative(FileText(a), FileText(init) + last, "\n");
    }
  }

  // ---------------------------------------------------------------------------
  // The chunks that a buffered writer hands on, without failures
  // ---------------------------------------------------------------------------

  /** bufio's default buffer size. */
  const BUFFER_SIZE := 4096

  /** What the writer hands on for `s`, and what is then in its buffer. */
  datatype Split = Split(chunks: seq<string>, buf: string)

  /** The buffer is handed on whenever `s` fills it; a long `s` that meets an empty buffer is handed on as it is. */
  function Emit(buf: string, s: string): Split
    requires |buf| <= BUFFER_SIZE
    decreases |s|, |buf|
  {
    if |s| <= BUFFER_SIZE - |buf| then Split([], buf + s)
    else if buf == "" then Split([s], "")
    else
      var n := BUFFER_SIZE - |buf|;
      var more := Emit("", s[n..]);
      Split([buf + s[..n]] + more.chunks, more.buf)
  }

  function Concat(chunks: seq<string>): string {
    if chunks == [] then "" else Concat(chunks[..|chunks| - 1]) + chunks[|chunks| - 1]
  }

  /** The lines written one after the other. */
  function Buffered(lines: seq<string>): (b: Split)
    ensures |b.buf| <= BUFFER_SIZE
  {
    if lines == [] then Split([], "")
    else
      var before := Buffered(lines[..|lines| - 1]);
      var last := Emit(before.buf, lines[|lines| - 1] + "\n");
      EmitFits(before.buf, lines[|lines| - 1] + "\n");
      Split(before.chunks + last.chunks, last.buf)
  }

  /** All chunks, with the one of the final flush. */
  function Chunks(lines: seq<string>): seq<string> {
    var b := Buffered(lines);
    if b.buf == "" then b.chunks else b.chunks + [b.buf]
  }

  lemma {:induction false} EmitFits(buf: string, s: string)
    requires |buf| <= BUFFER_SIZE
    ensures |Emit(buf, s).buf| <= BUFFER_SIZE
    decreases |s|, |buf|
  {
    if |s| > BUFFER_SIZE - |buf| && buf != "" {
      EmitFits("", s[BUFFER_SIZE - |buf|..]);
    }
  }

  lemma ConcatOne(chunks: seq<string>, chunk: string)
    ensures Concat(chunks + [chunk]) == Concat(chunks) + chunk
  {
    assert (chunks + [chunk])[..|chunks|] == chunks;
  }

  lemma {:induction false} ConcatAppend(a: seq<string>, b: seq<string>)
    ensures Concat(a + b) == Concat(a) + Concat(b)
  {
    if b == [] {
      assert a + b == a && Concat(a) + "" == Concat(a);
    } else {
      hide Concat;
      var init, last := b[..|b| - 1], b[|b| - 1];
      assert b == init + [last] && a + b == (a + init) + [last];
      ConcatAppend(a, init);
      ConcatOne(init, last);
      ConcatOne(a + init, last);
      Associative(Concat(a), Concat(init), last);
    }
  }

  /** The chunks and the buffer are the text, and what was in the buffer goes out first. */
  ghost predicate KeepsText(buf: string, s: string, after: Split) {
    && Concat(after.chunks) + after.buf == buf + s
    && (after.chunks != [] ==> buf <= after.chunks[0])
  }

  lemma {:induction false} EmitKeepsText(buf: string, s: string)
    requires |buf| <= BUFFER_SIZE
    ensures KeepsText(buf, s, Emit(buf, s))
    decreases |s|, |buf|
  {
    if |s| <= BUFFER_SIZE - |buf| {
      assert "" + (buf + s) == buf + s;
    } else if buf == "" {
      ConcatOne([], s);
      assert [] + [s] == [s] && "" + s == s + "" == s;
    } else {
      var n := BUFFER_SIZE - |buf|;
      EmitKeepsText("", s[n..]);
      hide KeepsText, Concat;
      FillKeepsText(buf, s, n, Emit("", s[n..]));
    }
  }

  lemma FillKeepsText(buf: string, s: string, n: nat, more: Split)
    requires n <= |s| && KeepsText("", s[n..], more)
    ensures KeepsText(buf, s, Split([buf + s[..n]] + more.chunks, more.buf))
  {
    var first := buf + s[..n];
    ConcatAppend([first], more.chunks);
    ConcatOne([], first);
    assert [] + [first] == [first] && "" + first == first;
    hide Concat;
    Recombine(buf, s, n, Concat(more.chunks), more.buf);
  }

  lemma Recombine(buf: string, s: string, n: nat, c: string, d: string)
    requires n <= |s| && c + d == "" + s[n..]
    ensures buf + s[..n] + c + d == buf + s
  {
    assert buf + s[..n] + c + d == buf + (s[..n] + (c + d));
    assert s[..n] + s[n..] == s && "" + s[n..] == s[n..];
  }

  lemma {:induction false} BufferedIsText(lines: seq<string>)
    ensures Concat(Buffered(lines).chunks) + Buffered(lines).buf == FileText(lines)
  {
    if lines != [] {
      var init, s := lines[..|lines| - 1], lines[|lines| - 1] + "\n";
      var before := Buffered(init);
      BufferedIsText(init);
      EmitKeepsText(before.buf, s);
      ConcatAppend(before.chunks, Emit(before.buf, s).chunks);
      Regroup(Concat(before.chunks), before.buf, s, Concat(Emit(before.buf, s).chunks), Emit(before.buf, s).buf);
      assert FileText(init) + lines[|lines| - 1] + "\n" == FileText(init) + s;
    }
  }

  lemma Regroup(a: string, b: string, s: string, c: string, d: string)
    requires c + d == b + s
    ensures a + c + d == a + b + s
  {
    assert a + c + d == a + (c + d);
  }

  lemma ChunksAreText(lines: seq<string>)
    ensures Concat(Chunks(lines)) == FileText(lines)
  {
    var b := Buffered(lines);
    BufferedIsText(lines);
    if b.buf != "" {
      ConcatOne(b.chunks, b.buf);
    }
  }

  // ---------------------------------------------------------------------------
  // A disk that takes `disk(k)` bytes of the k-th chunk
  // ---------------------------------------------------------------------------

  /** The first chunk that is not taken as a whole, or their number. */
  function FirstFailure(disk: nat -> nat, chunks: seq<string>): (f: nat)
    ensures f <= |chunks| && (f < |chunks| ==> disk(f) < |chunks[f]|)
    ensures forall k :: 0 <= k < f ==> disk(k) >= |chunks[k]|
  {
    if chunks == [] then 0
    else
      var n := |chunks| - 1;
      var f := FirstFailure(disk, chunks[..n]);
      if f < n || disk(n) < |chunks[n]| then f else n + 1
  }

  /** What reaches the file: nothing is written after a failure. */
  function Landed(disk: nat -> nat, chunks: seq<string>): string {
    var f := FirstFailure(disk, chunks);
    if f == |chunks| then Concat(chunks) else Concat(chunks[..f]) + chunks[f][..disk(f)]
  }

  /** How many of the lines are written before the writer has to hand on chunk `f`, and so are counted as exported. */
  function Counted(lines: seq<string>, f: nat): (n: nat)
    ensures n <= |lines|
  {
    if lines == [] || |Buffered(lines).chunks| <= f then |lines| else Counted(lines[..|lines| - 1], f)
  }

  lemma FailureUnique(disk: nat -> nat, chunks: seq<string>, f: nat)
    requires f <= |chunks| && (forall k :: 0 <= k < f ==> disk(k) >= |chunks[k]|)
    requires f < |chunks| ==> disk(f) < |chunks[f]|
    ensures FirstFailure(disk, chunks) == f
  {
  }

  // ---------------------------------------------------------------------------
  // bufio.Writer over a file
  // ---------------------------------------------------------------------------

  class BufferedWriter {
    const disk: nat -> nat
    /** What was appended to the file. */
    var file: string
    var buf: string
    /** The writer's sticky error. */
    var failed: bool
    /** The number of writes to the file. */
    var writes: nat
    /** The chunks handed on so far, a failed one included. */
    ghost var handed: seq<string>

    /** All chunks but the last were taken as a whole, and the last one exactly if there is no error. */
    ghost predicate Valid()
      reads this
    {
      && |buf| <= BUFFER_SIZE && writes == |handed| && file == Landed(disk, handed)
      && FirstFailure(disk, handed) == if failed then |handed| - 1 else |handed|
    }

    constructor (disk: nat -> nat)
      ensures this.disk == disk && Valid() && file == "" && buf == "" && !failed && handed == []
    {
      this.disk := disk;
      file, buf, failed, writes, handed := "", "", false, 0, [];
    }

    /** One write to the file. */
    method Append(s: string) returns (n: nat)
      requires Valid() && !failed && s != ""
      modifies this`file, this`writes, this`handed, this`failed
      ensures Valid() && handed == old(handed) + [s]
      ensures n == (if disk(|old(handed)|) < |s| then disk(|old(handed)|) else |s|) && failed == (n < |s|)
    {
      n := if disk(writes) < |s| then disk(writes) else |s|;
      HandOn(disk, handed, s);
      file := file + s[..n];
      handed := handed + [s];
      writes := writes + 1;
      failed := n < |s|;
    }

    method Flush() returns (ok: bool)
      requires Valid()
      modifies this
      ensures Valid() && ok == !failed
      ensures old(failed) || old(buf) == "" ==> failed == old(failed) && buf == old(buf) && handed == old(handed)
      ensures !old(failed) && old(buf) != "" ==> handed == old(handed) + [old(buf)] && (ok ==> buf == "")
    {
      if failed {
        return false;
      }
      if buf == "" {
        return true;
      }
      var n := Append(buf);
      buf := buf[n..];
      return !failed;
    }

    /** WriteString hands on the chunks of Emit until one of them is not taken; after that nothing more is written. */
    method WriteString(s: string) returns (ok: bool)
      requires Valid()
      modifies this
      ensures Valid() && ok == !failed
      ensures old(failed) ==> failed && handed == old(handed)
      ensures ok ==> handed == old(handed) + Emit(old(buf), s).chunks && buf == Emit(old(buf), s).buf
      ensures !ok && !old(failed) ==> |handed| > |old(handed)| && handed <= old(handed) + Emit(old(buf), s).chunks
    {
      hide Landed, FirstFailure;
      var rest := s;
      ghost var goal := Emit(buf, s);
      while |rest| > BUFFER_SIZE - |buf| && !failed
        invariant Valid()
        invariant old(failed) ==> failed && handed == old(handed)
        invariant !old(failed) ==> |handed| >= |old(handed)| && OnTheWay(handed, buf, rest, failed, old(handed), goal)
        decreases !failed, |rest|, |buf|
      {
        hide Emit, OnTheWay;
        ghost var before := handed;
        if buf == "" {
          var n := Append(rest);
          HandOnDirectly(before, rest, n, old(handed), goal);
          rest := rest[n..];
        } else {
          var n := BUFFER_SIZE - |buf|;
          HandOnFull(before, buf, rest, n, old(handed), goal);
          buf := buf + rest[..n];
          var _ := Flush();
          rest := rest[n..];
        }
      }
      if failed {
        return false;
      }
      buf := buf + rest;
      return true;
    }
  }

  /** WriteString with `rest` left to write: `goal` is what is handed on in all, unless a write has failed. */
  ghost predicate OnTheWay(handed: seq<string>, buf: string, rest: string, failed: bool, before: seq<string>,
                           goal: Split)
    requires |buf| <= BUFFER_SIZE
  {
    if failed then |handed| > |before| && handed <= before + goal.chunks
    else handed + Emit(buf, rest).chunks == before + goal.chunks && Emit(buf, rest).buf == goal.buf
  }

  lemma HandOnDirectly(handed: seq<string>, rest: string, n: nat, before: seq<string>, goal: Split)
    requires |rest| > BUFFER_SIZE && n <= |rest| && OnTheWay(handed, "", rest, false, before, goal)
    requires |handed| >= |before|
    ensures OnTheWay(handed + [rest], "", rest[n..], n < |rest|, before, goal)
  {
    assert Emit("", rest) == Split([rest], "");
    if n == |rest| {
      assert Emit("", rest[n..]) == Split([], "");
      assert handed + [rest] + [] == handed + [rest];
    }
  }

  lemma HandOnFull(handed: seq<string>, buf: string, rest: string, n: nat, before: seq<string>, goal: Split)
    requires buf != "" && n == BUFFER_SIZE - |buf| < |rest| && OnTheWay(handed, buf, rest, false, before, goal)
    requires |handed| >= |before|
    ensures OnTheWay(handed + [buf + rest[..n]], "", rest[n..], false, before, goal)
    ensures OnTheWay(handed + [buf + rest[..n]], "", rest[n..], true, before, goal)
  {
    var chunk, more := buf + rest[..n], Emit("", rest[n..]);
    assert Emit(buf, rest) == Split([chunk] + more.chunks, more.buf);
    hide Emit;
    assert handed + ([chunk] + more.chunks) == handed + [chunk] + more.chunks;
  }

  /** A further chunk after ones that were all taken fails exactly if the disk takes too little of it. */
  lemma FailureOfNext(disk: nat -> nat, handed: seq<string>, s: string)
    requires FirstFailure(disk, handed) == |handed|
    ensures FirstFailure(disk, handed + [s]) == if disk(|handed|) < |s| then |handed| else |handed| + 1
  {
    assert (handed + [s])[..|handed|] == handed;
  }

  lemma HandOn(disk: nat -> nat, handed: seq<string>, s: string)
    requires FirstFailure(disk, handed) == |handed|
    ensures var n := if disk(|handed|) < |s| then disk(|handed|) else |s|;
            && Landed(disk, handed + [s]) == Landed(disk, handed) + s[..n]
            && FirstFailure(disk, handed + [s]) == if n < |s| then |handed| else |handed| + 1
  {
    FailureOfNext(disk, handed, s);
    hide FirstFailure, Concat;
    if disk(|handed|) < |s| {
      assert (handed + [s])[..|handed|] == handed && (handed + [s])[|handed|] == s;
    } else {
      ConcatOne(handed, s);
      assert s[..|s|] == s;
    }
  }

  // ---------------------------------------------------------------------------
  // The export
  // ---------------------------------------------------------------------------

  /** After `i` lines: nothing has failed, or the chunk that failed was the doing of the line after the counted ones. */
  ghost predicate InStep(lines: seq<string>, i: nat, handed: seq<string>, buf: string, failed: bool, exported: nat)
    requires i <= |lines|
  {
    if !failed then exported == i && handed == Buffered(lines[..i]).chunks && buf == Buffered(lines[..i]).buf
    else
      && exported < i && |Buffered(lines[..exported]).chunks| < |handed|
      && handed <= Buffered(lines[..exported + 1]).chunks
  }

  /** What WriteString promises of one line, and how the counter follows it. */
  ghost predicate WroteLine(handed: seq<string>, buf: string, failed: bool, line: string,
                            handed': seq<string>, buf': string, failed': bool, exported: nat, exported': nat)
    requires |buf| <= BUFFER_SIZE
  {
    && (failed ==> failed' && handed' == handed)
    && (!failed' ==> handed' == handed + Emit(buf, line).chunks && buf' == Emit(buf, line).buf)
    && (failed' && !failed ==> |handed'| > |handed| && handed' <= handed + Emit(buf, line).chunks)
    && exported' == if failed' then exported else exported + 1
  }

  lemma LineKeepsInStep(lines: seq<string>, i: nat, handed: seq<string>, buf: string, failed: bool, exported: nat,
                        handed': seq<string>, buf': string, failed': bool, exported': nat)
    requires i < |lines| && |buf| <= BUFFER_SIZE && InStep(lines, i, handed, buf, failed, exported)
    requires WroteLine(handed, buf, failed, lines[i] + "\n", handed', buf', failed', exported, exported')
    ensures InStep(lines, i + 1, handed', buf', failed', exported')
  {
    BufferedNext(lines, i);
    hide Buffered, Emit;
  }

  lemma BufferedNext(lines: seq<string>, i: nat)
    requires i < |lines|
    ensures var before, last := Buffered(lines[..i]), Emit(Buffered(lines[..i]).buf, lines[i] + "\n");
            Buffered(lines[..i + 1]) == Split(before.chunks + last.chunks, last.buf)
  {
    assert lines[..i + 1][..i] == lines[..i];
  }

  lemma {:induction false} BufferedGrows(lines: seq<string>, m: nat, n: nat)
    requires m <= n <= |lines|
    ensures Buffered(lines[..m]).chunks <= Buffered(lines[..n]).chunks
    decreases n - m
  {
    if m < n {
      BufferedGrows(lines, m, n - 1);
      BufferedNext(lines, n - 1);
    }
  }

  lemma {:induction false} CountedIs(lines: seq<string>, f: nat, n: nat)
    requires n <= |lines| && |Buffered(lines[..n]).chunks| <= f
    requires n < |lines| ==> |Buffered(lines[..n + 1]).chunks| > f
    ensures Counted(lines, f) == n
    decreases |lines|
  {
    if n == |lines| {
      assert lines[..n] == lines;
    } else {
      var init := lines[..|lines| - 1];
      BufferedGrows(lines, n + 1, |lines|);
      assert lines[..|lines|] == lines;
      assert init[..n] == lines[..n] && (n < |init| ==> init[..n + 1] == lines[..n + 1]);
      CountedIs(init, f, n);
    }
  }

  /** The final, deferred flush: what was handed on in all, and the first failure. */
  lemma AfterFlush(disk: nat -> nat, lines: seq<string>, handed: seq<string>, buf: string, failed: bool, exported: nat,
                   last: seq<string>, flushed: bool)
    requires InStep(lines, |lines|, handed, buf, failed, exported)
    requires failed || buf == "" ==> last == handed && flushed == !failed
    requires !failed && buf != "" ==> last == handed + [buf]
    requires FirstFailure(disk, last) == if flushed then |last| else |last| - 1
    ensures Landed(disk, last) == Landed(disk, Chunks(lines))
    ensures exported == Counted(lines, FirstFailure(disk, Chunks(lines)))
    ensures flushed == (FirstFailure(disk, Chunks(lines)) == |Chunks(lines)|)
  {
    assert lines[..|lines|] == lines;
    if failed {
      AfterFailure(disk, lines, exported, last);
    } else {
      assert last == Chunks(lines);
      hide Chunks, Landed, FirstFailure;
      CountedIs(lines, FirstFailure(disk, last), |lines|);
    }
  }

  /** A failure on the way: the chunks handed on are the first of all chunks. */
  lemma AfterFailure(disk: nat -> nat, lines: seq<string>, exported: nat, last: seq<string>)
    requires exported < |lines| && FirstFailure(disk, last) == |last| - 1
    requires |Buffered(lines[..exported]).chunks| < |last| && last <= Buffered(lines[..exported + 1]).chunks
    ensures Landed(disk, last) == Landed(disk, Chunks(lines))
    ensures exported == Counted(lines, FirstFailure(disk, Chunks(lines)))
    ensures FirstFailure(disk, Chunks(lines)) < |Chunks(lines)|
  {
    hide *;
    FirstOfAll(lines, exported, last);
    FailureOfLonger(disk, last, Chunks(lines));
    CountedIs(lines, |last| - 1, exported);
  }

  lemma FirstOfAll(lines: seq<string>, exported: nat, last: seq<string>)
    requires exported < |lines| && last <= Buffered(lines[..exported + 1]).chunks
    ensures |last| <= |Chunks(lines)| && forall k :: 0 <= k < |last| ==> last[k] == Chunks(lines)[k]
  {
    assert lines[..|lines|] == lines;
    BufferedGrows(lines, exported + 1, |lines|);
    StartOfStart(last, Buffered(lines[..exported + 1]).chunks, Buffered(lines).chunks, Chunks(lines));
  }

  lemma FailureOfLonger(disk: nat -> nat, last: seq<string>, chunks: seq<string>)
    requires FirstFailure(disk, last) == |last| - 1
    requires |last| <= |chunks| && forall k :: 0 <= k < |last| ==> last[k] == chunks[k]
    ensures FirstFailure(disk, chunks) == |last| - 1 && Landed(disk, chunks) == Landed(disk, last)
  {
    var f := |last| - 1;
    forall k | 0 <= k < f ensures disk(k) >= |chunks[k]| {
      assert disk(k) >= |last[k]|;
    }
    FailureUnique(disk, chunks, f);
    hide FirstFailure;
    assert last[..f] == chunks[..f];
  }

  lemma StartOfStart(a: seq<string>, b: seq<string>, c: seq<string>, d: seq<string>)
    requires a <= b <= c <= d
    ensures |a| <= |d| && forall k :: 0 <= k < |a| ==> a[k] == d[k]
  {
  }

  /** The loop over the rows. */
  method WriteRows(w: BufferedWriter, rows: seq<Row>, vendor: string, product: string)
    returns (exported: nat, errors: nat)
    requires w.Valid() && w.handed == [] && w.buf == "" && !w.failed
    modifies w
    ensures w.Valid() && exported + errors == |rows|
    ensures InStep(Lines(rows, vendor, product), |rows|, w.handed, w.buf, w.failed, exported)
  {
    hide Line, Landed, FirstFailure, Buffered, Emit, InStep;
    ghost var lines := Lines(rows, vendor, product);
    exported, errors := 0, 0;
    NothingYet(lines);
    var i := 0;
    while i < |rows|
      invariant 0 <= i <= |rows| && w.Valid() && exported + errors == i
      invariant InStep(lines, i, w.handed, w.buf, w.failed, exported)
    {
      ghost var handed, buf, failed, counted := w.handed, w.buf, w.failed, exported;
      var cef := FormatCEF(rows[i], vendor, product, CEF_VERSION);
      var ok := w.WriteString(cef + "\n");
      if ok {
        exported := exported + 1;
      } else {
        errors := errors + 1;
      }
      assert WroteLine(handed, buf, failed, cef + "\n", w.handed, w.buf, w.failed, counted, exported);
      LineKeepsInStep(lines, i, handed, buf, failed, counted, w.handed, w.buf, w.failed, exported);
      i := i + 1;
    }
  }

  /**
   Export to a file: the file holds what lands of the chunks, and the lines written before the first chunk that fails
   are counted as exported, all others as errors. `flushed` is the result of the deferred flush, which the code drops.
   */
  method Export(rows: seq<Row>, vendor: string, product: string, disk: nat -> nat)
    returns (file: string, exported: nat, errors: nat, flushed: bool)
    ensures var lines := Lines(rows, vendor, product);
            && file == Landed(disk, Chunks(lines))
            && exported == Counted(lines, FirstFailure(disk, Chunks(lines))) && exported + errors == |rows|
            && flushed == (FirstFailure(disk, Chunks(lines)) == |Chunks(lines)|)
  {
    hide Line, Lines, Landed, FirstFailure, Buffered, Emit, InStep, Chunks, Counted;
    ghost var lines := Lines(rows, vendor, product);
    var w := new BufferedWriter(disk);
    exported, errors := WriteRows(w, rows, vendor, product);
    ghost var handed, buf, failed := w.handed, w.buf, w.failed;
    flushed := w.Flush();
    file := w.file;
    AfterFlush(disk, lines, handed, buf, failed, exported, w.handed, flushed);
  }

  lemma NothingYet(lines: seq<string>)
    ensures InStep(lines, 0, [], "", false, 0)
  {
    assert lines[..0] == [];
  }

  // ---------------------------------------------------------------------------
  // When the counted lines are in the file
  // ---------------------------------------------------------------------------

  lemma LandedIsStart(disk: nat -> nat, chunks: seq<string>)
    ensures Landed(disk, chunks) <= Concat(chunks)
    ensures var f := FirstFailure(disk, chunks);
            |Landed(disk, chunks)| == |Concat(chunks[..f])| + if f < |chunks| then disk(f) else 0
    ensures Landed(disk, chunks) == Concat(chunks) <==> FirstFailure(disk, chunks) == |chunks|
  {
    var f := FirstFailure(disk, chunks);
    hide Concat, FirstFailure;
    if f < |chunks| {
      SplitAtChunk(chunks, f);
      StartOfChunk(Concat(chunks[..f]), chunks[f], Concat(chunks[f + 1..]), disk(f));
    } else {
      assert chunks[..f] == chunks;
    }
  }

  lemma SplitAtChunk(chunks: seq<string>, f: nat)
    requires f < |chunks|
    ensures Concat(chunks) == Concat(chunks[..f]) + (chunks[f] + Concat(chunks[f + 1..]))
  {
    hide Concat;
    ConcatAppend(chunks[..f], chunks[f..]);
    ConcatAppend([chunks[f]], chunks[f + 1..]);
    ConcatSingle(chunks[f]);
    FromChunk(chunks, f);
  }

  lemma FromChunk(chunks: seq<string>, f: nat)
    requires f < |chunks|
    ensures chunks == chunks[..f] + chunks[f..] && chunks[f..] == [chunks[f]] + chunks[f + 1..]
  {
  }

  lemma ConcatSingle(chunk: string)
    ensures Concat([chunk]) == chunk
  {
    assert [chunk][..0] == [] && "" + chunk == chunk;
  }

  lemma StartOfChunk(head: string, chunk: string, rest: string, n: nat)
    requires n < |chunk|
    ensures head + chunk[..n] <= head + (chunk + rest) && |head + chunk[..n]| < |head + (chunk + rest)|
  {
  }

  /** The file is a start of the rows' lines, and all of them exactly when every chunk is taken. */
  lemma FileIsStart(disk: nat -> nat, lines: seq<string>)
    ensures Landed(disk, Chunks(lines)) <= FileText(lines)
    ensures Landed(disk, Chunks(lines)) == FileText(lines) <==> FirstFailure(disk, Chunks(lines)) == |Chunks(lines)|
  {
    ChunksAreText(lines);
    LandedIsStart(disk, Chunks(lines));
  }

  lemma {:induction false} CountedIsBefore(lines: seq<string>, f: nat)
    ensures var n := Counted(lines, f);
            |Buffered(lines[..n]).chunks| <= f && (n < |lines| ==> |Buffered(lines[..n + 1]).chunks| > f)
    decreases |lines|
  {
    assert lines[..|lines|] == lines;
    if lines != [] && |Buffered(lines).chunks| > f {
      var init := lines[..|lines| - 1];
      CountedIsBefore(init, f);
      var n := Counted(init, f);
      assert init[..n] == lines[..n] && (n < |init| ==> init[..n + 1] == lines[..n + 1]);
    }
  }

  lemma ConcatGrows(chunks: seq<string>, m: nat, n: nat)
    requires m <= n <= |chunks|
    ensures |Concat(chunks[..m])| <= |Concat(chunks[..n])|
  {
    assert chunks[..n] == chunks[..m] + chunks[m..n];
    ConcatAppend(chunks[..m], chunks[m..n]);
  }

  /** The chunk after those of the first `n` lines starts with what these left in the buffer. */
  lemma BufferGoesFirst(lines: seq<string>, n: nat)
    requires n <= |lines| && |Buffered(lines[..n]).chunks| < |Chunks(lines)|
    ensures Buffered(lines[..n]).chunks <= Chunks(lines)
    ensures n == |lines| || |Buffered(lines[..n + 1]).chunks| > |Buffered(lines[..n]).chunks|
            ==> Buffered(lines[..n]).buf <= Chunks(lines)[|Buffered(lines[..n]).chunks|]
  {
    assert lines[..|lines|] == lines;
    var b := Buffered(lines[..n]);
    BufferedGrows(lines, n, |lines|);
    if n < |lines| {
      BufferedNext(lines, n);
      BufferedGrows(lines, n + 1, |lines|);
      EmitKeepsText(b.buf, lines[n] + "\n");
      var next := Buffered(lines[..n + 1]).chunks;
      if |next| > |b.chunks| {
        assert next[|b.chunks|] == Emit(b.buf, lines[n] + "\n").chunks[0];
        assert Chunks(lines)[|b.chunks|] == next[|b.chunks|];
      }
    }
  }

  /**
   The exact condition for the counter. The lines counted as exported are all in the file exactly when every chunk is
   taken, or the chunk that fails is not the first after them, or the disk takes at least as much of it as they left
   in the buffer.
   */
  lemma CountedLinesInFileIff(disk: nat -> nat, lines: seq<string>)
    ensures var f := FirstFailure(disk, Chunks(lines));
            var n := Counted(lines, f);
            FileText(lines[..n]) <= Landed(disk, Chunks(lines))
            <==> f == |Chunks(lines)| || f > |Buffered(lines[..n]).chunks| || disk(f) >= |Buffered(lines[..n]).buf|
  {
    var chunks := Chunks(lines);
    var f := FirstFailure(disk, chunks);
    var n := Counted(lines, f);
    hide Chunks, Buffered, Landed, FirstFailure, Counted, Concat, FileText;
    CountedIsBefore(lines, f);
    FileIsStart(disk, lines);
    assert lines == lines[..n] + lines[n..];
    TextAppend(lines[..n], lines[n..]);
    BothStarts(FileText(lines[..n]), Landed(disk, chunks), FileText(lines));
    LandedIsStart(disk, chunks);
    if f == |chunks| {
      assert Landed(disk, chunks) == FileText(lines);
    } else {
      LengthReached(disk, lines, n, f);
    }
  }

  /** How many bytes are out when chunk `f` fails, against those of the first `n` lines. */
  lemma LengthReached(disk: nat -> nat, lines: seq<string>, n: nat, f: nat)
    requires n <= |lines| && |Buffered(lines[..n]).chunks| <= f < |Chunks(lines)|
    requires n < |lines| ==> |Buffered(lines[..n + 1]).chunks| > f
    ensures |Concat(Chunks(lines)[..f])| + disk(f) >= |FileText(lines[..n])|
            <==> f > |Buffered(lines[..n]).chunks| || disk(f) >= |Buffered(lines[..n]).buf|
  {
    var chunks, b := Chunks(lines), Buffered(lines[..n]);
    BufferedIsText(lines[..n]);
    BufferGoesFirst(lines, n);
    hide *;
    var e := |b.chunks|;
    StartIs(chunks, b.chunks);
    if f > e {
      ConcatGrows(chunks, e + 1, f);
      NextChunkCovers(chunks, e, b.buf);
    }
  }

  lemma StartIs(chunks: seq<string>, start: seq<string>)
    requires start <= chunks
    ensures chunks[..|start|] == start
  {
  }

  lemma NextChunkCovers(chunks: seq<string>, e: nat, buf: string)
    requires e < |chunks| && buf <= chunks[e]
    ensures |Concat(chunks[..e + 1])| >= |Concat(chunks[..e])| + |buf|
  {
    hide Concat;
    assert chunks[..e + 1] == chunks[..e] + [chunks[e]];
    ConcatOne(chunks[..e], chunks[e]);
  }

  lemma BothStarts(a: string, b: string, text: string)
    requires a <= text && b <= text
    ensures a <= b <==> |a| <= |b|
  {
  }

  /** Without an error counted, the counter is right exactly when no chunk fails. */
  lemma CleanCountInFileIff(disk: nat -> nat, lines: seq<string>)
    requires Counted(lines, FirstFailure(disk, Chunks(lines))) == |lines|
    ensures FileText(lines) <= Landed(disk, Chunks(lines)) <==> FirstFailure(disk, Chunks(lines)) == |Chunks(lines)|
  {
    FileIsStart(disk, lines);
  }

  /** An export that fits the buffer is counted in full whatever the disk does; one flush writes what it can. */
  lemma SmallExport(disk: nat -> nat, lines: seq<string>)
    requires 0 < |FileText(lines)| <= BUFFER_SIZE
    ensures Counted(lines, FirstFailure(disk, Chunks(lines))) == |lines|
    ensures var text := FileText(lines);
            Landed(disk, Chunks(lines)) == if disk(0) < |text| then text[..disk(0)] else text
  {
    SmallStaysInBuffer(lines);
    var text := FileText(lines);
    assert Chunks(lines) == [] + [text] == [text];
    assert lines[..|lines|] == lines;
    CountedIs(lines, FirstFailure(disk, Chunks(lines)), |lines|);
    HandOn(disk, [], text);
    assert Landed(disk, []) == "";
  }

  lemma {:induction false} SmallStaysInBuffer(lines: seq<string>)
    requires |FileText(lines)| <= BUFFER_SIZE
    ensures Buffered(lines) == Split([], FileText(lines))
  {
    if lines != [] {
      SmallStaysInBuffer(lines[..|lines| - 1]);
      assert FileText(lines) == FileText(lines[..|lines| - 1]) + (lines[|lines| - 1] + "\n");
    }
  }

  /**
   The input that fails with an error counted: the disk takes nothing, a first line that fits the buffer is counted,
   a second one longer than the buffer is the error, and the file is empty.
   */
  lemma CountedLineLost(disk: nat -> nat, short: string, long: string)
    requires disk(0) == 0 && |short| < BUFFER_SIZE < |long|
    ensures Counted([short, long], FirstFailure(disk, Chunks([short, long]))) == 1
    ensures Landed(disk, Chunks([short, long])) == "" && FileText([short]) != ""
  {
    var lines, s := [short, long], short + "\n";
    assert lines[..1] == [short] && [short][..0] == [] && lines[..2] == lines;
    assert FileText([short]) == "" + short + "\n" == s;
    SmallStaysInBuffer([short]);
    BufferedNext(lines, 1);
    EmitKeepsText(s, long + "\n");
    LongLineHandsOn(s, long + "\n");
    var chunks := Chunks(lines);
    assert chunks[0] == Emit(s, long + "\n").chunks[0];
    FailureUnique(disk, chunks, 0);
    CountedIs(lines, 0, 1);
    assert chunks[..0] == [];
  }

  lemma LongLineHandsOn(buf: string, s: string)
    requires buf != "" && |buf| <= BUFFER_SIZE < |s|
    ensures Emit(buf, s).chunks != []
  {
  }

  // ---------------------------------------------------------------------------
  // Reading the file back
  // ---------------------------------------------------------------------------

  /** Splits a file at its newlines; text after the last one is not a line. */
  function SplitLines(s: string, current: string): seq<string> {
    if s == "" then []
    else if s[0] == '\n' then [current] + SplitLines(s[1..], "")
    else SplitLines(s[1..], current + [s[0]])
  }

  lemma {:induction false} SplitOneLine(line: string, current: string, rest: string)
    requires '\n' !in line
    ensures SplitLines(line + "\n" + rest, current) == [current + line] + SplitLines(rest, "")
  {
    var s := line + "\n" + rest;
    if line == "" {
      assert s[1..] == rest && current + line == current;
    } else {
      assert s[1..] == line[1..] + "\n" + rest && s[0] == line[0];
      SplitOneLine(line[1..], current + [line[0]], rest);
      assert current + [line[0]] + line[1..] == current + line;
    }
  }

  lemma {:induction false} SplitUndoesFileText(lines: seq<string>, rest: string)
    requires forall i :: 0 <= i < |lines| ==> '\n' !in lines[i]
    ensures SplitLines(FileText(lines) + rest, "") == lines + SplitLines(rest, "")
  {
    if lines == [] {
      assert FileText(lines) + rest == rest;
    } else {
      var init, last := lines[..|lines| - 1], lines[|lines| - 1];
      SplitUndoesFileText(init, last + "\n" + rest);
      SplitOneLine(last, "", rest);
      assert "" + last == last;
      assert FileText(lines) + rest == FileText(init) + (last + "\n" + rest);
      assert init + ([last] + SplitLines(rest, "")) == lines + SplitLines(rest, "");
    }
  }

  /** A file that holds all the lines splits back into them, when no vendor, product or action breaks a line. */
  lemma ExportedFileReadsBack(rows: seq<Row>, vendor: string, product: string)
    requires '\n' !in vendor && '\n' !in product && forall r :: r in rows ==> '\n' !in r.ev.action
    ensures SplitLines(FileText(Lines(rows, vendor, product)), "") == Lines(rows, vendor, product)
  {
    var lines := Lines(rows, vendor, product);
    forall i | 0 <= i < |lines| ensures '\n' !in lines[i] {
      assert rows[i] in rows && '\n' !in CEF_VERSION;
      LineHasNoNewlineIff(rows[i], vendor, product, CEF_VERSION);
    }
    SplitUndoesFileText(lines, "");
    assert FileText(lines) + "" == FileText(lines);
  }
}
