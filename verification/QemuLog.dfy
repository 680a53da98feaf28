/** The console compactor: a byte-level state machine that splits the installer's
    serial output on CR, LF and CRLF, strips terminal escape sequences and collapses
    runs of blank lines. It is proved equal to a batch form that reads the whole text. */
module QemuLog {
  type byte = b: int | 0 <= b < 256

  const BEL: byte := 0x07
  const TAB: byte := 0x09
  const LF: byte := 0x0a
  const CR: byte := 0x0d
  const ESC: byte := 0x1b
  const SPACE: byte := 0x20
  const BACKSLASH: byte := 0x5c
  const DEL: byte := 0x7f

  // ---------------------------------------------------------------- bytes

  /** A byte that survives sanitizing. */
  predicate Printable(b: byte) {
    b == TAB || (b >= SPACE && b != DEL)
  }

  /** The final byte of a CSI sequence. */
  predicate CSIFinal(b: byte) {
    0x40 <= b <= 0x7e
  }

  /** The bytes that announce a three-byte escape: ( ) * + - . / # % */
  predicate Designator(b: byte) {
    b in [0x28, 0x29, 0x2a, 0x2b, 0x2d, 0x2e, 0x2f, 0x23, 0x25]
  }

  predicate Visible(line: seq<byte>) {
    exists k :: 0 <= k < |line| && line[k] > SPACE && line[k] != DEL
  }

  /** An OSC string ends with BEL or with ESC backslash. */
  predicate OSCEndsAt(line: seq<byte>, k: nat)
    requires k < |line|
  {
    line[k] == BEL || (line[k] == ESC && k + 1 < |line| && line[k + 1] == BACKSLASH)
  }

  // ---------------------------------------------------------------- escape sequences

  /** Where a CSI parameter string starting at idx stops. */
  function CSIStop(line: seq<byte>, idx: nat): (r: nat)
    requires idx <= |line|
    ensures idx <= r <= |line|
    ensures r == |line| || CSIFinal(line[r])
    ensures forall k :: idx <= k < r ==> !CSIFinal(line[k])
    decreases |line| - idx
  {
    if idx == |line| || CSIFinal(line[idx]) then idx else CSIStop(line, idx + 1)
  }

  function OSCStop(line: seq<byte>, idx: nat): (r: nat)
    requires idx <= |line|
    ensures idx <= r <= |line|
    ensures r < |line| ==> OSCEndsAt(line, r)
    ensures forall k :: idx <= k < r ==> !OSCEndsAt(line, k)
    decreases |line| - idx
  {
    if idx == |line| || OSCEndsAt(line, idx) then idx else OSCStop(line, idx + 1)
  }

  /** The index just after the escape sequence that starts at idx. A lone ESC followed by
      an unrecognised byte takes that byte with it. */
  function EscapeEnd(line: seq<byte>, idx: nat): (r: nat)
    requires idx < |line| && line[idx] == ESC
    ensures idx < r <= |line|
  {
    if idx + 1 == |line| then |line|
    else if line[idx + 1] == 0x5b then
      var k := CSIStop(line, idx + 2);
      if k == |line| then k else k + 1
    else if line[idx + 1] == 0x5d then
      var k := OSCStop(line, idx + 2);
      if k == |line| then k else if line[k] == BEL then k + 1 else k + 2
    else if Designator(line[idx + 1]) then
      if idx + 2 < |line| then idx + 3 else |line|
    else idx + 2
  }

  /** What the sanitizer keeps of line[idx..]. */
  function Sanitized(line: seq<byte>, idx: nat): (r: seq<byte>)
    requires idx <= |line|
    ensures forall k :: 0 <= k < |r| ==> Printable(r[k])
    decreases |line| - idx
  {
    if idx == |line| then []
    else if line[idx] == ESC then Sanitized(line, EscapeEnd(line, idx))
    else if Printable(line[idx]) then [line[idx]] + Sanitized(line, idx + 1)
    else Sanitized(line, idx + 1)
  }

  method SkipCSI(line: seq<byte>, start: nat) returns (idx: nat)
    requires start <= |line|
    ensures start <= idx <= |line|
    ensures idx == (var k := CSIStop(line, start); if k == |line| then k else k + 1)
  {
    idx := start;
    while idx < |line|
      invariant start <= idx <= |line|
      invariant CSIStop(line, idx) == CSIStop(line, start)
    {
      if 0x40 <= line[idx] && line[idx] <= 0x7e {
        return idx + 1;
      }
      idx := idx + 1;
    }
  }

  method SkipOSC(line: seq<byte>, start: nat) returns (idx: nat)
    requires start <= |line|
    ensures start <= idx <= |line|
    ensures idx == (var k := OSCStop(line, start);
                    if k == |line| then k else if line[k] == BEL then k + 1 else k + 2)
  {
    idx := start;
    while idx < |line|
      invariant start <= idx <= |line|
      invariant OSCStop(line, idx) == OSCStop(line, start)
    {
      if line[idx] == BEL {
        return idx + 1;
      }
      ghost var rest := line[idx..];
      assert rest[0] == line[idx] && (idx + 1 < |line| ==> rest[1] == line[idx + 1]);
      if [ESC, BACKSLASH] <= line[idx..] {
        return idx + 2;
      }
      idx := idx + 1;
    }
  }

  method SkipEscape(line: seq<byte>, idx: nat) returns (next: nat)
    requires idx < |line| && line[idx] == ESC
    ensures idx < next <= |line|
    ensures next == EscapeEnd(line, idx)
  {
    if idx + 1 >= |line| {
      return idx + 1;
    }
    if line[idx + 1] == 0x5b {
      next := SkipCSI(line, idx + 2);
    } else if line[idx + 1] == 0x5d {
      next := SkipOSC(line, idx + 2);
    } else if Designator(line[idx + 1]) {
      if idx + 2 < |line| {
        return idx + 3;
      }
      return |line|;
    } else {
      return idx + 2;
    }
  }

  method SanitizeLine(line: seq<byte>) returns (sanitized: seq<byte>)
    ensures sanitized == Sanitized(line, 0)
  {
    sanitized := [];
    var idx := 0;
    while idx < |line|
      invariant 0 <= idx <= |line|
      invariant Sanitized(line, 0) == sanitized + Sanitized(line, idx)
    {
      var b := line[idx];
      if b == ESC {
        idx := SkipEscape(line, idx);
      } else if b == TAB || (b >= SPACE && b != DEL) {
        sanitized := sanitized + [b];
        idx := idx + 1;
      } else {
        idx := idx + 1;
      }
    }
  }

  method HasVisibleContent(line: seq<byte>) returns (visible: bool)
    ensures visible == Visible(line)
  {
    var idx := 0;
    while idx < |line|
      invariant 0 <= idx <= |line|
      invariant forall k :: 0 <= k < idx ==> line[k] <= SPACE || line[k] == DEL
    {
      if !(line[idx] <= SPACE || line[idx] == DEL) {
        return true;
      }
      idx := idx + 1;
    }
    return false;
  }

  // ---------------------------------------------------------------- the batch form

  /** Position e is the end of the first line of s. */
  ghost predicate IsLineEnd(s: seq<byte>, e: nat) {
    && e <= |s|
    && (forall k :: 0 <= k < e ==> s[k] != CR && s[k] != LF)
    && (e < |s| ==> s[e] == CR || s[e] == LF)
  }

  lemma {:induction false} LineEndExists(s: seq<byte>)
    ensures exists e: nat :: IsLineEnd(s, e)
    decreases |s|
  {
    if s == [] || s[0] == CR || s[0] == LF {
      assert IsLineEnd(s, 0);
    } else {
      LineEndExists(s[1..]);
      var e: nat :| IsLineEnd(s[1..], e);
      assert forall k :: 0 < k <= e ==> s[k] == s[1..][k - 1];
      assert IsLineEnd(s, e + 1);
    }
  }

  /** Length of the longest terminator-free prefix. */
  ghost function LineEnd(s: seq<byte>): (e: nat)
    ensures IsLineEnd(s, e)
  {
    LineEndExists(s);
    var e: nat :| IsLineEnd(s, e);
    e
  }

  /** Where the text continues after its first line: CRLF is one terminator. */
  ghost function NextLine(s: seq<byte>): (n: nat)
    requires LineEnd(s) < |s|
    ensures LineEnd(s) < n <= |s|
  {
    var e := LineEnd(s);
    if s[e] == CR && e + 1 < |s| && s[e + 1] == LF then e + 2 else e + 1
  }

  /** The lines of s that a terminator closes. */
  ghost function Terminated(s: seq<byte>): seq<seq<byte>>
    decreases |s|
  {
    if LineEnd(s) == |s| then [] else [s[..LineEnd(s)]] + Terminated(s[NextLine(s)..])
  }

  /** What follows the last terminator of s. */
  ghost function Pending(s: seq<byte>): (p: seq<byte>)
    ensures forall k :: 0 <= k < |p| ==> p[k] != CR && p[k] != LF
    decreases |s|
  {
    if LineEnd(s) == |s| then s else Pending(s[NextLine(s)..])
  }

  /** Every line of a finished text: an unterminated, non-empty remainder is a line too. */
  ghost function Lines(s: seq<byte>): seq<seq<byte>> {
    Terminated(s) + if Pending(s) == [] then [] else [Pending(s)]
  }

  /** A line as shown: its printable bytes, or the empty line when nothing is visible. */
  function Shown(line: seq<byte>): (r: seq<byte>)
    ensures forall k :: 0 <= k < |r| ==> Printable(r[k])
    ensures r == [] || Visible(r)
  {
    var clean := Sanitized(line, 0);
    if Visible(clean) then clean else []
  }

  function ShownLines(lines: seq<seq<byte>>): (r: seq<seq<byte>>)
    ensures |r| == |lines|
    ensures forall k :: 0 <= k < |lines| ==> r[k] == Shown(lines[k])
  {
    seq(|lines|, k requires 0 <= k < |lines| => Shown(lines[k]))
  }

  /** Drops every blank line whose predecessor is blank. */
  function Collapse(lines: seq<seq<byte>>): seq<seq<byte>> {
    if lines == [] then []
    else
      var last := |lines| - 1;
      Collapse(lines[..last]) +
      if lines[last] == [] && last > 0 && lines[last - 1] == [] then [] else [lines[last]]
  }

  function Text(lines: seq<seq<byte>>): seq<byte> {
    if lines == [] then [] else Text(lines[..|lines| - 1]) + lines[|lines| - 1] + [LF]
  }

  /** The batch compactor. */
  ghost function Compact(s: seq<byte>): seq<byte> {
    Text(Collapse(ShownLines(Lines(s))))
  }

  // ---------------------------------------------------------------- the stream form

  /** The writer's fields together with everything its sink has received. */
  datatype Stream = Stream(line: seq<byte>, skipNextLF: bool, blank: bool, out: seq<byte>)

  const FRESH_STREAM := Stream([], false, false, [])

  function Emit(st: Stream): Stream {
    var clean := Sanitized(st.line, 0);
    if Visible(clean) then st.(line := [], blank := false, out := st.out + clean + [LF])
    else if st.blank then st.(line := [])
    else st.(line := [], blank := true, out := st.out + [LF])
  }

  function Step(st: Stream, b: byte): Stream {
    if st.skipNextLF && b == LF then st.(skipNextLF := false)
    else if b == CR then Emit(st).(skipNextLF := true)
    else if b == LF then Emit(st).(skipNextLF := false)
    else st.(line := st.line + [b], skipNextLF := false)
  }

  /** The stream after the bytes of p, one at a time. */
  function Feed(st: Stream, p: seq<byte>): Stream {
    if p == [] then st else Step(Feed(st, p[..|p| - 1]), p[|p| - 1])
  }

  function Flushed(st: Stream): Stream {
    if st.line == [] then st else Emit(st)
  }

  /** Writes made one after another. */
  function FeedAll(st: Stream, chunks: seq<seq<byte>>): Stream {
    if chunks == [] then st else Feed(FeedAll(st, chunks[..|chunks| - 1]), chunks[|chunks| - 1])
  }

  function Concat(chunks: seq<seq<byte>>): seq<byte> {
    if chunks == [] then [] else Concat(chunks[..|chunks| - 1]) + chunks[|chunks| - 1]
  }

  // ---------------------------------------------------------------- the writer

  /** The io.Writer behind the compactor; it never fails here. */
  class Sink {
    var written: seq<byte>

    constructor ()
      ensures written == []
    {
      written := [];
    }

    method Write(p: seq<byte>)
      modifies this
      ensures written == old(written) + p
    {
      written := written + p;
    }
  }

  class CompactingWriter {
    const out: Sink
    var line: seq<byte>
    var skipNextLF: bool
    var blank: bool

    constructor (out: Sink)
      ensures this.out == out
      ensures line == [] && !skipNextLF && !blank
    {
      this.out := out;
      line := [];
      skipNextLF := false;
      blank := false;
    }

    function State(): Stream
      reads this, out
    {
      Stream(line, skipNextLF, blank, out.written)
    }

    method EmitLine(buffered: seq<byte>)
      modifies this`blank, out
      ensures State() == Emit(old(State()).(line := buffered)).(line := line)
    {
      var clean := SanitizeLine(buffered);
      var visible := HasVisibleContent(clean);
      if !visible {
        if blank {
          return;
        }
        blank := true;
        out.Write([LF]);
        return;
      }
      out.Write(clean);
      out.Write([LF]);
      blank := false;
    }

    method EmitBufferedLine()
      modifies this, out
      ensures State() == Emit(old(State()))
    {
      var buffered := line;
      line := [];
      EmitLine(buffered);
    }

    method Write(p: seq<byte>) returns (n: nat)
      modifies this, out
      ensures State() == Feed(old(State()), p)
      ensures n == |p|
    {
      ghost var before := State();
      var idx := 0;
      assert p[..0] == [];
      while idx < |p|
        invariant 0 <= idx <= |p|
        invariant State() == Feed(before, p[..idx])
      {
        var b := p[idx];
        assert p[..idx + 1][..idx] == p[..idx];
        idx := idx + 1;
        if skipNextLF {
          skipNextLF := false;
          if b == LF {
            continue;
          }
        }
        if b == CR {
          EmitBufferedLine();
          skipNextLF := true;
        } else if b == LF {
          EmitBufferedLine();
        } else {
          line := line + [b];
        }
      }
      assert p[..idx] == p;
      return |p|;
    }

    method Flush()
      modifies this, out
      ensures State() == Flushed(old(State()))
    {
      if |line| == 0 {
        return;
      }
      EmitBufferedLine();
    }
  }

  // ---------------------------------------------------------------- chunk invariance

  lemma {:induction false} FeedAppend(st: Stream, a: seq<byte>, b: seq<byte>)
    ensures Feed(st, a + b) == Feed(Feed(st, a), b)
  {
    if b == [] {
      assert a + b == a;
    } else {
      var last := |b| - 1;
      assert (a + b)[..|a + b| - 1] == a + b[..last];
      FeedAppend(st, a, b[..last]);
    }
  }

  /** However a byte stream is cut into writes, state and output are those of one write. */
  lemma {:induction false} ChunkInvariance(st: Stream, chunks: seq<seq<byte>>)
    ensures FeedAll(st, chunks) == Feed(st, Concat(chunks))
  {
    if chunks != [] {
      var last := |chunks| - 1;
      ChunkInvariance(st, chunks[..last]);
      FeedAppend(st, Concat(chunks[..last]), chunks[last]);
    }
  }

  // ---------------------------------------------------------------- stream == batch

  predicate EndsInCR(s: seq<byte>) {
    s != [] && s[|s| - 1] == CR
  }

  lemma LineEndIs(s: seq<byte>, e: nat)
    requires IsLineEnd(s, e)
    ensures LineEnd(s) == e
  {
    assert !(LineEnd(s) < e) && !(e < LineEnd(s));
  }

  /** A text is its first line followed by the lines of the rest. */
  lemma FirstLine(t: seq<byte>, head: seq<byte>, rest: seq<byte>)
    requires LineEnd(t) < |t| && head == t[..LineEnd(t)] && rest == t[NextLine(t)..]
    ensures Terminated(t) == [head] + Terminated(rest)
    ensures Pending(t) == Pending(rest)
  {
  }

  /** Reading past the first line of s + [b] leaves what reading past the first line of s leaves. */
  lemma FirstLineOfExtension(s: seq<byte>, b: byte, head: seq<byte>, rest: seq<byte>)
    requires LineEnd(s) < |s| && head == s[..LineEnd(s)] && rest == s[NextLine(s)..]
    requires !(NextLine(s) == |s| && EndsInCR(s) && b == LF)
    ensures Terminated(s + [b]) == [head] + Terminated(rest + [b])
    ensures Pending(s + [b]) == Pending(rest + [b])
  {
    var t, e, n := s + [b], LineEnd(s), NextLine(s);
    LineEndIs(t, e);
    assert t[..e] == s[..e];
    assert NextLine(t) == n;
    assert t[n..] == rest + [b];
    FirstLine(t, head, rest + [b]);
  }

  lemma ExtendOnlyLine(s: seq<byte>, b: byte)
    requires LineEnd(s) == |s|
    ensures b == CR || b == LF ==> Terminated(s + [b]) == [s] && Pending(s + [b]) == []
    ensures b != CR && b != LF ==> Terminated(s + [b]) == [] && Pending(s + [b]) == s + [b]
  {
    var t := s + [b];
    if b == CR || b == LF {
      LineEndIs(t, |s|);
      assert t[NextLine(t)..] == [];
      assert t[..|s|] == s;
    } else {
      LineEndIs(t, |t|);
    }
  }

  /** A CR that closes the text absorbs a following LF. */
  lemma ExtendClosingCR(s: seq<byte>)
    requires LineEnd(s) < |s| && NextLine(s) == |s| && EndsInCR(s)
    ensures Terminated(s + [LF]) == Terminated(s) && Pending(s + [LF]) == Pending(s) == []
  {
    var t, e := s + [LF], LineEnd(s);
    LineEndIs(t, e);
    assert t[..e] == s[..e];
    assert e + 1 == |s| && NextLine(t) == |t|;
    assert t[|t|..] == [] && s[|s|..] == [];
  }

  /** An LF after a closing CR changes nothing. */
  lemma {:induction false} LinesAfterCRLF(s: seq<byte>)
    requires EndsInCR(s)
    ensures Terminated(s + [LF]) == Terminated(s) && Pending(s + [LF]) == Pending(s) == []
    decreases |s|
  {
    if LineEnd(s) == |s| {
      assert false;
    } else if NextLine(s) == |s| {
      ExtendClosingCR(s);
    } else {
      var head, rest := s[..LineEnd(s)], s[NextLine(s)..];
      FirstLine(s, head, rest);
      FirstLineOfExtension(s, LF, head, rest);
      assert rest[|rest| - 1] == s[|s| - 1];
      LinesAfterCRLF(rest);
    }
  }

  /** Any other CR or LF closes the pending line. */
  lemma {:induction false} LinesAfterTerminator(s: seq<byte>, b: byte)
    requires b == CR || (b == LF && !EndsInCR(s))
    ensures Terminated(s + [b]) == Terminated(s) + [Pending(s)] && Pending(s + [b]) == []
    decreases |s|
  {
    if LineEnd(s) == |s| {
      ExtendOnlyLine(s, b);
    } else {
      var head, rest := s[..LineEnd(s)], s[NextLine(s)..];
      FirstLine(s, head, rest);
      FirstLineOfExtension(s, b, head, rest);
      assert rest != [] ==> rest[|rest| - 1] == s[|s| - 1];
      LinesAfterTerminator(rest, b);
    }
  }

  /** Any other byte joins the pending line. */
  lemma {:induction false} LinesAfterData(s: seq<byte>, b: byte)
    requires b != CR && b != LF
    ensures Terminated(s + [b]) == Terminated(s) && Pending(s + [b]) == Pending(s) + [b]
    decreases |s|
  {
    if LineEnd(s) == |s| {
      ExtendOnlyLine(s, b);
    } else {
      var head, rest := s[..LineEnd(s)], s[NextLine(s)..];
      FirstLine(s, head, rest);
      FirstLineOfExtension(s, b, head, rest);
      LinesAfterData(rest, b);
    }
  }

  /** Whether the compactor considers the last line of a text blank. */
  ghost predicate LastShownBlank(lines: seq<seq<byte>>) {
    lines != [] && Shown(lines[|lines| - 1]) == []
  }

  /** The stream state that the lines of a text call for. */
  ghost function StreamOf(lines: seq<seq<byte>>, line: seq<byte>, skipNextLF: bool): Stream {
    Stream(line, skipNextLF, LastShownBlank(lines), Text(Collapse(ShownLines(lines))))
  }

  lemma TextAppend(lines: seq<seq<byte>>, line: seq<byte>)
    ensures Text(lines + [line]) == Text(lines) + line + [LF]
  {
    assert (lines + [line])[..|lines|] == lines;
  }

  /** Emitting the buffered line appends it to the batch output. */
  lemma EmitAppends(lines: seq<seq<byte>>, line: seq<byte>, skip: bool)
    ensures Emit(StreamOf(lines, line, skip)) == StreamOf(lines + [line], [], skip)
  {
    var all := ShownLines(lines + [line]);
    assert all[..|lines|] == ShownLines(lines);
    TextAppend(Collapse(ShownLines(lines)), Shown(line));
    assert Collapse(ShownLines(lines)) + [] == Collapse(ShownLines(lines));
    var clean := Sanitized(line, 0);
    if !Visible(clean) {
      assert Shown(line) == [];
    } else {
      assert Shown(line) == clean && clean != [];
    }
  }

  /** The byte-level machine computes exactly the lines of the text read so far. */
  lemma {:induction false} FeedIsBatch(s: seq<byte>)
    ensures Feed(FRESH_STREAM, s) == StreamOf(Terminated(s), Pending(s), EndsInCR(s))
    decreases |s|
  {
    if s == [] {
    } else {
      var n := |s| - 1;
      var r, b := s[..n], s[n];
      assert s == r + [b];
      FeedIsBatch(r);
      if b == LF && EndsInCR(r) {
        LinesAfterCRLF(r);
      } else if b == CR || b == LF {
        LinesAfterTerminator(r, b);
        EmitAppends(Terminated(r), Pending(r), EndsInCR(r));
      } else {
        LinesAfterData(r, b);
      }
    }
  }

  /** Writing a text in any chunks and flushing yields the batch compaction of the text. */
  lemma {:induction false} WriterRefinesCompact(chunks: seq<seq<byte>>)
    ensures Flushed(FeedAll(FRESH_STREAM, chunks)).out == Compact(Concat(chunks))
  {
    var s := Concat(chunks);
    ChunkInvariance(FRESH_STREAM, chunks);
    FeedIsBatch(s);
    if Pending(s) == [] {
      assert Lines(s) == Terminated(s);
    } else {
      EmitAppends(Terminated(s), Pending(s), EndsInCR(s));
    }
  }

  // ---------------------------------------------------------------- normal form

  predicate PrintableLine(line: seq<byte>) {
    forall k :: 0 <= k < |line| ==> Printable(line[k])
  }

  /** On a sanitized line everything but tabs and spaces is visible. */
  lemma InvisibleIsBlank(line: seq<byte>)
    requires PrintableLine(line)
    ensures !Visible(line) <==> forall k :: 0 <= k < |line| ==> line[k] == TAB || line[k] == SPACE
  {
    if !Visible(line) {
      forall k | 0 <= k < |line|
        ensures line[k] == TAB || line[k] == SPACE
      {
        assert Printable(line[k]);
      }
    }
  }

  predicate ShownForm(line: seq<byte>) {
    PrintableLine(line) && (line == [] || Visible(line))
  }

  /** The lines of a compacted text. */
  ghost predicate NormalLines(lines: seq<seq<byte>>) {
    && (forall i :: 0 <= i < |lines| ==> ShownForm(lines[i]))
    && (forall i :: 0 < i < |lines| ==> lines[i - 1] != [] || lines[i] != [])
  }

  lemma {:induction false} CollapseIsNormal(lines: seq<seq<byte>>)
    requires forall i :: 0 <= i < |lines| ==> ShownForm(lines[i])
    ensures NormalLines(Collapse(lines))
    ensures lines != [] ==> Collapse(lines) != [] &&
                            Collapse(lines)[|Collapse(lines)| - 1] == lines[|lines| - 1]
  {
    if lines != [] {
      var last := |lines| - 1;
      CollapseIsNormal(lines[..last]);
    }
  }

  lemma {:induction false} CollapseOfNormal(lines: seq<seq<byte>>)
    requires NormalLines(lines)
    ensures Collapse(lines) == lines
  {
    if lines != [] {
      CollapseOfNormal(lines[..|lines| - 1]);
    }
  }

  lemma {:induction false} SanitizedPrintable(line: seq<byte>, idx: nat)
    requires idx <= |line|
    requires PrintableLine(line)
    ensures Sanitized(line, idx) == line[idx..]
    decreases |line| - idx
  {
    if idx < |line| {
      SanitizedPrintable(line, idx + 1);
    }
  }

  lemma TerminatedAfterLF(t: seq<byte>, init: seq<seq<byte>>, line: seq<byte>)
    requires Terminated(t) == init && Pending(t) == line && !EndsInCR(t)
    ensures Terminated(t + [LF]) == init + [line] && Pending(t + [LF]) == [] && !EndsInCR(t + [LF])
  {
    LinesAfterTerminator(t, LF);
  }

  lemma {:induction false} ExtendByPrintable(s: seq<byte>, line: seq<byte>, n: nat)
    requires n <= |line|
    requires Pending(s) == []
    requires PrintableLine(line)
    ensures Terminated(s + line[..n]) == Terminated(s) && Pending(s + line[..n]) == line[..n]
  {
    hide Terminated, Pending;
    if n == 0 {
      assert s + line[..0] == s;
    } else {
      var before := s + line[..n - 1];
      ExtendByPrintable(s, line, n - 1);
      assert s + line[..n] == before + [line[n - 1]];
      LinesAfterData(before, line[n - 1]);
      assert line[..n] == line[..n - 1] + [line[n - 1]];
    }
  }

  /** A text of terminator-free lines is split back into those lines. */
  lemma {:induction false} TerminatedOfText(lines: seq<seq<byte>>)
    requires forall i :: 0 <= i < |lines| ==> PrintableLine(lines[i])
    ensures Terminated(Text(lines)) == lines && Pending(Text(lines)) == []
    ensures !EndsInCR(Text(lines))
  {
    if lines != [] {
      var init, line := lines[..|lines| - 1], lines[|lines| - 1];
      hide Terminated, Pending;
      TerminatedOfText(init);
      ExtendByPrintable(Text(init), line, |line|);
      assert line[..|line|] == line;
      TerminatedAfterLF(Text(init) + line, init, line);
      assert lines == init + [line];
    }
  }

  lemma {:induction false} TextBytes(lines: seq<seq<byte>>)
    requires forall i :: 0 <= i < |lines| ==> PrintableLine(lines[i])
    ensures forall k :: 0 <= k < |Text(lines)| ==> Printable(Text(lines)[k]) || Text(lines)[k] == LF
  {
    if lines != [] {
      TextBytes(lines[..|lines| - 1]);
    }
  }

  /** Every compacted text is a sequence of printable lines with no two blank lines in a row. */
  lemma CompactIsNormal(s: seq<byte>)
    ensures NormalLines(Collapse(ShownLines(Lines(s))))
    ensures Lines(Compact(s)) == Collapse(ShownLines(Lines(s)))
    ensures ESC !in Compact(s) && CR !in Compact(s)
  {
    hide Terminated, Pending, Sanitized, Collapse;
    var lines := Collapse(ShownLines(Lines(s)));
    CollapseIsNormal(ShownLines(Lines(s)));
    TerminatedOfText(lines);
    TextBytes(lines);
  }

  /** Compacting a compacted text changes nothing. */
  lemma CompactIdempotent(s: seq<byte>)
    ensures Compact(Compact(s)) == Compact(s)
  {
    var lines := Collapse(ShownLines(Lines(s)));
    CompactIsNormal(s);
    forall i | 0 <= i < |lines|
      ensures Shown(lines[i]) == lines[i]
    {
      SanitizedPrintable(lines[i], 0);
    }
    assert ShownLines(lines) == lines;
    CollapseOfNormal(lines);
  }
}
