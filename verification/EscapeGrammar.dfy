/** What the line sanitizer does, told by a grammar of terminal output instead of by
    index arithmetic: a line is a sequence of items, possibly cut off inside the last
    escape sequence, and exactly the printable items survive. */
module EscapeGrammar {
  import opened QemuLog

  // ---------------------------------------------------------------- bytes of a terminal

  /** A tab, a printing character of ASCII, or a byte beyond ASCII. */
  predicate KeptByte(b: byte) {
    b == 9 || 32 <= b <= 126 || 128 <= b
  }

  /** The last byte of a control sequence (ECMA-48, section 5.4). */
  predicate FinalByte(b: byte) {
    '@' as int <= b <= '~' as int
  }

  /** The bytes that announce one more byte, as in a character set designation. */
  predicate Designates(b: byte) {
    b as char in "()*+-./#%"
  }

  /** An operating system command is closed by BEL or by ESC and a backslash. */
  predicate ClosesAt(body: seq<byte>, k: nat)
    requires k < |body|
  {
    body[k] == 7 || (body[k] == 27 && k + 1 < |body| && body[k + 1] as char == '\\')
  }

  lemma SameBytes(b: byte)
    ensures KeptByte(b) <==> Printable(b)
    ensures FinalByte(b) <==> CSIFinal(b)
  {
  }

  lemma SameDesignators(b: byte)
    ensures Designates(b) <==> Designator(b)
  {
    var s := "()*+-./#%";
    assert s[0] == '(' && s[1] == ')' && s[2] == '*' && s[3] == '+' && s[4] == '-' && s[5] == '.' && s[6] == '/'
        && s[7] == '#' && s[8] == '%';
  }

  datatype Item =
    | Keep(b: byte)                          // a printable byte
    | Control(b: byte)                       // a control byte other than ESC
    | Csi(params: seq<byte>, final: byte)    // ESC [ params final
    | Osc(body: seq<byte>, bell: bool)       // ESC ] body, closed by BEL or by ESC backslash
    | Charset(kind: byte, arg: byte)         // ESC designator arg
    | Short(arg: byte)                       // ESC arg

  predicate NoFinal(params: seq<byte>) {
    forall k :: 0 <= k < |params| ==> !FinalByte(params[k])
  }

  predicate OpenOsc(body: seq<byte>) {
    forall k :: 0 <= k < |body| ==> !ClosesAt(body, k)
  }

  predicate WellFormed(item: Item) {
    match item
    case Keep(b) => KeptByte(b)
    case Control(b) => !KeptByte(b) && b != ESC
    case Csi(params, final) => NoFinal(params) && FinalByte(final)
    case Osc(body, _) => OpenOsc(body)
    case Charset(kind, _) => Designates(kind)
    case Short(arg) => arg != 0x5b && arg != 0x5d && !Designates(arg)
  }

  /** The ways a line can end inside an escape sequence; the empty tail is a line that does not. */
  predicate Unfinished(tail: seq<byte>) {
    || tail == []
    || tail == [ESC]
    || (|tail| >= 2 && tail[0] == ESC && tail[1] == 0x5b && NoFinal(tail[2..]))
    || (|tail| >= 2 && tail[0] == ESC && tail[1] == 0x5d && OpenOsc(tail[2..]))
    || (|tail| == 2 && tail[0] == ESC && Designates(tail[1]))
  }

  function Bytes(item: Item): (r: seq<byte>)
    ensures |r| > 0
  {
    match item
    case Keep(b) => [b]
    case Control(b) => [b]
    case Csi(params, final) => [ESC, 0x5b] + params + [final]
    case Osc(body, bell) => [ESC, 0x5d] + body + if bell then [BEL] else [ESC, BACKSLASH]
    case Charset(kind, arg) => [ESC, kind, arg]
    case Short(arg) => [ESC, arg]
  }

  function Line(items: seq<Item>, tail: seq<byte>): seq<byte> {
    if items == [] then tail else Bytes(items[0]) + Line(items[1..], tail)
  }

  function Kept(items: seq<Item>): seq<byte> {
    if items == [] then []
    else (if items[0].Keep? then [items[0].b] else []) + Kept(items[1..])
  }

  ghost predicate Parses(line: seq<byte>, items: seq<Item>, tail: seq<byte>) {
    && (forall k :: 0 <= k < |items| ==> WellFormed(items[k]))
    && Unfinished(tail)
    && line == Line(items, tail)
  }

  // ---------------------------------------------------------------- skipping one sequence

  lemma CSIStopIs(line: seq<byte>, idx: nat, r: nat)
    requires idx <= r <= |line|
    requires forall k :: idx <= k < r ==> !FinalByte(line[k])
    requires r < |line| ==> FinalByte(line[r])
    ensures CSIStop(line, idx) == r
  {
  }

  lemma OSCStopIs(line: seq<byte>, idx: nat, r: nat)
    requires idx <= r <= |line|
    requires forall k :: idx <= k < r ==> !OSCEndsAt(line, k)
    requires r < |line| ==> OSCEndsAt(line, r)
    ensures OSCStop(line, idx) == r
  {
  }

  lemma EscapeEndOfCsi(before: seq<byte>, params: seq<byte>, final: byte, after: seq<byte>)
    requires NoFinal(params) && FinalByte(final)
    ensures EscapeEnd(before + Bytes(Csi(params, final)) + after, |before|) == |before| + |params| + 3
  {
    var line, at := before + Bytes(Csi(params, final)) + after, |before|;
    assert line[at] == ESC && line[at + 1] == 0x5b && line[at + 2 + |params|] == final;
    assert line[at + 2..at + 2 + |params|] == params;
    forall k | at + 2 <= k < at + 2 + |params|
      ensures !FinalByte(line[k])
    {
      assert line[k] == params[k - at - 2];
    }
    CSIStopIs(line, at + 2, at + 2 + |params|);
  }

  lemma EscapeEndOfOsc(before: seq<byte>, body: seq<byte>, bell: bool, after: seq<byte>)
    requires OpenOsc(body)
    ensures EscapeEnd(before + Bytes(Osc(body, bell)) + after, |before|)
         == |before| + |Bytes(Osc(body, bell))|
  {
    var line, at := before + Bytes(Osc(body, bell)) + after, |before|;
    var end := at + 2 + |body|;
    assert line[at] == ESC && line[at + 1] == 0x5d;
    assert bell ==> line[end] == BEL;
    assert !bell ==> line[end] == ESC && line[end + 1] == BACKSLASH;
    forall k | at + 2 <= k < end
      ensures !OSCEndsAt(line, k)
    {
      assert line[k] == body[k - at - 2];
      assert k + 1 < end ==> line[k + 1] == body[k + 1 - at - 2];
      assert !ClosesAt(body, k - at - 2);
    }
    OSCStopIs(line, at + 2, end);
  }

  /** The skipper jumps over exactly one escape sequence. */
  lemma EscapeEndOfItem(before: seq<byte>, item: Item, after: seq<byte>)
    requires WellFormed(item) && !item.Keep? && !item.Control?
    ensures (before + Bytes(item) + after)[|before|] == ESC
    ensures EscapeEnd(before + Bytes(item) + after, |before|) == |before| + |Bytes(item)|
  {
    var line, at := before + Bytes(item) + after, |before|;
    assert line[at] == Bytes(item)[0] && line[at + 1] == Bytes(item)[1];
    match item {
      case Csi(params, final) => EscapeEndOfCsi(before, params, final, after);
      case Osc(body, bell) => EscapeEndOfOsc(before, body, bell, after);
      case Charset(_, _) =>
      case Short(_) =>
    }
  }

  lemma EscapeEndOfTail(before: seq<byte>, tail: seq<byte>)
    requires Unfinished(tail) && tail != []
    ensures tail[0] == ESC
    ensures EscapeEnd(before + tail, |before|) == |before| + |tail|
  {
    var line, at := before + tail, |before|;
    assert forall k :: 0 <= k < |tail| ==> line[at + k] == tail[k];
    if |tail| >= 2 && tail[1] == 0x5b {
      forall k | at + 2 <= k < |line|
        ensures !FinalByte(line[k])
      {
        assert line[k] == tail[2..][k - at - 2];
      }
      CSIStopIs(line, at + 2, |line|);
    } else if |tail| >= 2 && tail[1] == 0x5d {
      forall k | at + 2 <= k < |line|
        ensures !OSCEndsAt(line, k)
      {
        assert line[k] == tail[2..][k - at - 2];
        assert !ClosesAt(tail[2..], k - at - 2);
      }
      OSCStopIs(line, at + 2, |line|);
    }
  }

  lemma SanitizedTail(line: seq<byte>, at: nat, tail: seq<byte>)
    requires at <= |line| && line[at..] == tail && Unfinished(tail)
    ensures Sanitized(line, at) == []
  {
    if tail != [] {
      assert line == line[..at] + tail;
      EscapeEndOfTail(line[..at], tail);
      assert line[at] == tail[0];
    }
  }

  /** Sanitizing past one item. */
  lemma SanitizedItem(line: seq<byte>, at: nat, item: Item)
    requires WellFormed(item)
    requires at <= |line| && Bytes(item) <= line[at..]
    ensures at + |Bytes(item)| <= |line|
    ensures Sanitized(line, at)
         == (if item.Keep? then [item.b] else []) + Sanitized(line, at + |Bytes(item)|)
  {
    assert line[at] == Bytes(item)[0];
    if !item.Keep? && !item.Control? {
      assert line == line[..at] + Bytes(item) + line[at + |Bytes(item)|..];
      EscapeEndOfItem(line[..at], item, line[at + |Bytes(item)|..]);
    }
  }

  lemma DropItem(line: seq<byte>, at: nat, items: seq<Item>, tail: seq<byte>)
    requires items != [] && at <= |line| && line[at..] == Line(items, tail)
    ensures Bytes(items[0]) <= line[at..]
    ensures at + |Bytes(items[0])| <= |line|
    ensures line[at + |Bytes(items[0])|..] == Line(items[1..], tail)
  {
    assert line[at + |Bytes(items[0])|..] == line[at..][|Bytes(items[0])|..];
  }

  // ---------------------------------------------------------------- both directions

  /** However a line decomposes, the sanitizer returns the bytes of its printable items. */
  lemma {:induction false} SanitizedKeepsPrintable(line: seq<byte>, at: nat, items: seq<Item>, tail: seq<byte>)
    requires forall k :: 0 <= k < |items| ==> WellFormed(items[k])
    requires Unfinished(tail)
    requires at <= |line| && line[at..] == Line(items, tail)
    ensures Sanitized(line, at) == Kept(items)
    decreases |items|
  {
    hide Sanitized, Unfinished;
    if items == [] {
      SanitizedTail(line, at, tail);
      assert Sanitized(line, at) == Kept(items);
    } else {
      var item, rest := items[0], items[1..];
      var next := at + |Bytes(item)|;
      DropItem(line, at, items, tail);
      SanitizedKeepsPrintable(line, next, rest, tail);
      SanitizedItem(line, at, item);
      assert Kept(items) == (if item.Keep? then [item.b] else []) + Kept(rest);
      assert Sanitized(line, at) == Kept(items);
    }
  }

  lemma Prepend(item: Item, rest: seq<byte>, items: seq<Item>, tail: seq<byte>)
    requires WellFormed(item) && Parses(rest, items, tail)
    ensures Parses(Bytes(item) + rest, [item] + items, tail)
  {
    assert ([item] + items)[1..] == items;
  }

  lemma FirstOsc(line: seq<byte>) returns (found: bool, item: Item)
    requires |line| >= 2 && line[0] == ESC && line[1] == 0x5d
    ensures found ==> WellFormed(item) && Bytes(item) <= line
    ensures !found ==> Unfinished(line)
  {
    var end := OSCStop(line, 2);
    var body := line[2..end];
    forall k | 0 <= k < |body|
      ensures !ClosesAt(body, k)
    {
      assert body[k] == line[k + 2] && !OSCEndsAt(line, k + 2);
      assert k + 1 < |body| ==> body[k + 1] == line[k + 3];
    }
    found, item := end < |line|, Osc(body, end < |line| && line[end] == BEL);
    if !found {
      assert line[2..] == body;
    } else if !item.bell {
      assert OSCEndsAt(line, end) && line[end] == ESC && line[end + 1] == BACKSLASH;
      assert line[end..end + 2] == [ESC, BACKSLASH];
    }
  }

  lemma FirstCsi(line: seq<byte>) returns (found: bool, item: Item)
    requires |line| >= 2 && line[0] == ESC && line[1] == 0x5b
    ensures found ==> WellFormed(item) && Bytes(item) <= line
    ensures !found ==> Unfinished(line)
  {
    var end := CSIStop(line, 2);
    var params := line[2..end];
    assert forall k :: 0 <= k < |params| ==> params[k] == line[k + 2];
    assert NoFinal(params);
    found, item := end < |line|, Csi(params, if end < |line| then line[end] else 0x40);
    if !found {
      assert line[2..] == params;
    }
  }

  /** The first item of a line, or nothing when the line is an unfinished sequence. */
  lemma FirstItem(line: seq<byte>) returns (found: bool, item: Item)
    requires line != []
    ensures found ==> WellFormed(item) && Bytes(item) <= line
    ensures !found ==> Unfinished(line)
  {
    found, item := true, Short(0);
    SameBytes(line[0]);
    if |line| > 1 {
      SameDesignators(line[1]);
    }
    if line[0] != ESC {
      item := if KeptByte(line[0]) then Keep(line[0]) else Control(line[0]);
    } else if |line| == 1 {
      found := false;
    } else if line[1] == 0x5b {
      found, item := FirstCsi(line);
    } else if line[1] == 0x5d {
      found, item := FirstOsc(line);
    } else if Designates(line[1]) {
      if |line| == 2 {
        found := false;
      } else {
        item := Charset(line[1], line[2]);
      }
    } else {
      item := Short(line[1]);
    }
  }

  /** Every line decomposes. */
  lemma {:induction false} EveryLineParses(line: seq<byte>) returns (items: seq<Item>, tail: seq<byte>)
    ensures Parses(line, items, tail)
    decreases |line|
  {
    items, tail := [], line;
    if line != [] {
      var found, item := FirstItem(line);
      if found {
        var rest := line[|Bytes(item)|..];
        assert line == Bytes(item) + rest;
        items, tail := EveryLineParses(rest);
        Prepend(item, rest, items, tail);
        items := [item] + items;
      }
    }
  }

  /** The sanitizer's result is determined by the grammar alone: a line has a decomposition,
      and every decomposition it has keeps the same bytes. */
  lemma SanitizedByGrammar(line: seq<byte>)
    ensures exists items, tail :: Parses(line, items, tail)
    ensures forall items, tail :: Parses(line, items, tail) ==> Sanitized(line, 0) == Kept(items)
  {
    var items0, tail0 := EveryLineParses(line);
    forall items, tail | Parses(line, items, tail)
      ensures Sanitized(line, 0) == Kept(items)
    {
      SanitizedKeepsPrintable(line, 0, items, tail);
    }
  }
}
