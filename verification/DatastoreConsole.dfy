/** Streaming a console log out of a vCenter datastore: the log is polled with HTTP range
    requests and its bytes are pushed through the console compactor. */
module DatastoreConsole {
  import opened QemuLog
  import opened Text
  import opened Decimal

  // ---------------------------------------------------------------- HTTP

  const OK := 200
  const PARTIAL_CONTENT := 206
  const NOT_FOUND := 404
  const METHOD_NOT_ALLOWED := 405
  const RANGE_NOT_SATISFIABLE := 416
  const NOT_IMPLEMENTED := 501

  /** An error value: its text, the status it carries when it is a datastore status error,
      and whether it wraps a cancelled context. */
  datatype Error = Error(text: string, status: Option<nat>, cancelled: bool)

  /** What one request brings back: no response, or a response whose body may break off. */
  datatype Reply =
    | NoReply(cause: Error)
    | Reply(
        status: nat,
        statusText: string,
        contentLength: int,           // negative when unknown
        lengthHeader: string,
        contentRange: string,
        body: seq<byte>,
        bodyError: Option<Error>)

  function Plain(text: string): Error {
    Error(text, None, false)
  }

  function StatusError(verb: string, path: string, r: Reply): Error
    requires r.Reply?
  {
    Error(verb + path + ": " + r.statusText, Some(r.status), false)
  }

  /** The text of an error mentions a missing file. */
  predicate SaysMissing(text: string) {
    var msg := Lower(text);
    Contains(msg, "404") || Contains(msg, "not found") || Contains(msg, "no such file")
  }

  /** isMissingConsoleLog */
  predicate IsMissing(e: Error) {
    e.status == Some(NOT_FOUND) || SaysMissing(e.text)
  }

  function ResponseContentLength(r: Reply): Option<int>
    requires r.Reply?
  {
    if r.contentLength >= 0 then Some(r.contentLength)
    else
      var raw := TrimSpace(r.lengthHeader);
      if raw == "" then None
      else
        var size := ParseInt64(raw);
        if size.None? || size.value < 0 then None else size
  }

  /** strings.LastIndex(s, "/"); |s| stands for "not there". */
  function LastSlash(s: string): (k: nat)
    ensures k <= |s|
    ensures k < |s| ==> s[k] == '/'
    ensures k < |s| ==> forall j :: k < j < |s| ==> s[j] != '/'
    ensures k == |s| ==> '/' !in s
  {
    if s == "" then 0
    else if s[|s| - 1] == '/' then |s| - 1
    else
      var k := LastSlash(s[..|s| - 1]);
      if k == |s| - 1 then |s| else k
  }

  function ParseContentRangeTotal(header: string): Option<int> {
    var h := TrimSpace(header);
    var slash := LastSlash(h);
    if slash >= |h| - 1 then None
    else
      var rawTotal := TrimSpace(h[slash + 1..]);
      if rawTotal == "*" then None
      else
        var total := ParseInt64(rawTotal);
        if total.None? || total.value < 0 then None else total
  }

  // ---------------------------------------------------------------- the tailer

  /** How the datastore answers during one poll; the read depends on the range asked for. */
  datatype Server = Server(head: Reply, probe: Reply, read: (nat, nat) -> Reply)

  function HeadSize(path: string, r: Reply): Result<int, Error> {
    match r
    case NoReply(e) => Err(e)
    case Reply(status, _, _, _, _, _, _) =>
      if status == OK then
        match ResponseContentLength(r)
        case None => Err(Plain("HEAD " + path + " returned no content length"))
        case Some(size) => Ok(size)
      else if status == METHOD_NOT_ALLOWED || status == NOT_IMPLEMENTED then
        Err(Plain("HEAD " + path + ": " + r.statusText))
      else Err(StatusError("HEAD ", path, r))
  }

  function RangeProbeSize(path: string, r: Reply): Result<int, Error> {
    match r
    case NoReply(e) => Err(e)
    case Reply(status, _, _, _, contentRange, _, _) =>
      if status == PARTIAL_CONTENT then
        match ParseContentRangeTotal(contentRange)
        case None => Err(Plain("range probe " + path + " returned invalid Content-Range \"" + contentRange + "\""))
        case Some(size) => Ok(size)
      else if status == OK then
        match ResponseContentLength(r)
        case None => Err(Plain("range probe " + path + " returned full response without content length"))
        case Some(size) => Ok(size)
      else if status == RANGE_NOT_SATISFIABLE then
        match ParseContentRangeTotal(contentRange)
        case Some(size) => Ok(size)
        case None => Ok(0)
      else Err(StatusError("GET ", path, r))
  }

  function FileSize(path: string, server: Server): (r: Result<int, Error>)
    ensures r.Ok? ==> r.value >= 0
  {
    match HeadSize(path, server.head)
    case Ok(size) => Ok(size)
    case Err(e) => if IsMissing(e) then Err(e) else RangeProbeSize(path, server.probe)
  }

  /** The bytes read and the new offset. */
  function ReadRange(path: string, start: nat, r: Reply): Result<(seq<byte>, int), Error> {
    match r
    case NoReply(e) => Err(e)
    case Reply(status, _, _, _, contentRange, body, bodyError) =>
      if status == PARTIAL_CONTENT then
        match bodyError
        case Some(e) => Err(e)
        case None => Ok((body, start + |body|))
      else if status == OK then
        match bodyError
        case Some(e) => Err(e)
        case None =>
          if |body| < start then Ok((body, |body|)) else Ok((body[start..], |body|))
      else if status == RANGE_NOT_SATISFIABLE then
        match ParseContentRangeTotal(contentRange)
        case Some(size) => Ok(([], size))
        case None => Ok(([], start))
      else Err(StatusError("GET ", path, r))
  }

  function TailOfSize(path: string, server: Server, offset: nat, size: nat): (r: Result<(seq<byte>, int), Error>)
    ensures r.Ok? ==> r.value.1 >= 0
  {
    var start := if size < offset then 0 else offset;
    if size == start then Ok(([], start))
    else ReadRange(path, start, server.read(start, size - 1))
  }

  function Tail(path: string, server: Server, offset: nat): (r: Result<(seq<byte>, int), Error>)
    ensures r.Ok? ==> r.value.1 >= 0
  {
    match FileSize(path, server)
    case Err(e) => Err(e)
    case Ok(size) => TailOfSize(path, server, offset, size)
  }

  // ---------------------------------------------------------------- the streamer

  /** The streamer's counters with the state of its compactor. */
  datatype Progress = Progress(stream: Stream, offset: nat, bytesRead: nat)

  const START_OF_LOG := Progress(FRESH_STREAM, 0, 0)

  function PollOf(path: string, server: Server, p: Progress): Progress {
    match Tail(path, server, p.offset)
    case Err(_) => p
    case Ok((chunk, newOffset)) =>
      Progress(Feed(p.stream, chunk), newOffset, p.bytesRead + |chunk|)
  }

  function LastOf(warnings: seq<string>): string {
    if warnings == [] then "" else warnings[|warnings| - 1]
  }

  /** The warnings shown after one more poll. */
  function WarningsAfter(shown: seq<string>, poll: Result<(seq<byte>, int), Error>): seq<string> {
    if poll.Ok? || IsMissing(poll.error) || poll.error.cancelled || poll.error.text == LastOf(shown) then shown
    else shown + [poll.error.text]
  }

  class ConsoleStreamer {
    const path: string
    const zeroBytesWarning: seq<byte>
    const out: Sink
    const writer: CompactingWriter
    var offset: nat
    var bytesRead: nat
    var lastWarning: string
    var printed: seq<string>    // the warnings shown so far

    ghost predicate Valid()
      reads this
    {
      && writer.out == out
      && lastWarning == LastOf(printed)
      && forall k :: 0 < k < |printed| ==> printed[k - 1] != printed[k]
    }

    function Current(): Progress
      reads this, writer, writer.out
    {
      Progress(writer.State(), offset, bytesRead)
    }

    constructor (path: string, zeroBytesWarning: seq<byte>, out: Sink)
      ensures this.path == path && this.zeroBytesWarning == zeroBytesWarning && this.out == out
      ensures Valid() && fresh(writer)
      ensures Current() == START_OF_LOG.(stream := FRESH_STREAM.(out := out.written))
      ensures printed == [] && lastWarning == ""
    {
      this.path := path;
      this.zeroBytesWarning := zeroBytesWarning;
      this.out := out;
      writer := new CompactingWriter(out);
      offset, bytesRead := 0, 0;
      lastWarning, printed := "", [];
    }

    method Poll(server: Server) returns (err: Option<Error>)
      requires Valid()
      modifies this`offset, this`bytesRead, writer, out
      ensures Valid()
      ensures Current() == PollOf(path, server, old(Current()))
      ensures err.Some? <==> Tail(path, server, old(offset)).Err? &&
                             !IsMissing(Tail(path, server, old(offset)).error)
      ensures err.Some? ==> err.value == Tail(path, server, old(offset)).error
    {
      hide Tail, IsMissing;
      match Tail(path, server, offset) {
        case Err(e) =>
          return if IsMissing(e) then None else Some(e);
        case Ok((chunk, newOffset)) =>
          if |chunk| == 0 {
            offset := newOffset;
            return None;
          }
          var _ := writer.Write(chunk);
          bytesRead := bytesRead + |chunk|;
          offset := newOffset;
          return None;
      }
    }

    /** Valid() says that no warning is ever shown twice in a row. */
    method PollAndWarn(server: Server)
      requires Valid()
      modifies this, writer, out
      ensures Valid()
      ensures Current() == PollOf(path, server, old(Current()))
      ensures printed == WarningsAfter(old(printed), Tail(path, server, old(offset)))
    {
      var err := Poll(server);
      if err.Some? {
        if err.value.cancelled {
          return;
        }
        var msg := err.value.text;
        if msg != lastWarning {
          printed := printed + [msg];
          lastWarning := msg;
        }
      }
    }

    method Finish(server: Server)
      requires Valid()
      modifies this, writer, out
      ensures Valid()
      ensures var end := PollOf(path, server, old(Current()));
              && offset == end.offset && bytesRead == end.bytesRead
              && out.written == Flushed(end.stream).out
                                + if end.bytesRead == 0 then zeroBytesWarning else []
      ensures printed == WarningsAfter(old(printed), Tail(path, server, old(offset)))
    {
      PollAndWarn(server);
      writer.Flush();
      assert out.written == writer.State().out;
      if bytesRead == 0 {
        out.Write(zeroBytesWarning);
      }
    }
  }

  // ---------------------------------------------------------------- what servers promise

  function Positions(first: nat, last: nat): (r: string)
    ensures r != "" && r[0] == 'b'
  {
    "bytes " + Format(first) + "-" + Format(last)
  }

  /** Content-Range of a single part, and of an unsatisfied range (RFC 9110, section 14.4). */
  function PartRange(first: nat, last: nat, total: nat): string {
    Positions(first, last) + "/" + Format(total)
  }

  function UnknownTotalRange(first: nat, last: nat): string {
    Positions(first, last) + "/" + "*"
  }

  const NO_POSITIONS := "bytes *"

  function UnsatisfiedRange(total: nat): string {
    NO_POSITIONS + "/" + Format(total)
  }

  /** A length, where given, is the length of the file. */
  predicate HonestLength(r: Reply, file: seq<byte>)
    requires r.Reply?
  {
    && (r.contentLength >= 0 ==> r.contentLength == |file|)
    && (r.lengthHeader == "" || r.lengthHeader == Format(|file|))
  }

  predicate HonestHead(r: Reply, file: seq<byte>) {
    r.Reply? && r.status == OK ==> HonestLength(r, file)
  }

  /** Answers to "Range: bytes=0-0": a part, the whole file, or 416 when there is no first byte
      (RFC 9110, sections 14.2, 15.3.7 and 15.5.17). */
  predicate HonestProbe(r: Reply, file: seq<byte>) {
    r.Reply? ==>
      && (r.status == PARTIAL_CONTENT ==>
            r.contentRange == PartRange(0, 0, |file|) || r.contentRange == UnknownTotalRange(0, 0))
      && (r.status == OK ==> HonestLength(r, file))
      && (r.status == RANGE_NOT_SATISFIABLE ==>
            file == [] && (r.contentRange == "" || r.contentRange == UnsatisfiedRange(|file|)))
  }

  /** The reply brings bytes of the part first-last, which its Content-Range names. */
  predicate IsPart(r: Reply, file: seq<byte>, first: nat, last: nat)
    requires r.Reply?
  {
    && first <= last < |file|
    && (r.contentRange == PartRange(first, last, |file|) || r.contentRange == UnknownTotalRange(first, last))
    && r.body <= file[first..last + 1]
  }

  /** Answers to "Range: bytes=start-end": some part within the range asked for (RFC 9110, section
      15.3.7), or the whole file, or 416 when the file has no byte at start. */
  ghost predicate HonestRead(r: Reply, start: nat, end: nat, file: seq<byte>) {
    r.Reply? ==>
      && (r.status == PARTIAL_CONTENT && r.bodyError.None? ==>
            exists first: nat, last: nat :: start <= first && last <= end && IsPart(r, file, first, last))
      && (r.status == OK && r.bodyError.None? ==> r.body == file)
      && (r.status == RANGE_NOT_SATISFIABLE ==> start >= |file|)
  }

  /** One poll: the server's answers and the log as it was at each of the three requests. */
  datatype Visit = Visit(server: Server, atHead: seq<byte>, atProbe: seq<byte>, atRead: seq<byte>)

  ghost predicate Honest(v: Visit) {
    && v.atHead <= v.atProbe <= v.atRead
    && |v.atRead| <= MAX_INT64
    && HonestHead(v.server.head, v.atHead)
    && HonestProbe(v.server.probe, v.atProbe)
    && forall start: nat, end: nat :: HonestRead(v.server.read(start, end), start, end, v.atRead)
  }

  /** The Content-Range says that the part starts at a position. */
  predicate NamesStart(r: Reply, start: nat)
    requires r.Reply?
  {
    "bytes " + Format(start) + "-" <= r.contentRange
  }

  /** What the standard leaves open and the tailer relies on without a check. */
  ghost predicate StartsWhereAsked(server: Server) {
    forall start: nat, end: nat ::
      var r := server.read(start, end);
      r.Reply? && r.status == PARTIAL_CONTENT && r.bodyError.None? ==> NamesStart(r, start)
  }

  /** An append-only log, seen by honest servers. */
  ghost predicate AppendOnly(visits: seq<Visit>) {
    && (forall k :: 0 <= k < |visits| ==> Honest(visits[k]))
    && (forall k :: 0 < k < |visits| ==> visits[k - 1].atRead <= visits[k].atHead)
  }

  // ---------------------------------------------------------------- sizes

  lemma LastSlashIs(s: string, k: nat)
    requires k < |s| && s[k] == '/'
    requires forall j :: k < j < |s| ==> s[j] != '/'
    ensures LastSlash(s) == k
  {
  }

  lemma SplitAtSlash(h: string, unit: string, total: string)
    requires h == unit + "/" + total
    requires unit != "" && !IsSpace(unit[0])
    requires total != "" && !IsSpace(total[0]) && !IsSpace(total[|total| - 1]) && '/' !in total
    ensures TrimSpace(h) == h && LastSlash(h) == |unit| < |h| - 1
    ensures TrimSpace(h[|unit| + 1..]) == total
  {
    assert h[0] == unit[0] && h[|h| - 1] == total[|total| - 1] && h[|unit|] == '/';
    assert h[|unit| + 1..] == total;
    TrimSpaceTight(h);
    TrimSpaceTight(total);
    LastSlashIs(h, |unit|);
  }

  /** The total of a Content-Range is read back from whatever precedes the slash. */
  lemma TotalOfRange(unit: string, total: nat)
    requires unit != "" && !IsSpace(unit[0])
    requires total <= MAX_INT64
    ensures ParseContentRangeTotal(unit + "/" + Format(total)) == Some(total)
  {
    hide Format, TrimSpace, LastSlash, ParseInt64;
    var digits := Format(total);
    assert forall k :: 0 <= k < |digits| ==> IsDigit(digits[k]);
    SplitAtSlash(unit + "/" + digits, unit, digits);
    FormatRoundTrip(total);
  }

  lemma UnknownTotal(unit: string)
    requires unit != "" && !IsSpace(unit[0])
    ensures ParseContentRangeTotal(unit + "/" + "*") == None
  {
    SplitAtSlash(unit + "/" + "*", unit, "*");
  }

  /** The response says how long the file is. */
  predicate HasLength(r: Reply) {
    r.Reply? && (r.contentLength >= 0 || r.lengthHeader != "")
  }

  lemma LengthIsExact(r: Reply, file: seq<byte>)
    requires r.Reply? && HonestLength(r, file) && |file| <= MAX_INT64
    ensures ResponseContentLength(r) == if HasLength(r) then Some(|file|) else None
  {
    var digits := Format(|file|);
    assert IsDigit(digits[0]) && IsDigit(digits[|digits| - 1]);
    TrimSpaceTight(digits);
    FormatRoundTrip(|file|);
    TrimSpaceTight("");
  }

  lemma NoTotal()
    ensures ParseContentRangeTotal("") == None
  {
    assert TrimSpace("") == "";
  }

  /** A successful probe: a part that names the total, the whole file with its length, or the news that
      there is no first byte. */
  predicate ProbeHasSize(r: Reply, file: seq<byte>) {
    r.Reply? &&
    (|| (r.status == PARTIAL_CONTENT && r.contentRange == PartRange(0, 0, |file|))
     || (r.status == OK && HasLength(r))
     || r.status == RANGE_NOT_SATISFIABLE)
  }

  /** A probe succeeds exactly on those answers, and then with the length of the file. */
  lemma ProbeIsExact(path: string, r: Reply, file: seq<byte>)
    requires HonestProbe(r, file) && |file| <= MAX_INT64
    ensures RangeProbeSize(path, r).Ok? <==> ProbeHasSize(r, file)
    ensures RangeProbeSize(path, r).Ok? ==> RangeProbeSize(path, r).value == |file|
  {
    hide ParseContentRangeTotal, Format;
    if r.Reply? && r.status == OK {
      LengthIsExact(r, file);
    }
    TotalOfRange(Positions(0, 0), |file|);
    TotalOfRange(NO_POSITIONS, |file|);
    UnknownTotal(Positions(0, 0));
    NoTotal();
  }

  /** The size the tailer settles on is the log's size at one of its requests. */
  lemma SizeIsExact(path: string, v: Visit)
    requires Honest(v)
    ensures FileSize(path, v.server).Ok? ==>
              var size := FileSize(path, v.server).value;
              size == |v.atHead| || size == |v.atProbe|
  {
    if v.server.head.Reply? && v.server.head.status == OK {
      LengthIsExact(v.server.head, v.atHead);
    }
    ProbeIsExact(path, v.server.probe, v.atProbe);
  }

  // ---------------------------------------------------------------- one poll

  lemma DashEndsDigits(a: string, b: string, rest: string)
    requires AllDigits(a) && AllDigits(b) && b + "-" <= a + "-" + rest
    ensures a == b
  {
    var s := a + "-" + rest;
    assert s[|a|] == '-' && s[|b|] == (b + "-")[|b|] == '-';
    assert forall k :: 0 <= k < |a| ==> IsDigit(a[k]) && s[k] == a[k];
    assert forall k :: 0 <= k < |b| ==> IsDigit(b[k]) && s[k] == (b + "-")[k] == b[k];
    assert s[..|a|] == a && s[..|b|] == b;
  }

  lemma PrefixBehind(front: string, s: string, t: string)
    ensures front + s <= front + t <==> s <= t
  {
    assert (front + s)[|front|..] == s && (front + t)[|front|..] == t;
    if front + s <= front + t {
      assert t[..|s|] == (front + t)[|front|..|front| + |s|] == (front + s)[|front|..];
    }
    if s <= t {
      assert front + t == front + s + t[|s|..];
    }
  }

  /** A Content-Range names exactly one first position. */
  lemma NamedStart(r: Reply, file: seq<byte>, first: nat, last: nat, start: nat)
    requires r.Reply? && IsPart(r, file, first, last)
    ensures NamesStart(r, start) <==> first == start
  {
    hide Format;
    var a, b := Format(first), Format(start);
    var total := if r.contentRange == PartRange(first, last, |file|) then Format(|file|) else "*";
    var rest := Format(last) + "/" + total;
    assert r.contentRange == "bytes " + (a + "-" + rest);
    assert "bytes " + b + "-" == "bytes " + (b + "-");
    PrefixBehind("bytes ", b + "-", a + "-" + rest);
    if first == start {
      assert a + "-" <= a + "-" + rest;
    } else if NamesStart(r, start) {
      DashEndsDigits(a, b, rest);
      DigitsOfFormat(first);
      DigitsOfFormat(start);
    }
  }

  lemma PartBytes(r: Reply, log: seq<byte>, first: nat, last: nat)
    requires r.Reply? && IsPart(r, log, first, last)
    ensures |r.body| <= last + 1 - first && first + |r.body| <= |log|
    ensures r.body == log[first..first + |r.body|]
  {
    assert r.body == log[first..last + 1][..|r.body|] == log[first..first + |r.body|];
  }

  /** A range read that starts inside the log yields the bytes from there on. */
  lemma ReadIsNextBytes(path: string, r: Reply, start: nat, end: nat, log: seq<byte>)
    requires HonestRead(r, start, end, log) && start <= end < |log|
    requires r.Reply? && r.status == PARTIAL_CONTENT && r.bodyError.None? ==> NamesStart(r, start)
    ensures var got := ReadRange(path, start, r);
            got.Ok? ==> start <= got.value.1 <= |log| && got.value.0 == log[start..got.value.1]
  {
    hide NamesStart, IsPart;
    if r.Reply? && r.status == PARTIAL_CONTENT && r.bodyError.None? {
      var first: nat, last: nat :| start <= first && last <= end && IsPart(r, log, first, last);
      NamedStart(r, log, first, last, start);
      PartBytes(r, log, start, last);
    } else if r.Reply? && r.status == OK && r.bodyError.None? {
      assert log[start..] == log[start..|log|];
    }
  }

  lemma TailOfSizeIsNextBytes(path: string, v: Visit, offset: nat, size: nat)
    requires Honest(v) && StartsWhereAsked(v.server) && offset <= size <= |v.atRead|
    ensures var r := TailOfSize(path, v.server, offset, size);
            r.Ok? ==> offset <= r.value.1 <= |v.atRead| && r.value.0 == v.atRead[offset..r.value.1]
  {
    if size != offset {
      var r := v.server.read(offset, size - 1);
      assert HonestRead(r, offset, size - 1, v.atRead);
      ReadIsNextBytes(path, r, offset, size - 1, v.atRead);
    }
  }

  /** A poll of a grown log yields exactly the bytes between the old and the new offset. */
  lemma TailIsNextBytes(path: string, v: Visit, offset: nat)
    requires Honest(v) && StartsWhereAsked(v.server) && offset <= |v.atHead|
    ensures var r := Tail(path, v.server, offset);
            r.Ok? ==> offset <= r.value.1 <= |v.atRead| && r.value.0 == v.atRead[offset..r.value.1]
  {
    SizeIsExact(path, v);
    if FileSize(path, v.server).Ok? {
      TailOfSizeIsNextBytes(path, v, offset, FileSize(path, v.server).value);
    }
  }

  /** The whole file, or a part of the length asked for. */
  predicate IsWhole(r: Reply, length: nat) {
    && r.Reply? && r.bodyError.None?
    && (r.status == OK || (r.status == PARTIAL_CONTENT && |r.body| == length))
  }

  /** A poll from some offset learns the size, and what it then asks for arrives whole. */
  predicate ReadsWhole(path: string, server: Server, offset: nat) {
    && FileSize(path, server).Ok?
    && var size := FileSize(path, server).value;
       size > offset ==> IsWhole(server.read(offset, size - 1), size - offset)
  }

  /** When the size request succeeds and the read is not cut short, the poll catches up with the
      log as it was when its size was asked. */
  lemma TailCatchesUp(path: string, v: Visit, offset: nat)
    requires Honest(v) && offset <= |v.atHead| && ReadsWhole(path, v.server, offset)
    ensures var r := Tail(path, v.server, offset);
            r.Ok? && r.value.1 >= |v.atHead|
  {
    hide FileSize, IsPart, HonestHead, HonestProbe;
    SizeIsExact(path, v);
    var size := FileSize(path, v.server).value;
    if size != offset {
      var r := v.server.read(offset, size - 1);
      assert HonestRead(r, offset, size - 1, v.atRead);
    }
  }

  /** What every poll keeps: the bytes handed to the compactor are the log's first offset bytes. */
  ghost predicate Follows(p: Progress, log: seq<byte>) {
    && p.offset == p.bytesRead
    && p.offset <= |log|
    && p.stream == Feed(FRESH_STREAM, log[..p.offset])
  }

  lemma FeedFrom(log: seq<byte>, from: nat, to: nat)
    requires from <= to <= |log|
    ensures Feed(FRESH_STREAM, log[..to]) == Feed(Feed(FRESH_STREAM, log[..from]), log[from..to])
  {
    FeedAppend(FRESH_STREAM, log[..from], log[from..to]);
    assert log[..to] == log[..from] + log[from..to];
  }

  lemma PollFollows(path: string, v: Visit, p: Progress)
    requires Honest(v) && StartsWhereAsked(v.server) && Follows(p, v.atHead)
    ensures Follows(PollOf(path, v.server, p), v.atRead)
    ensures p.offset <= PollOf(path, v.server, p).offset
  {
    assert v.atRead[..p.offset] == v.atHead[..p.offset];
    TailIsNextBytes(path, v, p.offset);
    match Tail(path, v.server, p.offset) {
      case Err(_) =>
      case Ok((chunk, newOffset)) =>
        FeedFrom(v.atRead, p.offset, newOffset);
    }
  }

  lemma FollowsGrown(p: Progress, log: seq<byte>, grown: seq<byte>)
    requires Follows(p, log) && log <= grown
    ensures Follows(p, grown)
  {
    assert grown[..p.offset] == log[..p.offset];
  }

  /** A log that was truncated below the offset is read again from its first byte. */
  lemma TruncatedRestarts(path: string, v: Visit, p: Progress)
    requires Honest(v) && StartsWhereAsked(v.server)
    requires v.atHead == v.atProbe == v.atRead && |v.atHead| < p.offset
    ensures var q := PollOf(path, v.server, p);
            if Tail(path, v.server, p.offset).Err? then q == p
            else
              && q.offset <= |v.atRead|
              && q.stream == Feed(p.stream, v.atRead[..q.offset])
              && q.bytesRead == p.bytesRead + q.offset
  {
    SizeIsExact(path, v);
    TailIsNextBytes(path, v, 0);
    if FileSize(path, v.server).Ok? {
      assert Tail(path, v.server, p.offset) == Tail(path, v.server, 0);
    }
  }

  // ---------------------------------------------------------------- parts that start elsewhere

  /** The tailer has followed a log up to some offset, learns its size, and asks for the rest; what
      arrives is the part first-last. */
  ghost predicate PartArrives(path: string, server: Server, p: Progress, log: seq<byte>, first: nat, last: nat) {
    && Follows(p, log) && p.offset < |log|
    && FileSize(path, server) == Ok(|log|)
    && var r := server.read(p.offset, |log| - 1);
       r.Reply? && r.status == PARTIAL_CONTENT && r.bodyError.None? && IsPart(r, log, first, last)
  }

  lemma PartAtOffset(path: string, server: Server, p: Progress, log: seq<byte>, last: nat)
    requires PartArrives(path, server, p, log, p.offset, last)
    ensures Follows(PollOf(path, server, p), log)
  {
    hide FileSize, Feed, IsPart;
    var r := server.read(p.offset, |log| - 1);
    PartBytes(r, log, p.offset, last);
    FeedFrom(log, p.offset, p.offset + |r.body|);
  }

  function PartReply(log: seq<byte>, first: nat, last: nat): (r: Reply)
    requires first <= last < |log|
    ensures r.Reply? && IsPart(r, log, first, last)
  {
    Reply(PARTIAL_CONTENT, "", -1, "", PartRange(first, last, |log|), log[first..last + 1], None)
  }

  lemma {:induction false} FeedPlain(s: seq<byte>)
    requires forall k :: 0 <= k < |s| ==> s[k] != CR && s[k] != LF
    ensures Feed(FRESH_STREAM, s).line == s && !Feed(FRESH_STREAM, s).skipNextLF
  {
    if s != [] {
      FeedPlain(s[..|s| - 1]);
    }
  }

  /** Another byte at the offset shows in the compactor's state. */
  lemma DifferentText(log: seq<byte>, offset: nat, part: seq<byte>)
    requires part != [] && offset < |log| && part[0] != log[offset]
    requires forall k :: 0 <= k < |log| ==> log[k] != CR && log[k] != LF
    requires forall k :: 0 <= k < |part| ==> part[k] != CR && part[k] != LF
    ensures offset + |part| <= |log| ==>
              Feed(Feed(FRESH_STREAM, log[..offset]), part) != Feed(FRESH_STREAM, log[..offset + |part|])
  {
    hide Feed;
    if offset + |part| <= |log| {
      FeedAppend(FRESH_STREAM, log[..offset], part);
      FeedPlain(log[..offset] + part);
      FeedPlain(log[..offset + |part|]);
      assert (log[..offset] + part)[offset] == part[0];
      assert log[..offset + |part|][offset] == log[offset];
    }
  }

  /** A log that tells the position first from all others. */
  lemma PartElsewhere(path: string, offset: nat, first: nat, last: nat, total: nat)
    returns (log: seq<byte>, server: Server, p: Progress)
    requires first <= last < total && offset < total && first != offset
    ensures |log| == total && p.offset == offset && PartArrives(path, server, p, log, first, last)
    ensures !Follows(PollOf(path, server, p), log)
  {
    log := seq(total, i => if i == first then 0x62 else 0x61);
    var r := PartReply(log, first, last);
    var size := Reply(OK, "", total, "", "", [], None);
    server := Server(size, size, (_, _) => r);
    p := Progress(Feed(FRESH_STREAM, log[..offset]), offset, offset);
    hide Feed, IsPart;
    assert server.read(offset, total - 1) == r;
    DifferentText(log, offset, log[first..last + 1]);
    assert PartArrives(path, server, p, log, first, last);
  }

  /** The tailer does not compare the first position of a 206 with the one it asked for. So what
      it has delivered stays the log's beginning, for every log and server, exactly when the two
      positions are the same. */
  lemma PartMustStartAtOffset(path: string, offset: nat, first: nat, last: nat, total: nat)
    requires first <= last < total && offset < total
    ensures (forall log: seq<byte>, server: Server, p: Progress ::
               |log| == total && p.offset == offset && PartArrives(path, server, p, log, first, last) ==>
                 Follows(PollOf(path, server, p), log))
       <==> first == offset
  {
    if first == offset {
      forall log: seq<byte>, server: Server, p: Progress |
        |log| == total && p.offset == offset && PartArrives(path, server, p, log, first, last)
        ensures Follows(PollOf(path, server, p), log)
      {
        PartAtOffset(path, server, p, log, last);
      }
    } else {
      var log, server, p := PartElsewhere(path, offset, first, last, total);
    }
  }

  /** Such an answer: asked for both bytes of the log "ab", an honest server sends the second one,
      and the first one is never delivered. */
  lemma SkippedFirstByte(path: string) returns (v: Visit)
    ensures Honest(v) && v.atRead == [0x61, 0x62]
    ensures var q := PollOf(path, v.server, START_OF_LOG);
            q.stream == FRESH_STREAM.(line := [0x62]) && q.offset == 1 && !Follows(q, v.atRead)
  {
    var log: seq<byte> := [0x61, 0x62];
    var r := PartReply(log, 1, 1);
    var size := Reply(OK, "", 2, "", "", [], None);
    v := Visit(Server(size, size, (start, end) => if start <= 1 <= end then r else NoReply(Plain(""))), log, log, log);
    assert r.body == [0x62];
    assert [0x62][..0] == [] && log[..1] == [0x61] && [0x61][..0] == [];
    assert Feed(FRESH_STREAM, r.body) == Step(FRESH_STREAM, 0x62);
    assert Feed(FRESH_STREAM, log[..1]) == Step(FRESH_STREAM, 0x61);
  }

  // ---------------------------------------------------------------- whole runs

  function RunOf(path: string, visits: seq<Visit>): Progress {
    if visits == [] then START_OF_LOG
    else PollOf(path, visits[|visits| - 1].server, RunOf(path, visits[..|visits| - 1]))
  }

  lemma {:induction false} RunFollows(path: string, visits: seq<Visit>)
    requires AppendOnly(visits) && visits != []
    requires forall k :: 0 <= k < |visits| ==> StartsWhereAsked(visits[k].server)
    ensures Follows(RunOf(path, visits), visits[|visits| - 1].atRead)
  {
    var last := |visits| - 1;
    var before := RunOf(path, visits[..last]);
    if last == 0 {
      assert Follows(START_OF_LOG, visits[last].atHead) by {
        assert visits[last].atHead[..0] == [];
      }
    } else {
      RunFollows(path, visits[..last]);
      FollowsGrown(before, visits[last - 1].atRead, visits[last].atHead);
    }
    PollFollows(path, visits[last], before);
  }

  ghost predicate CaughtUp(path: string, visits: seq<Visit>)
    requires visits != []
  {
    var last := |visits| - 1;
    ReadsWhole(path, visits[last].server, RunOf(path, visits[..last]).offset) ==>
      RunOf(path, visits).offset >= |visits[last].atHead|
  }

  /** When the last poll of a run reads whole, the run has caught up with the log as it was when that
      poll began. */
  lemma RunCatchesUp(path: string, visits: seq<Visit>)
    requires AppendOnly(visits) && visits != []
    requires forall k :: 0 <= k < |visits| ==> StartsWhereAsked(visits[k].server)
    ensures CaughtUp(path, visits)
  {
    hide StartsWhereAsked, Honest, ReadsWhole, Tail;
    var last := |visits| - 1;
    var before := RunOf(path, visits[..last]);
    if last > 0 {
      RunFollows(path, visits[..last]);
    }
    if ReadsWhole(path, visits[last].server, before.offset) {
      TailCatchesUp(path, visits[last], before.offset);
    }
  }

  lemma FlushedIsCompact(s: seq<byte>)
    ensures Flushed(Feed(FRESH_STREAM, s)).out == Compact(s)
  {
    assert [s][..0] == [];
    assert FeedAll(FRESH_STREAM, [s]) == Feed(FRESH_STREAM, s);
    assert Concat([s]) == s;
    WriterRefinesCompact([s]);
  }

  /** Polling until the context ends and then finishing: the sink holds the batch compaction of
      the log's first `offset` bytes, or only the warning when no byte was read; and when the last
      poll reads whole, these are all the bytes that the log had when that poll began. */
  method StreamConsole(path: string, zeroBytesWarning: seq<byte>, visits: seq<Visit>)
    returns (written: seq<byte>, offset: nat)
    requires visits != [] && AppendOnly(visits)
    requires forall k :: 0 <= k < |visits| ==> StartsWhereAsked(visits[k].server)
    ensures offset <= |visits[|visits| - 1].atRead|
    ensures offset == 0 ==> written == zeroBytesWarning
    ensures offset > 0 ==> written == Compact(visits[|visits| - 1].atRead[..offset])
    ensures offset == RunOf(path, visits).offset
    ensures var last := |visits| - 1;
            ReadsWhole(path, visits[last].server, RunOf(path, visits[..last]).offset) ==>
              offset >= |visits[last].atHead|
  {
    var out := new Sink();
    var streamer := new ConsoleStreamer(path, zeroBytesWarning, out);
    var last := |visits| - 1;
    assert visits[..0] == [];
    for k := 0 to last
      invariant streamer.Valid() && streamer.Current() == RunOf(path, visits[..k])
    {
      streamer.PollAndWarn(visits[k].server);
      assert visits[..k + 1][..k] == visits[..k];
    }
    streamer.Finish(visits[last].server);
    RunFollows(path, visits);
    RunCatchesUp(path, visits);
    var log := visits[last].atRead;
    FlushedIsCompact(log[..streamer.offset]);
    if streamer.offset == 0 {
      assert log[..0] == [];
      assert Flushed(FRESH_STREAM).out == [];
    }
    written, offset := out.written, streamer.offset;
  }

  // ---------------------------------------------------------------- unsupported HEAD

  lemma MentionsAround(a: string, sep: char, b: string, phrase: string)
    requires sep !in phrase && LowerChar(sep) == sep
    ensures Contains(Lower(a + [sep] + b), phrase)
       <==> Contains(Lower(a), phrase) || Contains(Lower(b), phrase)
  {
    var s := Lower(a + [sep] + b);
    assert s[..|a|] == Lower(a) && s[|a| + 1..] == Lower(b);
    ContainsAround(s, |a|, phrase);
  }

  lemma MentionsAfter(prefix: string, s: string, phrase: string)
    requires phrase != "" && phrase[0] !in Lower(prefix)
    ensures Contains(Lower(prefix + s), phrase) <==> Contains(Lower(s), phrase)
  {
    LowerConcat(prefix, s);
    ContainsAfter(Lower(prefix), Lower(s), phrase);
  }

  lemma SaysMissingAfter(prefix: string, s: string)
    requires '4' !in Lower(prefix) && 'n' !in Lower(prefix)
    ensures SaysMissing(prefix + s) <==> SaysMissing(s)
  {
    MentionsAfter(prefix, s, "404");
    MentionsAfter(prefix, s, "not found");
    MentionsAfter(prefix, s, "no such file");
  }

  lemma SaysMissingAround(a: string, b: string)
    ensures SaysMissing(a + [':'] + b) <==> SaysMissing(a) || SaysMissing(b)
  {
    MentionsAround(a, ':', b, "404");
    MentionsAround(a, ':', b, "not found");
    MentionsAround(a, ':', b, "no such file");
  }

  lemma ErrorText(verb: string, path: string, statusText: string)
    requires '4' !in Lower(verb) && 'n' !in Lower(verb) && ':' !in verb
    ensures SaysMissing(verb + path + ": " + statusText) <==> SaysMissing(path) || SaysMissing(statusText)
  {
    hide SaysMissing;
    var text := verb + path + ": " + statusText;
    assert text == (verb + path) + [':'] + (" " + statusText);
    SaysMissingAround(verb + path, " " + statusText);
    SaysMissingAfter(verb, path);
    SaysMissingAfter(" ", statusText);
  }

  /** The text of the error for a failing HEAD names the path, and errors are classified by their
      text. */
  lemma UnsupportedHeadText(path: string, statusText: string)
    ensures SaysMissing("HEAD " + path + ": " + statusText)
       <==> SaysMissing(path) || SaysMissing(statusText)
  {
    ErrorText("HEAD ", path, statusText);
  }

  lemma GetErrorText(path: string, statusText: string)
    ensures SaysMissing("GET " + path + ": " + statusText)
       <==> SaysMissing(path) || SaysMissing(statusText)
  {
    ErrorText("GET ", path, statusText);
  }

  lemma SaysMissingAroundR(a: string, b: string)
    ensures SaysMissing(a + ['r'] + b) <==> SaysMissing(a) || SaysMissing(b)
  {
    MentionsAround(a, 'r', b, "404");
    MentionsAround(a, 'r', b, "not found");
    MentionsAround(a, 'r', b, "no such file");
  }

  lemma MentionsBeforeSpace(s: string, phrase: string)
    requires phrase != "" && phrase[|phrase| - 1] != ' '
    ensures Contains(Lower(s + " "), phrase) <==> Contains(Lower(s), phrase)
  {
    var low := Lower(s + " ");
    assert low[..|s|] == low[0..|s|] == Lower(s) && low[|s|] == ' ';
    if at: nat :| at <= |low| && OccursAt(low, phrase, at) {
      assert low[at + |phrase| - 1] == phrase[|phrase| - 1];
      OccursInPart(low, 0, |s|, phrase, at);
    }
    if Contains(Lower(s), phrase) {
      ContainsInPart(low, 0, |s|, phrase);
    }
  }

  lemma SaysMissingBeforeSpace(s: string)
    ensures SaysMissing(s + " ") <==> SaysMissing(s)
  {
    MentionsBeforeSpace(s, "404");
    MentionsBeforeSpace(s, "not found");
    MentionsBeforeSpace(s, "no such file");
  }

  lemma LacksPhrase(s: string, phrase: string, c: char)
    requires c in phrase && c !in s
    ensures !Contains(s, phrase)
  {
    assert forall at: nat :: OccursAt(s, phrase, at) ==> forall k :: 0 <= k < |phrase| ==> s[at + k] == phrase[k];
  }

  lemma PlainEnding()
    ensures !SaysMissing("eturned no content length")
  {
    var low := Lower("eturned no content length");
    LacksPhrase(low, "404", '4');
    LacksPhrase(low, "not found", 'f');
    LacksPhrase(low, "no such file", 'f');
  }

  /** The same for the error of a HEAD answer without a length. */
  lemma NoLengthText(path: string)
    ensures SaysMissing("HEAD " + path + " returned no content length") <==> SaysMissing(path)
  {
    hide SaysMissing;
    var front, rest := "HEAD " + path, "eturned no content length";
    assert front + " returned no content length" == (front + " ") + ['r'] + rest;
    SaysMissingAroundR(front + " ", rest);
    SaysMissingBeforeSpace(front);
    SaysMissingAfter("HEAD ", path);
    PlainEnding();
  }

  /** A HEAD that brought no size reads like a missing file: by its status, or by a text that
      contains the path. */
  predicate HeadReadsMissing(path: string, head: Reply) {
    match head
    case NoReply(e) => IsMissing(e)
    case Reply(status, statusText, _, _, _, _, _) =>
      || SaysMissing(path)
      || (status != OK && SaysMissing(statusText))
      || status == NOT_FOUND
  }

  /** Whatever HEAD answers, short of a size, the log is probed by range exactly when the answer does
      not read like a missing file; otherwise no poll ever changes anything. */
  lemma FallbackIffPathIsPlain(path: string, server: Server)
    requires HeadSize(path, server.head).Err?
    ensures !HeadReadsMissing(path, server.head) ==> FileSize(path, server) == RangeProbeSize(path, server.probe)
    ensures HeadReadsMissing(path, server.head) ==>
              && FileSize(path, server).Err? && IsMissing(FileSize(path, server).error)
              && forall p: Progress :: PollOf(path, server, p) == p
  {
    hide SaysMissing;
    if server.head.Reply? {
      UnsupportedHeadText(path, server.head.statusText);
      NoLengthText(path);
    }
  }

  /** Such a path: the console of a VM called vm-404 is never streamed from a server without
      HEAD support, and no warning is given. */
  lemma StalledPath(server: Server)
    requires server.head.Reply? && server.head.status == METHOD_NOT_ALLOWED
    ensures var path := "vm-404/installer.log";
            && Tail(path, server, 0).Err? && IsMissing(Tail(path, server, 0).error)
            && forall p: Progress :: PollOf(path, server, p) == p
  {
    var path := "vm-404/installer.log";
    assert Lower(path)[3..6] == "404";
    assert OccursAt(Lower(path), "404", 3);
    FallbackIffPathIsPlain(path, server);
  }

  // ---------------------------------------------------------------- polls that succeed

  predicate HeadHasSize(r: Reply) {
    r.Reply? && r.status == OK && HasLength(r)
  }

  /** The replies of a visit from which the tailer learns the size. */
  predicate SizeIsKnown(path: string, v: Visit) {
    HeadHasSize(v.server.head)
    || (!HeadReadsMissing(path, v.server.head) && ProbeHasSize(v.server.probe, v.atProbe))
  }

  /** The size is learnt exactly when HEAD gives it, or does not read like a missing file and the
      probe gives it; so also from servers without HEAD support. */
  lemma FileSizeIsExact(path: string, v: Visit)
    requires Honest(v)
    ensures FileSize(path, v.server).Ok? <==> SizeIsKnown(path, v)
    ensures FileSize(path, v.server).Ok? ==>
              FileSize(path, v.server).value == if HeadHasSize(v.server.head) then |v.atHead| else |v.atProbe|
  {
    hide SaysMissing, ProbeHasSize, RangeProbeSize, HonestProbe, HeadReadsMissing, IsMissing;
    var head := v.server.head;
    ProbeIsExact(path, v.server.probe, v.atProbe);
    if head.Reply? && head.status == OK {
      LengthIsExact(head, v.atHead);
    }
    if !HeadHasSize(head) {
      FallbackIffPathIsPlain(path, v.server);
    }
  }

  /** Whether a poll reads whole can be told from the replies alone. */
  lemma ReadsWholeIff(path: string, v: Visit, offset: nat)
    requires Honest(v)
    ensures ReadsWhole(path, v.server, offset) <==>
              && SizeIsKnown(path, v)
              && var size := if HeadHasSize(v.server.head) then |v.atHead| else |v.atProbe|;
                 size > offset ==>
                   var r := v.server.read(offset, size - 1);
                   && r.Reply? && r.bodyError.None?
                   && (r.status == 200 || (r.status == 206 && |r.body| == size - offset))
  {
    hide FileSize, SizeIsKnown, HeadHasSize;
    FileSizeIsExact(path, v);
  }

  /** A read succeeds exactly on these answers. A whole file is read from the position asked for, or from its
      first byte when it is shorter than that. */
  lemma ReadSucceedsIff(path: string, start: nat, r: Reply)
    ensures ReadRange(path, start, r).Ok? <==>
              r.Reply? && (r.status == RANGE_NOT_SATISFIABLE
                           || ((r.status == OK || r.status == PARTIAL_CONTENT) && r.bodyError.None?))
    ensures r.Reply? && r.status == RANGE_NOT_SATISFIABLE ==>
              ReadRange(path, start, r).value.0 == []
    ensures r.Reply? && r.status == OK && r.bodyError.None? ==>
              ReadRange(path, start, r).value == (if start <= |r.body| then r.body[start..] else r.body, |r.body|)
  {
  }

  /** A missing log is awaited in silence. */
  lemma MissingIsSilent(path: string, server: Server, shown: seq<string>, offset: nat)
    requires server.head.Reply? && server.head.status == NOT_FOUND
    ensures Tail(path, server, offset).Err? && WarningsAfter(shown, Tail(path, server, offset)) == shown
  {
    hide SaysMissing;
  }

  /** A refused log is reported, with the path and the status of the probe. */
  lemma RefusalIsReported(path: string, server: Server, shown: seq<string>, offset: nat)
    requires server.head.Reply? && server.head.status == 403
    requires server.probe.Reply? && server.probe.status == 403
    requires !SaysMissing(path) && !SaysMissing(server.head.statusText) && !SaysMissing(server.probe.statusText)
    ensures var text := "GET " + path + ": " + server.probe.statusText;
            && Tail(path, server, offset).Err?
            && WarningsAfter(shown, Tail(path, server, offset)) == if LastOf(shown) == text then shown else shown + [text]
  {
    hide SaysMissing;
    FallbackIffPathIsPlain(path, server);
    GetErrorText(path, server.probe.statusText);
  }

  /** The texts that mention a missing file do so anywhere and in any case. */
  lemma MissingPhrases(before: string, phrase: string, after: string)
    requires Lower(phrase) in ["404", "not found", "no such file"]
    ensures SaysMissing(before + phrase + after)
  {
    var text := before + phrase + after;
    assert Lower(text)[|before|..|before| + |phrase|] == Lower(phrase);
    assert OccursAt(Lower(text), Lower(phrase), |before|);
  }

  /** Without HEAD support, the size comes from the probe: a part, the whole file, or no first byte. */
  lemma HeadlessServer(path: string, v: Visit)
    requires Honest(v) && v.server.head.Reply? && v.server.probe.Reply?
    requires v.server.head.status in {405, 501} && !SaysMissing(path) && !SaysMissing(v.server.head.statusText)
    requires (v.server.probe.status == 206 && v.server.probe.contentRange == PartRange(0, 0, |v.atProbe|))
             || (v.server.probe.status == 200 && v.server.probe.contentLength >= 0)
             || v.server.probe.status == 416
    ensures FileSize(path, v.server) == Ok(|v.atProbe|)
  {
    hide SaysMissing, FileSize, PartRange, HonestProbe, HonestHead;
    FileSizeIsExact(path, v);
  }

  lemma NoPartTotal()
    ensures ParseContentRangeTotal(UnknownTotalRange(0, 0)) == None
  {
    hide ParseContentRangeTotal, Positions;
    UnknownTotal(Positions(0, 0));
  }

  /** A probe that does not say how long the log is, is reported. */
  lemma UnknownLengthIsReported(path: string, server: Server, shown: seq<string>, offset: nat)
    requires server.head.Reply? && server.head.status == 405 && !SaysMissing(path)
    requires !SaysMissing(server.head.statusText)
    requires server.probe.Reply? && server.probe.status == 206 && server.probe.contentRange == UnknownTotalRange(0, 0)
    ensures Tail(path, server, offset).Err?
    ensures var e := Tail(path, server, offset).error;
            !IsMissing(e) && e.text != LastOf(shown) ==>
              WarningsAfter(shown, Tail(path, server, offset)) == shown + [e.text]
  {
    hide SaysMissing, UnknownTotalRange, ParseContentRangeTotal;
    FallbackIffPathIsPlain(path, server);
    UnknownTotal(Positions(0, 0));
    NoPartTotal();
  }

  /** An ordinary server: HEAD gives the length, and a range brings all that is there of it. */
  function Ordinary(log: seq<byte>): Server {
    var size := Reply(OK, "", |log|, "", "", [], None);
    Server(size, size, (start: nat, end: nat) =>
      if start >= |log| then Reply(RANGE_NOT_SATISFIABLE, "", -1, "", UnsatisfiedRange(|log|), [], None)
      else if start > end then NoReply(Plain(""))
      else PartReply(log, start, if end < |log| then end else |log| - 1))
  }

  lemma OrdinaryPart(log: seq<byte>, start: nat, end: nat)
    requires start < |log| && start <= end
    ensures var r := Ordinary(log).read(start, end);
            HonestRead(r, start, end, log) && r.Reply? && NamesStart(r, start)
  {
    hide Format, IsPart, NamesStart;
    var last := if end < |log| then end else |log| - 1;
    var r := PartReply(log, start, last);
    NamedStart(r, log, start, last, start);
    assert IsPart(r, log, start, last);
  }

  /** It meets all that is asked of servers, and every poll of it reads whole. */
  lemma OrdinaryServer(path: string, log: seq<byte>, offset: nat)
    requires |log| <= MAX_INT64
    ensures var v := Visit(Ordinary(log), log, log, log);
            Honest(v) && StartsWhereAsked(v.server) && ReadsWhole(path, v.server, offset)
  {
    hide Format;
    var server := Ordinary(log);
    forall start: nat, end: nat
      ensures HonestRead(server.read(start, end), start, end, log)
      ensures var r := server.read(start, end);
              r.Reply? && r.status == PARTIAL_CONTENT && r.bodyError.None? ==> NamesStart(r, start)
    {
      if start < |log| && start <= end {
        OrdinaryPart(log, start, end);
      }
    }
    assert FileSize(path, server) == Ok(|log|);
    if offset < |log| {
      assert server.read(offset, |log| - 1) == PartReply(log, offset, |log| - 1);
    }
  }
}
