/** Trimming authenticated APT package indexes to the selected packages: paragraphs (Debian Policy
    Manual, section 5.1) are selected, split by architecture, and written so that reading them
    back recovers exactly the selection. */
module AptIndex {
  import opened Text
  import opened Lists

  const BREAK := "\n\n"
  const AMD64 := "amd64"
  const ALL := "all"

  // ---------------------------------------------------------------- paragraphs

  /** strings.ReplaceAll(data, "\r\n", "\n") */
  function Unix(data: string): string {
    if |data| < 2 then data
    else if data[0] == '\r' && data[1] == '\n' then ['\n'] + Unix(data[2..])
    else [data[0]] + Unix(data[1..])
  }

  /** strings.Split(data, "\n\n"): the leftmost breaks that do not overlap. */
  function SplitBreaks(data: string): (parts: seq<string>)
    ensures parts != []
  {
    if data == "" then [""]
    else if BREAK <= data then [""] + SplitBreaks(data[2..])
    else
      var rest := SplitBreaks(data[1..]);
      [[data[0]] + rest[0]] + rest[1..]
  }

  /** strings.Trim(part, "\n") */
  function TrimNewlines(s: string): (r: string)
    decreases |s|
  {
    if s == "" then ""
    else if s[0] == '\n' then TrimNewlines(s[1..])
    else if s[|s| - 1] == '\n' then TrimNewlines(s[..|s| - 1])
    else s
  }

  function NonBlank(parts: seq<string>): seq<string> {
    if parts == [] then []
    else
      var p := TrimNewlines(parts[0]);
      (if TrimSpace(p) == "" then [] else [p]) + NonBlank(parts[1..])
  }

  function Paragraphs(data: string): seq<string> {
    NonBlank(SplitBreaks(Unix(data)))
  }

  method PackageIndexParagraphs(data: string) returns (out: seq<string>)
    ensures out == Paragraphs(data)
  {
    hide SplitBreaks, Unix, TrimNewlines, TrimSpace;
    var parts := SplitBreaks(Unix(data));
    out := [];
    assert parts[0..] == parts;
    for k := 0 to |parts|
      invariant out + NonBlank(parts[k..]) == Paragraphs(data)
    {
      assert parts[k..][1..] == parts[k + 1..];
      var part := TrimNewlines(parts[k]);
      if TrimSpace(part) != "" {
        out := out + [part];
      }
    }
  }

  // ---------------------------------------------------------------- fields

  /** The position of the first colon, or |line|. */
  function Colon(line: string): (k: nat)
    ensures k <= |line|
    ensures k < |line| ==> line[k] == ':'
    ensures forall j :: 0 <= j < k ==> line[j] != ':'
  {
    if line == "" || line[0] == ':' then 0 else 1 + Colon(line[1..])
  }

  predicate IsContinuation(line: string) {
    line != "" && (line[0] == ' ' || line[0] == '\t')
  }

  /** A line gives a field when it is no continuation and its name matches in any case. */
  predicate GivesField(line: string, name: string) {
    && !IsContinuation(line)
    && Colon(line) < |line|
    && Lower(TrimSpace(line[..Colon(line)])) == Lower(name)
  }

  predicate IsFieldKey(key: string, name: string) {
    && ':' !in key
    && !(key != "" && (key[0] == ' ' || key[0] == '\t'))
    && Lower(TrimSpace(key)) == Lower(name)
  }

  lemma ColonIs(line: string, k: nat)
    requires k < |line| && line[k] == ':' && forall j :: 0 <= j < k ==> line[j] != ':'
    ensures Colon(line) == k
  {
  }

  lemma ColonAfter(key: string, value: string)
    requires ':' !in key
    ensures Colon(key + ":" + value) == |key|
  {
    ColonIs(key + ":" + value, |key|);
  }

  /** In other words: the line is a key, a colon and a value, where the key does not start with a space or
      a tab and is the field's name in any case. */
  lemma GivesFieldIff(line: string, name: string)
    ensures GivesField(line, name) <==>
              exists key, value :: line == key + ":" + value && IsFieldKey(key, name)
  {
    hide Lower, TrimSpace;
    if GivesField(line, name) {
      var k := Colon(line);
      assert line == line[..k] + ":" + line[k + 1..];
      assert IsFieldKey(line[..k], name);
    }
    forall key, value | line == key + ":" + value && IsFieldKey(key, name)
      ensures GivesField(line, name)
    {
      ColonAfter(key, value);
      assert line[..|key|] == key;
    }
  }

  function FieldIn(lines: seq<string>, name: string): string {
    if lines == [] then ""
    else if GivesField(lines[0], name) then TrimSpace(lines[0][Colon(lines[0]) + 1..])
    else FieldIn(lines[1..], name)
  }

  function Field(paragraph: string, name: string): string {
    FieldIn(Split(paragraph, '\n'), name)
  }

  method PackageIndexField(paragraph: string, name: string) returns (value: string)
    ensures value == Field(paragraph, name)
  {
    hide Split, Lower, TrimSpace, Colon;
    var lines := Split(paragraph, '\n');
    assert lines[0..] == lines;
    for k := 0 to |lines|
      invariant Field(paragraph, name) == FieldIn(lines[k..], name)
    {
      assert lines[k..][1..] == lines[k + 1..];
      var line := lines[k];
      if IsContinuation(line) {
        continue;
      }
      var colon := Colon(line);
      if colon == |line| || Lower(TrimSpace(line[..colon])) != Lower(name) {
        continue;
      }
      return TrimSpace(line[colon + 1..]);
    }
    return "";
  }

  /** normalizePackageFilename; filepath.Clean is a parameter. */
  function Filename(clean: string -> string, paragraph: string): string {
    var value := TrimSpace(Field(paragraph, "Filename"));
    var path := clean(if "./" <= value then value[2..] else value);
    if path == "." then "" else path
  }

  function Architecture(paragraph: string): string {
    TrimSpace(Field(paragraph, "Architecture"))
  }

  // ---------------------------------------------------------------- selection

  datatype Record = Record(path: string, architecture: string, text: string)

  function Filenames(clean: string -> string, ps: seq<string>): (names: seq<string>)
    ensures |names| == |ps| && forall k :: 0 <= k < |ps| ==> names[k] == Filename(clean, ps[k])
  {
    seq(|ps|, k requires 0 <= k < |ps| => Filename(clean, ps[k]))
  }

  /** The first position of a name, or |names|. */
  function FirstPosition(names: seq<string>, name: string, from: nat): (k: nat)
    requires from <= |names|
    ensures from <= k <= |names|
    ensures k < |names| ==> names[k] == name
    ensures forall j :: from <= j < k ==> names[j] != name
    decreases |names| - from
  {
    if from == |names| || names[from] == name then from else FirstPosition(names, name, from + 1)
  }

  /** The first paragraph for a path, or |ps|. */
  function FirstFor(clean: string -> string, ps: seq<string>, path: string): (k: nat)
    ensures k <= |ps|
    ensures k < |ps| ==> Filename(clean, ps[k]) == path
    ensures forall j :: 0 <= j < k ==> Filename(clean, ps[j]) != path
  {
    FirstPosition(Filenames(clean, ps), path, 0)
  }

  /** The path is in the indexes, and its first paragraph names an architecture. */
  predicate Selectable(clean: string -> string, ps: seq<string>, path: string) {
    var k := FirstFor(clean, ps, path);
    k < |ps| && Architecture(ps[k]) != ""
  }

  function RecordFor(clean: string -> string, ps: seq<string>, path: string): Record
    requires Selectable(clean, ps, path)
  {
    var text := ps[FirstFor(clean, ps, path)];
    Record(path, Architecture(text), text)
  }

  /** What the scan has found after the first k paragraphs. */
  ghost predicate FoundSoFar(clean: string -> string, ps: seq<string>, k: nat, paths: seq<string>,
                             found: map<string, Record>) {
    && (forall p :: p in found <==> p in paths && FirstFor(clean, ps, p) < k)
    && (forall p :: p in found ==> Selectable(clean, ps, p) && found[p] == RecordFor(clean, ps, p))
  }

  lemma FirstForIs(clean: string -> string, ps: seq<string>, k: nat, path: string)
    requires k < |ps| && Filename(clean, ps[k]) == path
    ensures FirstFor(clean, ps, path) <= k
  {
    hide Filename, FirstFor;
  }

  /** A paragraph that is skipped finds nothing new. */
  lemma SkipParagraph(clean: string -> string, ps: seq<string>, k: nat, paths: seq<string>, found: map<string, Record>)
    requires k < |ps| && FoundSoFar(clean, ps, k, paths, found)
    requires Filename(clean, ps[k]) !in paths || Filename(clean, ps[k]) in found
    ensures FoundSoFar(clean, ps, k + 1, paths, found)
  {
    hide Filename, FirstFor, Architecture;
  }

  /** A wanted paragraph whose path was not found yet is the first one for it. */
  lemma TakeParagraph(clean: string -> string, ps: seq<string>, k: nat, paths: seq<string>, found: map<string, Record>)
    requires k < |ps| && FoundSoFar(clean, ps, k, paths, found)
    requires Filename(clean, ps[k]) in paths && Filename(clean, ps[k]) !in found
    ensures FirstFor(clean, ps, Filename(clean, ps[k])) == k
    ensures Architecture(ps[k]) != "" ==>
              var filename := Filename(clean, ps[k]);
              FoundSoFar(clean, ps, k + 1, paths,
                         found[filename := Record(filename, Architecture(ps[k]), ps[k])])
  {
    hide Filename, FirstFor, Architecture;
    FirstForIs(clean, ps, k, Filename(clean, ps[k]));
  }

  lemma NothingFound(clean: string -> string, ps: seq<string>, paths: seq<string>)
    ensures FoundSoFar(clean, ps, 0, paths, map[])
  {
    hide FirstFor, Filename;
  }

  /** The scan over all paragraphs; None is the error of a record without architecture. */
  method ScanParagraphs(clean: string -> string, ps: seq<string>, paths: seq<string>)
    returns (result: Option<map<string, Record>>)
    requires forall k :: 0 <= k < |ps| ==> ps[k] != ""
    ensures result.Some? ==> FoundSoFar(clean, ps, |ps|, paths, result.value)
    ensures result.None? ==> exists i :: 0 <= i < |paths| && !Selectable(clean, ps, paths[i])
  {
    hide Filename, FirstFor, Architecture, FoundSoFar;
    var found: map<string, Record> := map[];
    NothingFound(clean, ps, paths);
    for k := 0 to |ps|
      invariant FoundSoFar(clean, ps, k, paths, found)
      invariant forall p :: p in found ==> found[p].text != ""
    {
      var filename := Filename(clean, ps[k]);
      if filename !in paths || (filename in found && found[filename].text != "") {
        SkipParagraph(clean, ps, k, paths, found);
        continue;
      }
      TakeParagraph(clean, ps, k, paths, found);
      var architecture := Architecture(ps[k]);
      if architecture == "" {
        return None;
      }
      found := found[filename := Record(filename, architecture, ps[k])];
    }
    return Some(found);
  }

  /** selectedPackageIndexRecords on the paragraphs of all lists in their order */
  method SelectedRecords(clean: string -> string, ps: seq<string>, paths: seq<string>)
    returns (result: Option<seq<Record>>)
    requires forall k :: 0 <= k < |ps| ==> ps[k] != ""
    ensures result.Some? <==> paths != [] && forall i :: 0 <= i < |paths| ==> Selectable(clean, ps, paths[i])
    ensures result.Some? ==> |result.value| == |paths|
    ensures result.Some? ==> forall i :: 0 <= i < |paths| ==> result.value[i] == RecordFor(clean, ps, paths[i])
  {
    hide Filename, FirstFor, Architecture;
    if |paths| == 0 {
      return None;
    }
    var found := ScanParagraphs(clean, ps, paths);
    if found.None? {
      return None;
    }
    var records := [];
    for i := 0 to |paths|
      invariant |records| == i
      invariant forall j :: 0 <= j < i ==>
                  Selectable(clean, ps, paths[j]) && records[j] == RecordFor(clean, ps, paths[j])
    {
      if paths[i] !in found.value || found.value[paths[i]].text == "" {
        assert !Selectable(clean, ps, paths[i]);
        return None;
      }
      records := records + [found.value[paths[i]]];
    }
    return Some(records);
  }

  // ---------------------------------------------------------------- writing

  function OfArchitecture(records: seq<Record>, architecture: string): seq<Record> {
    if records == [] then []
    else OfArchitecture(records[..|records| - 1], architecture)
         + if records[|records| - 1].architecture == architecture then [records[|records| - 1]] else []
  }

  /** strings.TrimRight(text, "\r\n") */
  function TrimLineEnds(s: string): (r: string)
    ensures r <= s
  {
    if s != "" && (s[|s| - 1] == '\r' || s[|s| - 1] == '\n') then TrimLineEnds(s[..|s| - 1]) else s
  }

  function Written(records: seq<Record>): string {
    if records == [] then ""
    else
      var text := TrimLineEnds(records[0].text);
      (if text == "" then "" else text + BREAK) + Written(records[1..])
  }

  method WriteIndex(records: seq<Record>) returns (out: string)
    ensures out == Written(records)
  {
    out := "";
    assert records[0..] == records;
    for k := 0 to |records|
      invariant out + Written(records[k..]) == Written(records)
    {
      assert records[k..][1..] == records[k + 1..];
      var text := TrimLineEnds(records[k].text);
      if text == "" {
        continue;
      }
      out := out + text + BREAK;
    }
  }

  /** The part of writeTrimmedRepositoryMetadata that computes the two index files. */
  method WriteTrimmed(records: seq<Record>) returns (result: Option<(string, string)>)
    ensures result.Some? <==> forall i :: 0 <= i < |records| ==> records[i].architecture in {AMD64, ALL}
    ensures result.Some? ==>
              result.value == (Written(OfArchitecture(records, AMD64)), Written(OfArchitecture(records, ALL)))
  {
    var byArch: map<string, seq<Record>> := map[AMD64 := [], ALL := []];
    assert AMD64[0] == 'a' && |AMD64| != |ALL|;
    assert records[..0] == [];
    for i := 0 to |records|
      invariant byArch.Keys == {AMD64, ALL}
      invariant forall j :: 0 <= j < i ==> records[j].architecture in {AMD64, ALL}
      invariant byArch[AMD64] == OfArchitecture(records[..i], AMD64)
      invariant byArch[ALL] == OfArchitecture(records[..i], ALL)
    {
      var record := records[i];
      assert records[..i + 1][..i] == records[..i];
      if record.architecture != AMD64 && record.architecture != ALL {
        return None;
      }
      byArch := byArch[record.architecture := byArch[record.architecture] + [record]];
    }
    assert records[..|records|] == records;
    var amd64 := WriteIndex(byArch[AMD64]);
    var all := WriteIndex(byArch[ALL]);
    return Some((amd64, all));
  }

  // ---------------------------------------------------------------- what paragraphs look like

  /** No two newlines in a row. */
  predicate NoBreak(s: string) {
    forall k :: 0 < k < |s| ==> !(s[k - 1] == '\n' && s[k] == '\n')
  }

  predicate NoCR(s: string) {
    '\r' !in s
  }

  /** The shape of every paragraph that reading returns. */
  predicate IsParagraph(p: string) {
    && NoBreak(p)
    && TrimSpace(p) != ""
    && p != "" && p[0] != '\n' && p[|p| - 1] != '\n'
  }

  predicate NoCRLF(s: string) {
    forall k :: 0 < k < |s| ==> !(s[k - 1] == '\r' && s[k] == '\n')
  }

  lemma NoCRLFFromTail(s: string)
    requires |s| >= 2 && !(s[0] == '\r' && s[1] == '\n')
    ensures NoCRLF(s[1..]) ==> NoCRLF(s)
  {
    if NoCRLF(s[1..]) {
      forall k | 0 < k < |s|
        ensures !(s[k - 1] == '\r' && s[k] == '\n')
      {
        if k > 1 {
          assert s[1..][k - 1] == s[k] && s[1..][k - 2] == s[k - 1];
        }
      }
    }
  }

  /** Normalising line ends shortens a text exactly when it has a CRLF. */
  lemma {:induction false} UnixLength(s: string)
    ensures |Unix(s)| <= |s|
    ensures NoCRLF(s) ==> Unix(s) == s
    ensures |Unix(s)| == |s| ==> NoCRLF(s)
    decreases |s|
  {
    if |s| >= 2 {
      if s[0] == '\r' && s[1] == '\n' {
        UnixLength(s[2..]);
      } else {
        UnixLength(s[1..]);
        assert NoCRLF(s) ==> NoCRLF(s[1..]);
        NoCRLFFromTail(s);
      }
    }
  }

  /** A text that survives being written and read: its line ends are all single newlines. */
  predicate Stable(text: string) {
    && NoCRLF(text)
    && (text == "" || text[|text| - 1] != '\r')
  }

  lemma NoCRIsStable(s: string)
    requires NoCR(s)
    ensures Stable(s) && Unix(s) == s
  {
    UnixLength(s);
  }

  lemma {:induction false} PartsHaveNoBreak(data: string)
    ensures forall k :: 0 <= k < |SplitBreaks(data)| ==> NoBreak(SplitBreaks(data)[k])
    ensures SplitBreaks(data)[0] != "" ==> data != "" && SplitBreaks(data)[0][0] == data[0]
    ensures NoCR(data) ==> forall k :: 0 <= k < |SplitBreaks(data)| ==> NoCR(SplitBreaks(data)[k])
    decreases |data|
  {
    if data == "" {
    } else if BREAK <= data {
      PartsHaveNoBreak(data[2..]);
      assert NoCR(data) ==> NoCR(data[2..]);
    } else {
      PartsHaveNoBreak(data[1..]);
      assert NoCR(data) ==> NoCR(data[1..]);
      var first := SplitBreaks(data[1..])[0];
      assert |data| > 1 && data[0] == data[1] == '\n' ==> BREAK <= data;
      assert NoBreak([data[0]] + first);
    }
  }

  lemma {:induction false} TrimmedShape(s: string)
    requires NoBreak(s)
    ensures NoBreak(TrimNewlines(s))
    ensures TrimNewlines(s) == "" || (TrimNewlines(s)[0] != '\n' && TrimNewlines(s)[|TrimNewlines(s)| - 1] != '\n')
    ensures NoCR(s) ==> NoCR(TrimNewlines(s))
    decreases |s|
  {
    if s == "" {
    } else if s[0] == '\n' {
      TrimmedShape(s[1..]);
    } else if s[|s| - 1] == '\n' {
      TrimmedShape(s[..|s| - 1]);
    }
  }

  lemma EmptyIsBlank()
    ensures TrimSpace("") == ""
  {
  }

  lemma {:induction false} NonBlankShape(parts: seq<string>)
    requires forall k :: 0 <= k < |parts| ==> NoBreak(parts[k])
    ensures forall p <- NonBlank(parts) :: IsParagraph(p)
    ensures (forall k :: 0 <= k < |parts| ==> NoCR(parts[k])) ==> forall p <- NonBlank(parts) :: NoCR(p)
  {
    hide NoBreak, TrimNewlines, TrimSpace;
    if parts != [] {
      NonBlankShape(parts[1..]);
      TrimmedShape(parts[0]);
      EmptyIsBlank();
    }
  }

  /** Every paragraph read from an index is non-blank, free of breaks, and ends in no newline. */
  lemma ParagraphsShape(data: string)
    ensures forall p <- Paragraphs(data) :: IsParagraph(p)
    ensures NoCR(Unix(data)) ==> forall p <- Paragraphs(data) :: NoCR(p)
  {
    hide NonBlank, SplitBreaks, Unix;
    PartsHaveNoBreak(Unix(data));
    NonBlankShape(SplitBreaks(Unix(data)));
  }

  // ---------------------------------------------------------------- reading back

  lemma SplitAtBreak(rest: string)
    ensures SplitBreaks(BREAK + rest) == [""] + SplitBreaks(rest)
  {
    assert BREAK <= BREAK + rest && (BREAK + rest)[2..] == rest;
  }

  lemma SplitPush(c: char, data: string)
    requires c != '\n' || (data != "" && data[0] != '\n')
    ensures var parts := SplitBreaks(data);
            SplitBreaks([c] + data) == [[c] + parts[0]] + parts[1..]
  {
    var s := [c] + data;
    assert !(BREAK <= s) by {
      assert |s| > 1 ==> s[1] == data[0];
    }
    assert s[1..] == data;
  }

  lemma {:induction false} SplitParagraph(p: string, rest: string)
    requires NoBreak(p) && p != "" && p[|p| - 1] != '\n'
    ensures SplitBreaks(p + BREAK + rest) == [p] + SplitBreaks(rest)
    decreases |p|
  {
    hide SplitBreaks;
    var tail := p[1..] + BREAK + rest;
    assert p + BREAK + rest == [p[0]] + tail;
    assert [p[0]] + p[1..] == p;
    if |p| == 1 {
      assert tail == BREAK + rest;
      SplitAtBreak(rest);
    } else {
      assert tail[0] == p[1];
      SplitParagraph(p[1..], rest);
    }
    SplitPush(p[0], tail);
  }

  lemma ParagraphIsKept(text: string)
    requires IsParagraph(text) && Stable(text)
    ensures TrimLineEnds(text) == text && TrimNewlines(text) == text && TrimSpace(text) != "" && text != ""
  {
  }

  lemma WrittenCons(records: seq<Record>)
    requires records != [] && IsParagraph(records[0].text) && Stable(records[0].text)
    ensures Written(records) == records[0].text + BREAK + Written(records[1..])
  {
    ParagraphIsKept(records[0].text);
  }

  lemma StableConcat(text: string, rest: string)
    requires Stable(text) && NoCRLF(rest) && text != ""
    ensures NoCRLF(text + BREAK + rest)
  {
    var s := text + BREAK + rest;
    assert s[|text|] == '\n' && s[|text| + 1] == '\n';
    assert forall k :: 0 <= k < |text| ==> s[k] == text[k];
    assert forall k :: |text| + 2 <= k < |s| ==> s[k] == rest[k - |text| - 2];
  }

  lemma NothingWritten()
    ensures Written([]) == "" && NonBlank(SplitBreaks("")) == [] && NoCRLF("")
  {
    EmptyIsBlank();
    assert SplitBreaks("") == [""];
    assert [""][1..] == [];
  }

  lemma SplitOfParagraph(p: string, rest: string)
    requires IsParagraph(p)
    ensures SplitBreaks(p + BREAK + rest) == [p] + SplitBreaks(rest)
  {
    hide SplitBreaks;
    SplitParagraph(p, rest);
  }

  lemma KeepFirst(text: string, parts: seq<string>)
    requires TrimNewlines(text) == text && TrimSpace(text) != ""
    ensures NonBlank([text] + parts) == [text] + NonBlank(parts)
  {
    assert ([text] + parts)[1..] == parts;
  }

  function TextsOf(records: seq<Record>): seq<string> {
    seq(|records|, k requires 0 <= k < |records| => records[k].text)
  }

  /** Reading a written index gives back the written paragraphs. */
  lemma {:induction false} ReadsWritten(records: seq<Record>)
    requires forall k :: 0 <= k < |records| ==> IsParagraph(records[k].text) && Stable(records[k].text)
    ensures NoCRLF(Written(records))
    ensures NonBlank(SplitBreaks(Written(records))) == TextsOf(records)
  {
    hide Written, TrimNewlines, TrimSpace, SplitBreaks, IsParagraph, Stable, NoCRLF, NonBlank;
    if records == [] {
      NothingWritten();
    } else {
      var text, rest := records[0].text, Written(records[1..]);
      ReadsWritten(records[1..]);
      WrittenCons(records);
      ParagraphIsKept(text);
      StableConcat(text, rest);
      SplitOfParagraph(text, rest);
      KeepFirst(text, SplitBreaks(rest));
      assert TextsOf(records) == [text] + TextsOf(records[1..]);
    }
  }

  // ---------------------------------------------------------------- exactly when it reads back

  function Total(parts: seq<string>): nat {
    if parts == [] then 0 else |parts[0]| + Total(parts[1..])
  }

  lemma {:induction false} SplitLength(data: string)
    ensures Total(SplitBreaks(data)) + 2 * (|SplitBreaks(data)| - 1) == |data|
    decreases |data|
  {
    if data == "" {
    } else if BREAK <= data {
      SplitLength(data[2..]);
      assert ([""] + SplitBreaks(data[2..]))[1..] == SplitBreaks(data[2..]);
    } else {
      SplitLength(data[1..]);
      var rest := SplitBreaks(data[1..]);
      assert ([[data[0]] + rest[0]] + rest[1..])[1..] == rest[1..];
    }
  }

  lemma {:induction false} TrimLength(s: string)
    ensures |TrimNewlines(s)| <= |s|
    decreases |s|
  {
    if s != "" && s[0] == '\n' {
      TrimLength(s[1..]);
    } else if s != "" && s[|s| - 1] == '\n' {
      TrimLength(s[..|s| - 1]);
    }
  }

  /** Dropping blank parts, of which the last is one. */
  lemma {:induction false} NonBlankLength(parts: seq<string>)
    ensures Total(NonBlank(parts)) <= Total(parts)
    ensures |NonBlank(parts)| <= |parts|
    ensures parts != [] && TrimSpace(TrimNewlines(parts[|parts| - 1])) == "" ==> |NonBlank(parts)| < |parts|
  {
    hide TrimSpace, TrimNewlines;
    if parts != [] {
      NonBlankLength(parts[1..]);
      TrimLength(parts[0]);
      var p := TrimNewlines(parts[0]);
      assert ([p] + NonBlank(parts[1..]))[1..] == NonBlank(parts[1..]);
      assert [] + NonBlank(parts[1..]) == NonBlank(parts[1..]);
    }
  }

  predicate EndsInBreak(s: string) {
    |s| >= 2 && s[|s| - 2] == '\n' && s[|s| - 1] == '\n'
  }

  lemma SplitOfNewline()
    ensures SplitBreaks("\n") == ["\n"]
  {
    assert "\n"[1..] == "";
    assert ['\n'] + "" == "\n";
  }

  lemma LastAfterPush(data: string)
    requires |data| > 2 && !(BREAK <= data)
    requires var parts := SplitBreaks(data[1..]); parts[|parts| - 1] == "" || parts[|parts| - 1] == "\n"
    ensures var parts := SplitBreaks(data); parts[|parts| - 1] == "" || parts[|parts| - 1] == "\n"
  {
    var parts := SplitBreaks(data[1..]);
    SplitLength(data[1..]);
    assert |data[1..]| >= 2;
  }

  /** What follows the last break of a text that ends in one is blank. */
  lemma {:induction false} LastPartBlank(data: string)
    requires EndsInBreak(data)
    ensures var parts := SplitBreaks(data); parts[|parts| - 1] == "" || parts[|parts| - 1] == "\n"
    decreases |data|
  {
    if BREAK <= data {
      if |data| == 2 {
        assert data[2..] == "";
      } else if |data| == 3 {
        assert data[2..] == "\n";
        SplitOfNewline();
      } else {
        LastPartBlank(data[2..]);
      }
    } else {
      assert |data| > 2 by {
        assert |data| == 2 ==> data == BREAK;
      }
      LastPartBlank(data[1..]);
      LastAfterPush(data);
    }
  }

  lemma {:induction false} UnixEndsInBreak(s: string)
    requires EndsInBreak(s) && (|s| > 2 ==> s[|s| - 3] != '\r')
    ensures EndsInBreak(Unix(s))
    decreases |s|
  {
    if |s| == 2 {
      assert Unix(s[1..]) == s[1..];
    } else if s[0] == '\r' && s[1] == '\n' {
      UnixEndsInBreak(s[2..]);
    } else {
      UnixEndsInBreak(s[1..]);
    }
  }

  lemma {:induction false} WrittenLength(records: seq<Record>)
    ensures |Written(records)| <= Total(TextsOf(records)) + 2 * |records|
    ensures |Written(records)| == Total(TextsOf(records)) + 2 * |records| ==>
              forall k :: 0 <= k < |records| ==> TrimLineEnds(records[k].text) == records[k].text
  {
    hide TrimLineEnds;
    if records != [] {
      WrittenLength(records[1..]);
      assert TextsOf(records)[1..] == TextsOf(records[1..]);
      assert TextsOf(records)[0] == records[0].text;
    }
  }

  lemma {:induction false} TrimmedLineEnd(s: string)
    ensures var t := TrimLineEnds(s);
            |t| <= |s| && (t == "" || (t[|t| - 1] != '\r' && t[|t| - 1] != '\n'))
  {
    if s != "" {
      TrimmedLineEnd(s[..|s| - 1]);
    }
  }

  lemma {:induction false} WrittenEnd(records: seq<Record>)
    ensures Written(records) != "" ==> EndsInBreak(Written(records))
    ensures |Written(records)| > 2 ==> Written(records)[|Written(records)| - 3] != '\r'
  {
    hide TrimLineEnds;
    if records != [] {
      WrittenEnd(records[1..]);
      TrimmedLineEnd(records[0].text);
    }
  }

  lemma NoCRLFPart(s: string, from: nat, to: nat)
    requires NoCRLF(s) && from <= to <= |s|
    ensures NoCRLF(s[from..to])
  {
  }

  lemma {:induction false} WrittenHasTexts(records: seq<Record>, k: nat)
    requires NoCRLF(Written(records)) && k < |records|
    requires forall i :: 0 <= i < |records| ==> TrimLineEnds(records[i].text) == records[i].text
    ensures NoCRLF(records[k].text)
  {
    var text := records[0].text;
    var rest := Written(records[1..]);
    var w := Written(records);
    if text != "" {
      assert w[..|text|] == text;
      assert w[|text| + 2..] == rest;
      NoCRLFPart(w, 0, |text|);
      NoCRLFPart(w, |text| + 2, |w|);
      assert w[0..|text|] == text && w[|text| + 2..|w|] == rest;
    } else {
      assert w == rest;
    }
    if k > 0 {
      WrittenHasTexts(records[1..], k - 1);
    }
  }

  lemma SomethingWritten(records: seq<Record>)
    requires records != [] && Paragraphs(Written(records)) == TextsOf(records)
    ensures Written(records) != ""
  {
    hide NonBlank, SplitBreaks, Written;
    NothingWritten();
    assert Unix("") == "";
  }

  lemma WrittenEndsInBreak(records: seq<Record>)
    requires records != [] && Paragraphs(Written(records)) == TextsOf(records)
    ensures EndsInBreak(Unix(Written(records)))
  {
    hide Paragraphs, Written, Unix;
    WrittenEnd(records);
    SomethingWritten(records);
    UnixEndsInBreak(Written(records));
  }

  lemma BlankEnds()
    ensures TrimSpace(TrimNewlines("")) == "" && TrimSpace(TrimNewlines("\n")) == ""
  {
    EmptyIsBlank();
    assert "\n"[1..] == "";
  }

  /** The part after the last break is no paragraph. */
  lemma FewerParagraphs(data: string)
    requires EndsInBreak(data)
    ensures |NonBlank(SplitBreaks(data))| < |SplitBreaks(data)|
    ensures Total(NonBlank(SplitBreaks(data))) <= Total(SplitBreaks(data))
  {
    hide EndsInBreak, SplitBreaks, NonBlank, Total, TrimSpace, TrimNewlines;
    LastPartBlank(data);
    BlankEnds();
    NonBlankLength(SplitBreaks(data));
  }

  /** An index that reads back has lost no character. */
  lemma NotShortened(records: seq<Record>)
    requires records != []
    requires Paragraphs(Written(records)) == TextsOf(records)
    ensures NoCRLF(Written(records))
    ensures forall k :: 0 <= k < |records| ==> TrimLineEnds(records[k].text) == records[k].text
  {
    hide SplitBreaks, NonBlank, Unix, Written, NoCRLF, Total, TrimLineEnds, TrimSpace, TrimNewlines;
    var w := Written(records);
    var data := Unix(w);
    var parts := SplitBreaks(data);
    WrittenEndsInBreak(records);
    FewerParagraphs(data);
    SplitLength(data);
    UnixLength(w);
    WrittenLength(records);
  }

  /** An index reads back as the paragraphs that were written to it exactly when none of them has
      a carriage return before a line end or at its own end. */
  lemma ReadsBackExactly(records: seq<Record>)
    requires forall k :: 0 <= k < |records| ==> IsParagraph(records[k].text)
    ensures Paragraphs(Written(records)) == TextsOf(records) <==>
            forall k :: 0 <= k < |records| ==> Stable(records[k].text)
  {
    hide IsParagraph, Written, SplitBreaks, NonBlank, Unix;
    var w := Written(records);
    if forall k :: 0 <= k < |records| ==> Stable(records[k].text) {
      ReadsWritten(records);
      UnixLength(w);
    }
    if Paragraphs(w) == TextsOf(records) && records != [] {
      NotShortened(records);
      forall k | 0 <= k < |records|
        ensures Stable(records[k].text)
      {
        WrittenHasTexts(records, k);
        TrimmedLineEnd(records[k].text);
      }
    }
  }

  // ---------------------------------------------------------------- the whole trimming

  function AllParagraphs(lists: seq<string>): seq<string> {
    if lists == [] then []
    else AllParagraphs(lists[..|lists| - 1]) + Paragraphs(lists[|lists| - 1])
  }

  lemma OneList(list: string)
    ensures AllParagraphs([list]) == Paragraphs(list)
  {
    hide Paragraphs;
    assert [list][..0] == [];
    assert AllParagraphs([list]) == AllParagraphs([]) + Paragraphs(list);
  }

  lemma {:induction false} AllParagraphsShape(lists: seq<string>)
    ensures forall p <- AllParagraphs(lists) :: IsParagraph(p)
    ensures (forall k :: 0 <= k < |lists| ==> NoCR(Unix(lists[k]))) ==> forall p <- AllParagraphs(lists) :: NoCR(p)
  {
    hide IsParagraph, Paragraphs, NoCR, Unix;
    if lists != [] {
      AllParagraphsShape(lists[..|lists| - 1]);
      ParagraphsShape(lists[|lists| - 1]);
    }
  }

  lemma NoneOfArchitecture()
    ensures OfArchitecture([], AMD64) == [] && OfArchitecture([], ALL) == []
  {
  }

  lemma OfArchitectureSnoc(init: seq<Record>, r: Record, architecture: string)
    ensures multiset(OfArchitecture(init + [r], architecture)) ==
              if r.architecture == architecture then multiset(OfArchitecture(init, architecture)) + multiset{r}
              else multiset(OfArchitecture(init, architecture))
  {
    assert (init + [r])[..|init|] == init;
    assert OfArchitecture(init, architecture) + [] == OfArchitecture(init, architecture);
  }

  /** No record is lost, doubled or moved between the two indexes. */
  lemma {:induction false} ArchitecturesPartition(records: seq<Record>)
    requires forall i :: 0 <= i < |records| ==> records[i].architecture in {AMD64, ALL}
    ensures multiset(OfArchitecture(records, AMD64)) + multiset(OfArchitecture(records, ALL)) == multiset(records)
  {
    hide OfArchitecture;
    if records == [] {
      NoneOfArchitecture();
    } else {
      var init, r := records[..|records| - 1], records[|records| - 1];
      ArchitecturesPartition(init);
      assert records == init + [r];
      OfArchitectureSnoc(init, r, AMD64);
      OfArchitectureSnoc(init, r, ALL);
      assert |AMD64| == 5 && |ALL| == 3;
      var a, b := multiset(OfArchitecture(init, AMD64)), multiset(OfArchitecture(init, ALL));
      if r.architecture == AMD64 {
        assert (a + multiset{r}) + b == (a + b) + multiset{r};
      } else {
        assert a + (b + multiset{r}) == (a + b) + multiset{r};
      }
    }
  }

  lemma {:induction false} OfArchitectureIn(records: seq<Record>, architecture: string)
    ensures forall r <- OfArchitecture(records, architecture) :: r in records && r.architecture == architecture
  {
    if records != [] {
      OfArchitectureIn(records[..|records| - 1], architecture);
    }
  }

  /** What a reader of one written index finds: the paragraphs of the selected records of its
      architecture, each with the path it was selected by and that architecture. */
  ghost predicate ReadsAs(clean: string -> string, index: string, records: seq<Record>, architecture: string) {
    var mine := OfArchitecture(records, architecture);
    && Paragraphs(index) == TextsOf(mine)
    && forall k :: 0 <= k < |mine| ==>
         Filename(clean, mine[k].text) == mine[k].path && Architecture(mine[k].text) == architecture
  }

  predicate AllStable(records: seq<Record>) {
    forall k :: 0 <= k < |records| ==> Stable(records[k].text)
  }

  lemma ParagraphsAreNotEmpty(ps: seq<string>)
    requires forall p <- ps :: IsParagraph(p)
    ensures forall k :: 0 <= k < |ps| ==> ps[k] != ""
  {
    assert forall k :: 0 <= k < |ps| ==> IsParagraph(ps[k]);
  }

  method ReadLists(lists: seq<string>) returns (ps: seq<string>)
    ensures ps == AllParagraphs(lists)
  {
    hide Paragraphs;
    ps := [];
    assert lists[..0] == [];
    for k := 0 to |lists|
      invariant ps == AllParagraphs(lists[..k])
    {
      assert lists[..k + 1][..k] == lists[..k];
      var more := PackageIndexParagraphs(lists[k]);
      ps := ps + more;
    }
    assert lists[..|lists|] == lists;
  }

  /** A record of an index is a paragraph of the lists, found under its own path and architecture. */
  lemma RecordsOfIndex(clean: string -> string, ps: seq<string>, paths: seq<string>, records: seq<Record>,
                       architecture: string)
    requires |records| == |paths|
    requires forall i :: 0 <= i < |paths| ==>
               Selectable(clean, ps, paths[i]) && records[i] == RecordFor(clean, ps, paths[i])
    ensures forall r <- OfArchitecture(records, architecture) ::
              r.text in ps && Filename(clean, r.text) == r.path && Architecture(r.text) == architecture
  {
    hide Filename, Architecture, FirstFor;
    OfArchitectureIn(records, architecture);
    forall r <- OfArchitecture(records, architecture)
      ensures r.text in ps && Filename(clean, r.text) == r.path && Architecture(r.text) == architecture
    {
      var i :| 0 <= i < |records| && records[i] == r;
    }
  }

  lemma IndexReadsBack(clean: string -> string, ps: seq<string>, paths: seq<string>, records: seq<Record>,
                       architecture: string)
    requires forall p <- ps :: IsParagraph(p)
    requires |records| == |paths|
    requires forall i :: 0 <= i < |paths| ==>
               Selectable(clean, ps, paths[i]) && records[i] == RecordFor(clean, ps, paths[i])
    ensures ReadsAs(clean, Written(OfArchitecture(records, architecture)), records, architecture)
       <==> AllStable(OfArchitecture(records, architecture))
  {
    hide Filename, Architecture, IsParagraph, Written, Paragraphs, Stable, Selectable, RecordFor;
    var mine := OfArchitecture(records, architecture);
    RecordsOfIndex(clean, ps, paths, records, architecture);
    assert forall k :: 0 <= k < |mine| ==> mine[k] in mine;
    ReadsBackExactly(mine);
  }

  lemma SelectedAreStable(clean: string -> string, ps: seq<string>, paths: seq<string>, records: seq<Record>,
                          architecture: string)
    requires forall p <- ps :: NoCR(p)
    requires |records| == |paths|
    requires forall i :: 0 <= i < |paths| ==>
               Selectable(clean, ps, paths[i]) && records[i] == RecordFor(clean, ps, paths[i])
    ensures AllStable(OfArchitecture(records, architecture))
  {
    hide Filename, Architecture, NoCR, Stable, Selectable, RecordFor;
    var mine := OfArchitecture(records, architecture);
    RecordsOfIndex(clean, ps, paths, records, architecture);
    forall k | 0 <= k < |mine|
      ensures Stable(mine[k].text)
    {
      assert mine[k] in mine;
      NoCRIsStable(mine[k].text);
    }
  }

  /** Trimming any lists: it succeeds exactly when every selected path's first paragraph names a
      supported architecture; there is one record for each path, its first match in list order; the
      records are divided between the two indexes; and reading an index back recovers its records
      exactly when they are stable, which they are whenever the lists have no carriage return
      outside of CRLF. */
  method TrimRepository(clean: string -> string, lists: seq<string>, paths: seq<string>)
    returns (result: Option<(string, string)>, ghost records: seq<Record>)
    ensures var ps := AllParagraphs(lists);
            result.Some? <==> paths != [] && forall i :: 0 <= i < |paths| ==>
              Selectable(clean, ps, paths[i]) && RecordFor(clean, ps, paths[i]).architecture in {AMD64, ALL}
    ensures result.Some? ==>
              && |records| == |paths|
              && (forall i :: 0 <= i < |paths| ==>
                    Selectable(clean, AllParagraphs(lists), paths[i])
                    && records[i] == RecordFor(clean, AllParagraphs(lists), paths[i]))
              && multiset(OfArchitecture(records, AMD64)) + multiset(OfArchitecture(records, ALL)) == multiset(records)
              && (ReadsAs(clean, result.value.0, records, AMD64) <==> AllStable(OfArchitecture(records, AMD64)))
              && (ReadsAs(clean, result.value.1, records, ALL) <==> AllStable(OfArchitecture(records, ALL)))
    ensures result.Some? && (forall k :: 0 <= k < |lists| ==> NoCR(Unix(lists[k]))) ==>
              && ReadsAs(clean, result.value.0, records, AMD64)
              && ReadsAs(clean, result.value.1, records, ALL)
  {
    hide Selectable, RecordFor, Filename, Architecture, Paragraphs, NoCR, Unix, OfArchitecture, ReadsAs, IsParagraph,
         AllStable;
    var ps := ReadLists(lists);
    AllParagraphsShape(lists);
    ParagraphsAreNotEmpty(ps);
    records := [];
    var selected := SelectedRecords(clean, ps, paths);
    if selected.None? {
      return None, records;
    }
    records := selected.value;
    result := WriteTrimmed(selected.value);
    if result.Some? {
      ArchitecturesPartition(records);
      IndexReadsBack(clean, ps, paths, records, AMD64);
      IndexReadsBack(clean, ps, paths, records, ALL);
      if forall k :: 0 <= k < |lists| ==> NoCR(Unix(lists[k])) {
        SelectedAreStable(clean, ps, paths, records, AMD64);
        SelectedAreStable(clean, ps, paths, records, ALL);
      }
    }
  }

  // ---------------------------------------------------------------- a stray carriage return

  const STRAY_PATH := "pool/p.deb"

  /** The lines of a package paragraph, one of them a lone carriage return. */
  const STRAY_LINES: seq<string> := ["Filename: " + STRAY_PATH, "Architecture: " + AMD64, "\r", "B: 2"]

  const STRAY_FRONT := "Filename: " + STRAY_PATH + "\n" + ("Architecture: " + AMD64 + "\n")

  /** A package list in which that line ends in CRLF. */
  const STRAY_LIST := STRAY_FRONT + "\r\r\nB: 2"

  const STRAY_TEXT := STRAY_FRONT + "\r\nB: 2"

  lemma StrayJoin()
    ensures STRAY_TEXT == Join(STRAY_LINES, '\n')
  {
    var l0, l1 := STRAY_LINES[0], STRAY_LINES[1];
    assert STRAY_LINES[1..][1..] == STRAY_LINES[2..] && STRAY_LINES[2..][1..] == STRAY_LINES[3..];
    assert STRAY_LINES[3..] == ["B: 2"];
    assert Join(STRAY_LINES[2..], '\n') == "\r" + ['\n'] + "B: 2" == "\r\nB: 2";
    assert Join(STRAY_LINES[1..], '\n') == l1 + ['\n'] + "\r\nB: 2";
    assert Join(STRAY_LINES, '\n') == l0 + ['\n'] + (l1 + ['\n'] + "\r\nB: 2");
  }

  /** A field's line, name and value. */
  lemma FieldLine(name: string, value: string, other: string)
    requires name != "" && ':' !in name && !IsSpace(name[0]) && !IsSpace(name[|name| - 1])
    requires value != "" && !IsSpace(value[0]) && !IsSpace(value[|value| - 1])
    ensures var line := name + ": " + value;
            && (GivesField(line, other) <==> Lower(name) == Lower(other))
            && Colon(line) < |line| && TrimSpace(line[Colon(line) + 1..]) == value
  {
    hide TrimSpace, Lower;
    var line := name + ": " + value;
    ColonIs(line, |name|);
    assert line[..|name|] == name && line[0] == name[0];
    TrimSpaceTight(name);
    SpaceTrimmed(value);
    assert line[|name| + 1..] == " " + value;
  }

  lemma FirstFieldOf(name: string, value: string, lines: seq<string>)
    requires name != "" && ':' !in name && !IsSpace(name[0]) && !IsSpace(name[|name| - 1])
    requires value != "" && !IsSpace(value[0]) && !IsSpace(value[|value| - 1])
    requires lines != [] && lines[0] == name + ": " + value
    ensures FieldIn(lines, name) == value
  {
    hide GivesField, TrimSpace, Colon;
    FieldLine(name, value, name);
  }

  lemma OtherFieldOf(name: string, value: string, lines: seq<string>, other: string)
    requires name != "" && ':' !in name && !IsSpace(name[0]) && !IsSpace(name[|name| - 1])
    requires value != "" && !IsSpace(value[0]) && !IsSpace(value[|value| - 1])
    requires lines != [] && lines[0] == name + ": " + value && |name| != |other|
    ensures FieldIn(lines, other) == FieldIn(lines[1..], other)
  {
    hide GivesField, TrimSpace, Colon;
    FieldLine(name, value, other);
    assert |Lower(name)| != |Lower(other)|;
  }

  lemma StrayFields(clean: string -> string)
    requires clean(STRAY_PATH) == STRAY_PATH
    ensures Filename(clean, STRAY_TEXT) == STRAY_PATH && Architecture(STRAY_TEXT) == AMD64
  {
    hide Split, Join, TrimSpace, FieldIn;
    StrayJoin();
    SplitOfJoin(STRAY_LINES, '\n');
    FirstFieldOf("Filename", STRAY_PATH, STRAY_LINES);
    OtherFieldOf("Filename", STRAY_PATH, STRAY_LINES, "Architecture");
    FirstFieldOf("Architecture", AMD64, STRAY_LINES[1..]);
    TrimSpaceTight(STRAY_PATH);
    TrimSpaceTight(AMD64);
  }

  lemma {:induction false} SplitOfUnbroken(s: string)
    requires NoBreak(s)
    ensures SplitBreaks(s) == [s]
  {
    if s != "" {
      SplitOfUnbroken(s[1..]);
      assert [s[0]] + s[1..] == s;
    }
  }

  lemma UnixStep(c: char, rest: string)
    requires c != '\r' || rest == "" || rest[0] != '\n'
    ensures Unix([c] + rest) == [c] + Unix(rest)
  {
    assert ([c] + rest)[1..] == rest;
  }

  lemma {:induction false} UnixPrefix(prefix: string, rest: string)
    requires '\r' !in prefix
    ensures Unix(prefix + rest) == prefix + Unix(rest)
  {
    hide Unix;
    if prefix == "" {
      assert prefix + rest == rest && prefix + Unix(rest) == Unix(rest);
    } else {
      var tail := prefix[1..];
      UnixPrefix(tail, rest);
      UnixStep(prefix[0], tail + rest);
      assert prefix + rest == [prefix[0]] + (tail + rest);
      assert prefix + Unix(rest) == [prefix[0]] + (tail + Unix(rest));
    }
  }

  lemma UnixBreak(rest: string)
    ensures Unix("\r\n" + rest) == ['\n'] + Unix(rest)
  {
    assert ("\r\n" + rest)[2..] == rest;
  }

  lemma StrayUnix()
    ensures Unix(STRAY_LIST) == STRAY_TEXT
  {
    hide Unix;
    var tail := "B: 2";
    UnixPrefix(STRAY_FRONT, "\r\r\nB: 2");
    UnixStep('\r', "\r\nB: 2");
    assert Unix("\r\nB: 2") == ['\n'] + Unix(tail) by {
      UnixBreak(tail);
      assert "\r\nB: 2" == "\r\n" + tail;
    }
    NoCRIsStable(tail);
    assert "\r\r\nB: 2" == ['\r'] + "\r\nB: 2";
    assert ['\r'] + (['\n'] + tail) == "\r\nB: 2";
  }

  /** Non-empty lines make a text without breaks. */
  lemma {:induction false} LinesHaveNoBreak(lines: seq<string>)
    requires lines != [] && forall k :: 0 <= k < |lines| ==> lines[k] != "" && '\n' !in lines[k]
    ensures NoBreak(Join(lines, '\n')) && Join(lines, '\n') != "" && Join(lines, '\n')[0] != '\n'
  {
    if |lines| > 1 {
      var rest := Join(lines[1..], '\n');
      LinesHaveNoBreak(lines[1..]);
      var s, n := Join(lines, '\n'), |lines[0]|;
      assert s == lines[0] + "\n" + rest;
      assert forall k :: 0 <= k < n ==> s[k] == lines[0][k];
      assert forall k :: n < k < |s| ==> s[k] == rest[k - n - 1];
    }
  }

  lemma NotBlankText(s: string)
    requires s != "" && !IsSpace(s[0])
    ensures TrimSpace(s) != ""
  {
    assert TrimLeft(s) == s;
  }

  lemma StrayText()
    ensures IsParagraph(STRAY_TEXT) && !Stable(STRAY_TEXT)
  {
    hide TrimSpace, Join;
    StrayJoin();
    LinesHaveNoBreak(STRAY_LINES);
    assert STRAY_TEXT[0] == 'F';
    NotBlankText(STRAY_TEXT);
    var n := |STRAY_FRONT|;
    assert STRAY_TEXT[n] == '\r' && STRAY_TEXT[n + 1] == '\n';
  }

  lemma StrayList()
    ensures Paragraphs(STRAY_LIST) == [STRAY_TEXT]
  {
    hide TrimSpace, SplitBreaks, Unix;
    StrayUnix();
    StrayText();
    SplitOfUnbroken(STRAY_TEXT);
    assert TrimNewlines(STRAY_TEXT) == STRAY_TEXT;
    assert [STRAY_TEXT][1..] == [];
    assert NonBlank([STRAY_TEXT]) == [STRAY_TEXT] + NonBlank([]);
  }

  /** With carriage returns an index may not read back: from this list, the paragraph of its only
      package is selected, and reading the written index does not give it back. */
  lemma StrayCarriageReturn(clean: string -> string)
    requires clean(STRAY_PATH) == STRAY_PATH
    ensures var ps := AllParagraphs([STRAY_LIST]);
            && ps == [STRAY_TEXT]
            && Selectable(clean, ps, STRAY_PATH)
            && RecordFor(clean, ps, STRAY_PATH) == Record(STRAY_PATH, AMD64, STRAY_TEXT)
            && Paragraphs(Written([RecordFor(clean, ps, STRAY_PATH)])) != [STRAY_TEXT]
            && !ReadsAs(clean, Written([RecordFor(clean, ps, STRAY_PATH)]), [RecordFor(clean, ps, STRAY_PATH)], AMD64)
  {
    hide Written, Paragraphs, IsParagraph, Stable, Filename, Architecture;
    var ps := AllParagraphs([STRAY_LIST]);
    StrayList();
    StrayFields(clean);
    var records := [Record(STRAY_PATH, AMD64, STRAY_TEXT)];
    OneList(STRAY_LIST);
    assert Filename(clean, ps[0]) == STRAY_PATH;
    StrayText();
    assert records[0].text == STRAY_TEXT;
    ReadsBackExactly(records);
    assert TextsOf(records) == [STRAY_TEXT];
    assert records[..0] == [] && OfArchitecture(records, AMD64) == records;
  }

  /** A path may be written from the current directory. */
  lemma DotSlash(clean: string -> string, paragraph: string, path: string)
    requires Field(paragraph, "Filename") == "./" + path
    requires path != "" && !IsSpace(path[|path| - 1]) && clean(path) == path && path != "."
    ensures Filename(clean, paragraph) == path
  {
    hide TrimSpace, Field;
    var value := "./" + path;
    assert value[0] == '.' && value[|value| - 1] == path[|path| - 1];
    TrimSpaceTight(value);
    assert value[2..] == path;
  }
}
