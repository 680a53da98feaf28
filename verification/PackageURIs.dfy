/** Reading the package URIs that apt prints: one package for each path in the archive, in the
    order of the paths, whatever the order and repetitions of the lines. */
module PackageURIs {
  import opened Text
  import opened Lists

  datatype PackageURI = PackageURI(uri: string, downloadName: string, relativePath: string)

  /** What the source takes from Go's url and filepath packages: the path of a URI in the archive,
      None where packageURIPath fails, and the last element of a path. */
  datatype Paths = Paths(resolve: string -> Option<string>, base: string -> string)

  // ---------------------------------------------------------------- one line

  /** Other lines are no package lines. */
  predicate Quoted(line: string) {
    "'" <= TrimSpace(line)
  }

  /** The first of strings.Fields, or "". */
  function FirstField(s: string): string {
    if s == "" || IsSpace(s[0]) then "" else [s[0]] + FirstField(s[1..])
  }

  /** The package of a package line; None is an error. */
  function Entry(ps: Paths, raw: string): Option<PackageURI>
    requires Quoted(raw)
  {
    var line := TrimSpace(raw)[1..];
    var end := FirstIndex(line, "'");
    if end == |line| then None
    else
      match ps.resolve(line[..end])
      case None => None
      case Some(path) =>
        var field := FirstField(TrimSpace(line[end + 1..]));
        var name := if field == "" then "" else ps.base(field);
        Some(PackageURI(line[..end], if name == "" then ps.base(path) else name, path))
  }

  // ---------------------------------------------------------------- all lines

  /** Line j gives a package for a path. */
  ghost predicate Gives(ps: Paths, lines: seq<string>, j: nat, path: string)
    requires j < |lines|
  {
    Quoted(lines[j]) && Entry(ps, lines[j]).Some? && Entry(ps, lines[j]).value.relativePath == path
  }

  /** The package comes from the first line that gives its path. */
  ghost predicate FromFirstLine(ps: Paths, lines: seq<string>, package: PackageURI) {
    exists j: nat :: j < |lines| && Gives(ps, lines, j, package.relativePath)
                     && Entry(ps, lines[j]).value == package
                     && forall i :: 0 <= i < j ==> !Gives(ps, lines, i, package.relativePath)
  }

  predicate AllReadable(ps: Paths, lines: seq<string>) {
    forall j :: 0 <= j < |lines| && Quoted(lines[j]) ==> Entry(ps, lines[j]).Some?
  }

  predicate HasPath(packages: seq<PackageURI>, path: string) {
    exists k :: 0 <= k < |packages| && packages[k].relativePath == path
  }

  /** One package for each path that some line gives. */
  ghost predicate OnePerPath(ps: Paths, lines: seq<string>, packages: seq<PackageURI>) {
    && (forall k :: 0 <= k < |packages| ==> FromFirstLine(ps, lines, packages[k]))
    && (forall j: nat :: j < |lines| && Quoted(lines[j]) && Entry(ps, lines[j]).Some? ==>
          HasPath(packages, Entry(ps, lines[j]).value.relativePath))
    && (forall i, k :: 0 <= i < k < |packages| ==> packages[i].relativePath != packages[k].relativePath)
  }

  lemma OneMoreLine(ps: Paths, lines: seq<string>, line: string, package: PackageURI)
    requires FromFirstLine(ps, lines, package)
    ensures FromFirstLine(ps, lines + [line], package)
  {
    hide Quoted, Entry;
    var longer, path := lines + [line], package.relativePath;
    var j: nat :| j < |lines| && Gives(ps, lines, j, path) && Entry(ps, lines[j]).value == package
                  && forall i :: 0 <= i < j ==> !Gives(ps, lines, i, path);
    assert forall i :: 0 <= i <= j ==> longer[i] == lines[i];
    assert forall i :: 0 <= i <= j ==> Gives(ps, longer, i, path) == Gives(ps, lines, i, path);
  }

  /** A line that gives nothing new. */
  lemma SkipLine(ps: Paths, lines: seq<string>, line: string, packages: seq<PackageURI>)
    requires OnePerPath(ps, lines, packages)
    requires Quoted(line) && Entry(ps, line).Some? ==> HasPath(packages, Entry(ps, line).value.relativePath)
    ensures OnePerPath(ps, lines + [line], packages)
  {
    hide Quoted, Entry, FromFirstLine, HasPath;
    forall k | 0 <= k < |packages|
      ensures FromFirstLine(ps, lines + [line], packages[k])
    {
      OneMoreLine(ps, lines, line, packages[k]);
    }
  }

  lemma FirstLineFor(ps: Paths, lines: seq<string>, line: string, packages: seq<PackageURI>)
    requires OnePerPath(ps, lines, packages)
    requires Quoted(line) && Entry(ps, line).Some?
    requires !HasPath(packages, Entry(ps, line).value.relativePath)
    ensures FromFirstLine(ps, lines + [line], Entry(ps, line).value)
  {
    hide Quoted, Entry, HasPath;
    var longer, path := lines + [line], Entry(ps, line).value.relativePath;
    assert longer[|lines|] == line && Gives(ps, longer, |lines|, path);
    forall i | 0 <= i < |lines|
      ensures !Gives(ps, longer, i, path)
    {
      assert longer[i] == lines[i];
    }
  }

  /** A line that gives a path for the first time. */
  lemma TakeLine(ps: Paths, lines: seq<string>, line: string, packages: seq<PackageURI>)
    requires OnePerPath(ps, lines, packages)
    requires Quoted(line) && Entry(ps, line).Some?
    requires !HasPath(packages, Entry(ps, line).value.relativePath)
    ensures OnePerPath(ps, lines + [line], packages + [Entry(ps, line).value])
  {
    hide Quoted, Entry, FromFirstLine;
    var package := Entry(ps, line).value;
    var longer, all := lines + [line], packages + [package];
    forall k | 0 <= k < |packages|
      ensures FromFirstLine(ps, longer, packages[k])
    {
      OneMoreLine(ps, lines, line, packages[k]);
    }
    assert FromFirstLine(ps, longer, package) by {
      FirstLineFor(ps, lines, line, packages);
    }
    forall path | HasPath(packages, path)
      ensures HasPath(all, path)
    {
      var k :| 0 <= k < |packages| && packages[k].relativePath == path;
      assert all[k].relativePath == path;
    }
    assert all[|packages|] == package;
  }

  lemma NoLines(ps: Paths)
    ensures OnePerPath(ps, [], []) && forall path :: !HasPath([], path)
  {
  }

  lemma PathsOfLonger(packages: seq<PackageURI>, package: PackageURI)
    ensures forall path :: HasPath(packages + [package], path) <==>
              HasPath(packages, path) || path == package.relativePath
  {
    var all := packages + [package];
    assert all[|packages|] == package;
    forall path | HasPath(packages, path)
      ensures HasPath(all, path)
    {
      var k :| 0 <= k < |packages| && packages[k].relativePath == path;
      assert all[k].relativePath == path;
    }
  }

  /** parsePackageURIs up to its final sort; None is its error. */
  method ParsePackageURIs(ps: Paths, data: string) returns (result: Option<seq<PackageURI>>)
    ensures result.Some? <==> AllReadable(ps, Split(data, '\n'))
    ensures result.Some? ==> OnePerPath(ps, Split(data, '\n'), result.value)
  {
    hide Quoted, Entry, OnePerPath, HasPath;
    var lines := Split(data, '\n');
    var seen: set<string> := {};
    var out := [];
    NoLines(ps);
    assert lines[..0] == [];
    for k := 0 to |lines|
      invariant AllReadable(ps, lines[..k]) && OnePerPath(ps, lines[..k], out)
      invariant forall path :: path in seen <==> HasPath(out, path)
    {
      assert lines[..k + 1] == lines[..k] + [lines[k]];
      if !Quoted(lines[k]) {
        SkipLine(ps, lines[..k], lines[k], out);
        continue;
      }
      var entry := Entry(ps, lines[k]);
      if entry.None? {
        return None;
      }
      if entry.value.relativePath in seen {
        SkipLine(ps, lines[..k], lines[k], out);
        continue;
      }
      TakeLine(ps, lines[..k], lines[k], out);
      PathsOfLonger(out, entry.value);
      seen := seen + {entry.value.relativePath};
      out := out + [entry.value];
    }
    assert lines[..|lines|] == lines;
    return Some(out);
  }

  // ---------------------------------------------------------------- the order

  /** The order of strings by their bytes. */
  predicate Less(a: string, b: string) {
    b != "" && (a == "" || a[0] < b[0] || (a[0] == b[0] && Less(a[1..], b[1..])))
  }

  lemma {:induction false} LessIsStrict(a: string, b: string)
    ensures !(Less(a, b) && Less(b, a))
    ensures Less(a, b) || Less(b, a) <==> a != b
  {
    if a != "" && b != "" {
      LessIsStrict(a[1..], b[1..]);
      assert a == [a[0]] + a[1..] && b == [b[0]] + b[1..];
    }
  }

  /** sort.Slice by path: some arrangement in which no path comes after a greater one. */
  ghost predicate SortedArrangement(returned: seq<PackageURI>, packages: seq<PackageURI>) {
    && multiset(returned) == multiset(packages)
    && forall i, k :: 0 <= i < k < |returned| ==> !Less(returned[k].relativePath, returned[i].relativePath)
  }

  ghost predicate Ascending(packages: seq<PackageURI>) {
    forall i, k :: 0 <= i < k < |packages| ==> Less(packages[i].relativePath, packages[k].relativePath)
  }

  /** What parsePackageURIs returns: strictly ascending paths, exactly those that some line gives,
      each with the URI and name of the first line that gives it. */
  lemma ReturnedPackages(ps: Paths, lines: seq<string>, packages: seq<PackageURI>, returned: seq<PackageURI>)
    requires OnePerPath(ps, lines, packages) && SortedArrangement(returned, packages)
    ensures OnePerPath(ps, lines, returned) && Ascending(returned)
  {
    hide Quoted, Entry, FromFirstLine, Less;
    forall k | 0 <= k < |returned|
      ensures FromFirstLine(ps, lines, returned[k])
    {
      assert returned[k] in multiset(packages);
    }
    forall path | HasPath(packages, path)
      ensures HasPath(returned, path)
    {
      var k :| 0 <= k < |packages| && packages[k].relativePath == path;
      assert packages[k] in multiset(returned);
    }
    forall i, k | 0 <= i < k < |returned|
      ensures Less(returned[i].relativePath, returned[k].relativePath)
    {
      var i', k' := TwoPositions(packages, returned, i, k);
      assert i' < k' || k' < i';
      LessIsStrict(returned[i].relativePath, returned[k].relativePath);
    }
  }

  /** The packages are those that come from a first line. */
  lemma PackagesAre(ps: Paths, lines: seq<string>, packages: seq<PackageURI>, package: PackageURI)
    requires OnePerPath(ps, lines, packages)
    ensures package in packages <==> FromFirstLine(ps, lines, package)
  {
    hide Quoted, Entry;
    if FromFirstLine(ps, lines, package) {
      var path := package.relativePath;
      assert HasPath(packages, path);
      var k :| 0 <= k < |packages| && packages[k].relativePath == path;
      assert FromFirstLine(ps, lines, packages[k]);
    }
  }

  lemma WithoutLast(front: seq<PackageURI>, last: PackageURI)
    requires Ascending(front + [last])
    ensures Ascending(front)
    ensures forall p :: p in front <==> p in front + [last] && p != last
  {
    hide Less;
    var a := front + [last];
    assert a[|front|] == last && forall k :: 0 <= k < |front| ==> a[k] == front[k];
    LessIsStrict(last.relativePath, last.relativePath);
  }

  lemma {:induction false} AscendingIsUnique(a: seq<PackageURI>, b: seq<PackageURI>)
    requires Ascending(a) && Ascending(b) && forall p :: p in a <==> p in b
    ensures a == b
    decreases |a|
  {
    hide Less;
    if a != [] {
      assert a[0] in b;
    }
    if b != [] {
      assert b[0] in a;
      assert a != [];
      var n, m := |a| - 1, |b| - 1;
      var last := a[n];
      assert last in b && b[m] in a;
      LessIsStrict(last.relativePath, b[m].relativePath);
      assert last == b[m];
      assert a == a[..n] + [last] && b == b[..m] + [last];
      WithoutLast(a[..n], last);
      WithoutLast(b[..m], last);
      forall p
        ensures p in a[..n] <==> p in b[..m]
      {
        assert p in a[..n] <==> p in a && p != last;
        assert p in b[..m] <==> p in b && p != last;
      }
      AscendingIsUnique(a[..n], b[..m]);
    }
  }

  /** The list is determined by the first line for each path: neither the order of these lines
      nor any further line for the same paths makes a difference. */
  lemma OrderDoesNotMatter(ps: Paths, lines: seq<string>, a: seq<PackageURI>, others: seq<string>, b: seq<PackageURI>)
    requires OnePerPath(ps, lines, a) && Ascending(a)
    requires OnePerPath(ps, others, b) && Ascending(b)
    requires forall package :: FromFirstLine(ps, lines, package) <==> FromFirstLine(ps, others, package)
    ensures a == b
  {
    hide OnePerPath, FromFirstLine, Ascending;
    forall package
      ensures package in a <==> package in b
    {
      PackagesAre(ps, lines, a, package);
      PackagesAre(ps, others, b, package);
    }
    AscendingIsUnique(a, b);
  }

  // ---------------------------------------------------------------- what a line says

  lemma QuoteEnds(uri: string, rest: string)
    requires '\'' !in uri
    ensures FirstIndex(uri + "'" + rest, "'") == |uri| < |uri + "'" + rest|
  {
    var s := uri + "'" + rest;
    assert s[|uri|..|uri| + 1] == "'";
    assert OccursAt(s, "'", |uri|);
    forall j: nat | j < |uri|
      ensures !OccursAt(s, "'", j)
    {
      assert s[j] == uri[j];
      assert s[j..j + 1][0] == s[j];
    }
  }

  lemma {:induction false} FirstFieldIs(name: string, rest: string)
    requires forall k :: 0 <= k < |name| ==> !IsSpace(name[k])
    requires rest == "" || IsSpace(rest[0])
    ensures FirstField(name + rest) == name
  {
    if name == "" {
      assert name + rest == rest;
    } else {
      assert (name + rest)[1..] == name[1..] + rest;
      FirstFieldIs(name[1..], rest);
      assert [name[0]] + name[1..] == name;
    }
  }

  /** What stands around the closing quote of a package line. */
  lemma LineParts(ps: Paths, uri: string, tail: string)
    requires '\'' !in uri && (tail == "" || !IsSpace(tail[|tail| - 1]))
    ensures var line := "'" + (uri + "'" + tail);
            && Quoted(line)
            && Entry(ps, line) == match ps.resolve(uri)
                 case None => None
                 case Some(path) =>
                   var field := FirstField(TrimSpace(tail));
                   var name := if field == "" then "" else ps.base(field);
                   Some(PackageURI(uri, if name == "" then ps.base(path) else name, path))
  {
    hide TrimSpace, FirstField, FirstIndex;
    var after := uri + "'" + tail;
    var line := "'" + after;
    assert line[0] == '\'' && line[|line| - 1] == if tail == "" then '\'' else tail[|tail| - 1];
    TrimSpaceTight(line);
    assert line[1..] == after && line[..1] == "'";
    QuoteEnds(uri, tail);
    assert after[..|uri|] == uri && after[|uri| + 1..] == tail;
  }

  /** A package line: the URI in quotes, then the name of the download, then anything else. */
  lemma EntryOfLine(ps: Paths, uri: string, name: string, rest: string, path: string)
    requires '\'' !in uri && name != "" && (forall k :: 0 <= k < |name| ==> !IsSpace(name[k]))
    requires rest == "" || (IsSpace(rest[0]) && !IsSpace(rest[|rest| - 1]))
    requires ps.resolve(uri) == Some(path) && ps.base(name) != ""
    ensures var line := "'" + (uri + "'" + (" " + (name + rest)));
            Quoted(line) && Entry(ps, line) == Some(PackageURI(uri, ps.base(name), path))
  {
    hide TrimSpace, FirstField, Entry, Quoted;
    var tail := name + rest;
    assert tail[0] == name[0] && tail[|tail| - 1] == if rest == "" then name[|name| - 1] else rest[|rest| - 1];
    assert (" " + tail)[|tail|] == tail[|tail| - 1];
    LineParts(ps, uri, " " + tail);
    SpaceTrimmed(tail);
    FirstFieldIs(name, rest);
  }

  /** A line with an open quote is an error. */
  lemma OpenQuote(ps: Paths, text: string)
    requires '\'' !in text && (text == "" || !IsSpace(text[|text| - 1]))
    ensures Quoted("'" + text) && Entry(ps, "'" + text) == None
  {
    hide TrimSpace;
    var line := "'" + text;
    assert line[0] == '\'' && line[|line| - 1] == if text == "" then '\'' else text[|text| - 1];
    TrimSpaceTight(line);
    assert line[1..] == text;
    forall j: nat | j < |text|
      ensures !OccursAt(text, "'", j)
    {
      assert j + 1 <= |text| ==> text[j..j + 1][0] == text[j];
    }
  }

  /** A line with the URI alone: the download is named by the path. */
  lemma EntryOfBareLine(ps: Paths, uri: string, path: string)
    requires '\'' !in uri && ps.resolve(uri) == Some(path)
    ensures var line := "'" + (uri + "'" + "");
            Quoted(line) && Entry(ps, line) == Some(PackageURI(uri, ps.base(path), path))
  {
    hide TrimSpace, Entry, Quoted;
    LineParts(ps, uri, "");
    TrimSpaceTight("");
  }
}
