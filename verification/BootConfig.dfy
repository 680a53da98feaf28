/** Patching the installer image's boot configurations: fixed timeout directives, and the
    installer's kernel arguments on every boot line. */
module BootConfig {
  import opened Text
  import opened KernelArgs

  /** The two configuration languages: the prefixes that announce their two directives, whether
      case matters, the fixed directives, and the spelling of the data source argument. */
  datatype Dialect = Dialect(
    first: string, second: string, fold: bool,
    firstSetting: string, secondSetting: string,
    nocloud: string)

  const GRUB := Dialect("set timeout_style=", "set timeout=", false,
                        "set timeout_style=hidden", "set timeout=0", GRUB_NOCLOUD_ARG)

  const SYSLINUX := Dialect("prompt ", "timeout ", true, "prompt 0", "timeout 1", NOCLOUD_ARG)
  const KERNEL := "/casper/vmlinuz"

  datatype Kind = First | Second | Boot | Plain

  predicate HasPrefix(line: string, prefix: string, fold: bool) {
    prefix <= if fold then Lower(TrimSpace(line)) else TrimSpace(line)
  }

  predicate IsInstallerBootLine(line: string) {
    || HasPrefix(line, "linux ", true)
    || HasPrefix(line, "linuxefi ", true)
    || HasPrefix(line, "append ", true)
    || Contains(Lower(TrimSpace(line)), KERNEL)
  }

  function Classify(d: Dialect, line: string): Kind {
    if HasPrefix(line, d.first, d.fold) then First
    else if HasPrefix(line, d.second, d.fold) then Second
    else if IsInstallerBootLine(line) then Boot
    else Plain
  }

  /** The leading spaces and tabs of a line. */
  function Indent(line: string): (r: string)
    ensures r <= line
    ensures forall k :: 0 <= k < |r| ==> r[k] == ' ' || r[k] == '\t'
    ensures |r| < |line| ==> line[|r|] != ' ' && line[|r|] != '\t'
  {
    if line == "" || (line[0] != ' ' && line[0] != '\t') then ""
    else
      var rest := Indent(line[1..]);
      assert forall k :: 0 < k <= |rest| ==> ([line[0]] + rest)[k] == rest[k - 1];
      [line[0]] + rest
  }

  /** What becomes of a line. */
  function Patched(d: Dialect, line: string): string {
    match Classify(d, line)
    case First => Indent(line) + d.firstSetting
    case Second => Indent(line) + d.secondSetting
    case Boot => Ensured(line, d.nocloud)
    case Plain => line
  }

  function PatchedEach(d: Dialect, lines: seq<string>): (r: seq<string>)
    ensures |r| == |lines| && forall k :: 0 <= k < |lines| ==> r[k] == Patched(d, lines[k])
  {
    seq(|lines|, k requires 0 <= k < |lines| => Patched(d, lines[k]))
  }

  ghost predicate Has(d: Dialect, lines: seq<string>, kind: Kind) {
    exists k :: 0 <= k < |lines| && Classify(d, lines[k]) == kind
  }

  /** The directives that no line of the file gives. */
  ghost function Preamble(d: Dialect, lines: seq<string>): seq<string> {
    (if Has(d, lines, First) then [] else [d.firstSetting])
    + (if Has(d, lines, Second) then [] else [d.secondSetting])
  }

  ghost function PatchedLines(d: Dialect, lines: seq<string>): seq<string> {
    Preamble(d, lines) + PatchedEach(d, lines)
  }

  predicate EndsInNewline(text: string) {
    text != "" && text[|text| - 1] == '\n'
  }

  /** The lines of a text, without its trailing newline. */
  function SourceLines(text: string): seq<string> {
    Split(if EndsInNewline(text) then text[..|text| - 1] else text, '\n')
  }

  function Unlines(lines: seq<string>, newline: bool): string {
    Join(lines, '\n') + if newline then "\n" else ""
  }

  ghost function Patch(d: Dialect, text: string): string {
    Unlines(PatchedLines(d, SourceLines(text)), EndsInNewline(text))
  }

  /** One line of the loop. */
  method PatchLine(d: Dialect, line: string) returns (updated: string)
    ensures updated == Patched(d, line)
  {
    match Classify(d, line) {
      case First => updated := Indent(line) + d.firstSetting;
      case Second => updated := Indent(line) + d.secondSetting;
      case Boot => updated := EnsureAutoinstallArgs(line, d.nocloud);
      case Plain => updated := line;
    }
  }

  /** The loop: lines are rewritten in place, and what was seen and changed is noted. */
  method PatchEach(d: Dialect, original: seq<string>)
    returns (lines: seq<string>, sawFirst: bool, sawSecond: bool, changed: bool)
    ensures lines == PatchedEach(d, original)
    ensures sawFirst <==> Has(d, original, First)
    ensures sawSecond <==> Has(d, original, Second)
    ensures changed <==> lines != original
  {
    hide Classify, Patched;
    lines := original;
    sawFirst, sawSecond, changed := false, false, false;
    for idx := 0 to |lines|
      invariant |lines| == |original|
      invariant forall k :: 0 <= k < idx ==> lines[k] == Patched(d, original[k])
      invariant forall k :: idx <= k < |lines| ==> lines[k] == original[k]
      invariant sawFirst <==> exists k :: 0 <= k < idx && Classify(d, original[k]) == First
      invariant sawSecond <==> exists k :: 0 <= k < idx && Classify(d, original[k]) == Second
      invariant changed <==> exists k :: 0 <= k < idx && lines[k] != original[k]
    {
      var updated := PatchLine(d, lines[idx]);
      var kind := Classify(d, lines[idx]);
      sawFirst, sawSecond := sawFirst || kind == First, sawSecond || kind == Second;
      if updated != lines[idx] {
        lines := lines[idx := updated];
        changed := true;
      }
    }
  }

  lemma UnlinesOfSource(text: string)
    ensures Unlines(SourceLines(text), EndsInNewline(text)) == text
  {
    if EndsInNewline(text) {
      JoinOfSplit(text[..|text| - 1], '\n');
    } else {
      JoinOfSplit(text, '\n');
    }
  }

  /** AddGRUBAutoinstallKernelArgs and AddSyslinuxAutoinstallKernelArgs */
  method AddKernelArgs(d: Dialect, data: string) returns (out: string, changed: bool)
    ensures out == Patch(d, data)
    ensures changed <==> PatchedLines(d, SourceLines(data)) != SourceLines(data)
    ensures !changed ==> out == data
  {
    hide PatchedEach, Join, SourceLines, EndsInNewline, Has;
    var newline := EndsInNewline(data);
    var original := SourceLines(data);
    var lines, sawFirst, sawSecond;
    lines, sawFirst, sawSecond, changed := PatchEach(d, original);
    var prefix := [];
    if !sawFirst {
      prefix := prefix + [d.firstSetting];
    }
    if !sawSecond {
      prefix := prefix + [d.secondSetting];
    }
    assert prefix == Preamble(d, original);
    if |prefix| > 0 {
      assert |prefix + lines| != |original|;
      lines := prefix + lines;
      changed := true;
    } else {
      assert PatchedLines(d, original) == lines;
    }
    if !changed {
      UnlinesOfSource(data);
      return data, false;
    }
    out := Join(lines, '\n');
    if newline {
      out := out + "\n";
    }
  }

  // ---------------------------------------------------------------- leading words

  /** Where the text of a line starts. */
  ghost predicate StartsAt(line: string, a: nat) {
    a < |line| && !IsSpace(line[a]) && forall k :: 0 <= k < a ==> IsSpace(line[k])
  }

  lemma TrimmedFrom(line: string, a: nat)
    requires StartsAt(line, a)
    ensures TrimLeft(line) == line[a..]
    ensures TrimSpace(line) == TrimRight(line[a..])
  {
    hide TrimLeft, TrimRight;
    var t := TrimLeft(line);
    var k := |line| - |t|;
    assert t != "" ==> t[0] == line[k];
  }

  /** A trimmed line begins with a prefix when the prefix stands where its text starts and some
      text reaches the prefix's last character. */
  lemma PrefixIff(line: string, a: nat, prefix: string)
    requires StartsAt(line, a) && prefix != ""
    ensures prefix <= TrimSpace(line) <==>
              && a + |prefix| <= |line| && line[a..a + |prefix|] == prefix
              && exists j :: a + |prefix| - 1 <= j < |line| && !IsSpace(line[j])
  {
    hide TrimLeft, TrimRight, TrimSpace;
    TrimmedFrom(line, a);
    var t := line[a..];
    var r := TrimRight(t);
    assert r == t[..|r|];
    if prefix <= r {
      assert line[a..a + |prefix|] == t[..|prefix|] == r[..|prefix|];
      assert !IsSpace(line[a + |r| - 1]) by {
        assert line[a + |r| - 1] == r[|r| - 1];
      }
    } else if a + |prefix| <= |line| && line[a..a + |prefix|] == prefix {
      assert t[..|prefix|] == prefix;
      forall j | a + |prefix| - 1 <= j < |line|
        ensures IsSpace(line[j])
      {
        assert |r| < |prefix|;
        assert line[j] == t[j - a];
      }
    }
  }

  lemma TextStarts(line: string) returns (a: nat)
    requires TrimSpace(line) != ""
    ensures StartsAt(line, a)
  {
    hide TrimLeft, TrimRight;
    a := |line| - |TrimLeft(line)|;
    assert TrimLeft(line) != "";
  }

  // ---------------------------------------------------------------- classification and insertion

  /** Where the arguments go in: at the end, or in front of the separator. */
  ghost predicate Slot(line: string, at: nat) {
    Gap(line, at) && (at < |line| ==> at + 1 < |line| && line[at + 1] == '-')
  }

  /** A boot word at the start of a line stays there. */
  lemma BootWordKept(line: string, at: nat, arg: string, word: string)
    requires Slot(line, at) && IsArg(arg)
    requires word != "" && ' ' !in word && word[0] != '-' && !IsSpace(word[0])
    requires word + " " <= TrimSpace(line)
    ensures word + " " <= TrimSpace(InsertAt(line, at, arg))
  {
    hide TrimSpace;
    var prefix, longer := word + " ", InsertAt(line, at, arg);
    var a := TextStarts(line);
    PrefixIff(line, a, prefix);
    assert line[a] == word[0] by {
      assert line[a..a + |prefix|][0] == line[a];
    }
    assert at > a;
    assert longer[..at] == line[..at] && longer[at] == ' ' && longer[at + 1] == arg[0];
    assert StartsAt(longer, a);
    if at < a + |prefix| {
      assert line[at] == prefix[at - a] by {
        assert line[a..a + |prefix|][at - a] == line[at];
      }
      assert at == a + |word|;
      assert longer[a..a + |prefix|] == line[a..a + |prefix|];
    } else {
      assert longer[a..a + |prefix|] == line[a..a + |prefix|];
    }
    PrefixIff(longer, a, prefix);
  }

  predicate ArgInitial(c: char) {
    c == 'a' || c == 'c' || c == 'd'
  }

  /** A prefix such as those of the directives: it starts unlike an argument, and so does what
      follows a space inside it. */
  predicate DirectivePrefix(prefix: string) {
    && prefix != "" && !IsSpace(prefix[0]) && !ArgInitial(prefix[0])
    && forall k :: 0 < k < |prefix| && prefix[k - 1] == ' ' ==> !ArgInitial(prefix[k])
  }

  lemma SamePrefix(line: string, longer: string, at: nat, a: nat, prefix: string)
    requires at <= |line| && at < |longer| && longer[..at] == line[..at] && longer[at] == ' '
    requires a + |prefix| <= at + 1 && a + |prefix| <= |longer| && longer[a..a + |prefix|] == prefix
    requires Gap(line, at) && a + |prefix| <= |line|
    ensures line[a..a + |prefix|] == prefix
  {
    forall k | a <= k < a + |prefix|
      ensures line[k] == longer[k]
    {
      if k < at {
        assert line[..at][k] == longer[..at][k];
      }
    }
  }

  /** No directive appears at the start of a line by inserting an argument. */
  lemma DirectiveNotGained(line: string, at: nat, arg: string, prefix: string, a: nat)
    requires Slot(line, at) && IsArg(arg) && StartsAt(line, a) && DirectivePrefix(prefix)
    requires !IsSpace(prefix[|prefix| - 1]) || exists j :: a + |prefix| - 1 <= j < |line| && !IsSpace(line[j])
    requires prefix <= TrimSpace(InsertAt(line, at, arg))
    ensures prefix <= TrimSpace(line)
  {
    hide TrimSpace;
    var longer, n := InsertAt(line, at, arg), |prefix|;
    assert longer[..at] == line[..at] && longer[at] == ' ' && longer[at + 1] == arg[0];
    if at < a {
      assert StartsAt(longer, at + 1);
      PrefixIff(longer, at + 1, prefix);
      assert false;
    } else {
      assert at > a && StartsAt(longer, a);
      PrefixIff(longer, a, prefix);
      if at < a + n - 1 {
        assert false;
      }
      assert at < a + n ==> longer[a..a + n][at - a] == prefix[n - 1];
      SamePrefix(line, longer, at, a, prefix);
      assert line[a..a + n][n - 1] == prefix[n - 1];
      PrefixIff(line, a, prefix);
    }
  }

  // ---------------------------------------------------------------- boot lines stay boot lines

  lemma SpaceOfLower(c: char)
    ensures IsSpace(LowerChar(c)) == IsSpace(c)
    ensures LowerChar(c) == ' ' <==> c == ' '
    ensures LowerChar(c) == '-' <==> c == '-'
  {
  }

  lemma {:induction false} TrimLeftOfLower(s: string)
    ensures TrimLeft(Lower(s)) == Lower(TrimLeft(s))
  {
    if s != "" {
      SpaceOfLower(s[0]);
      assert Lower(s)[1..] == Lower(s[1..]);
      TrimLeftOfLower(s[1..]);
    }
  }

  lemma {:induction false} TrimRightOfLower(s: string)
    ensures TrimRight(Lower(s)) == Lower(TrimRight(s))
  {
    if s != "" {
      var n := |s| - 1;
      SpaceOfLower(s[n]);
      assert Lower(s)[..n] == Lower(s[..n]);
      TrimRightOfLower(s[..n]);
    }
  }

  lemma TrimOfLower(s: string)
    ensures TrimSpace(Lower(s)) == Lower(TrimSpace(s))
  {
    TrimLeftOfLower(s);
    TrimRightOfLower(TrimLeft(s));
  }

  /** Lower case commutes with insertion and keeps arguments and slots. */
  lemma InsertOfLower(line: string, at: nat, arg: string)
    requires Slot(line, at) && IsArg(arg)
    ensures Slot(Lower(line), at) && IsArg(Lower(arg))
    ensures Lower(InsertAt(line, at, arg)) == InsertAt(Lower(line), at, Lower(arg))
  {
    assert forall k :: 0 <= k < |arg| ==> IsArgChar(arg[k]);
  }

  lemma SlotBeforeSeparator(line: string)
    ensures Slot(line, FirstIndex(line, SEPARATOR))
  {
    var k := FirstIndex(line, SEPARATOR);
    assert k < |line| ==> line[k..k + 4][0] == line[k] && line[k..k + 4][1] == line[k + 1];
  }

  lemma TrimmedPart(s: string) returns (a: nat, b: nat)
    ensures a <= b <= |s| && TrimSpace(s) == s[a..b]
    ensures forall k :: 0 <= k < a || b <= k < |s| ==> IsSpace(s[k])
  {
    hide TrimLeft, TrimRight;
    var t := TrimLeft(s);
    a := |s| - |t|;
    b := a + |TrimRight(t)|;
    assert s[a..b] == t[..b - a];
    assert forall k :: b <= k < |s| ==> s[k] == t[k - a];
  }

  lemma Occurrence(s: string, sub: string) returns (at: nat)
    requires Contains(s, sub)
    ensures OccursAt(s, sub, at)
    ensures forall k :: 0 <= k < |sub| ==> s[at + k] == sub[k]
  {
    at :| at <= |s| && OccursAt(s, sub, at);
    forall k | 0 <= k < |sub|
      ensures s[at + k] == sub[k]
    {
      assert s[at..at + |sub|][k] == s[at + k];
    }
  }

  /** A space-free text occurs in a line exactly when it occurs in the trimmed line. */
  lemma ContainsTrimmed(s: string, sub: string)
    requires sub != "" && forall k :: 0 <= k < |sub| ==> !IsSpace(sub[k])
    ensures Contains(TrimSpace(s), sub) <==> Contains(s, sub)
  {
    hide TrimSpace, Contains;
    var a, b := TrimmedPart(s);
    if Contains(TrimSpace(s), sub) {
      ContainsInPart(s, a, b, sub);
    }
    if Contains(s, sub) {
      var at := Occurrence(s, sub);
      assert s[at] == sub[0] && s[at + |sub| - 1] == sub[|sub| - 1];
      OccursInPart(s, a, b, sub, at);
    }
  }

  lemma KernelIsSolid()
    ensures |KERNEL| == 15 && forall k :: 0 <= k < |KERNEL| ==> !IsSpace(KERNEL[k])
  {
  }

  /** An installer line, seen through its lower-case text. */
  predicate BootText(low: string) {
    || "linux " <= TrimSpace(low) || "linuxefi " <= TrimSpace(low) || "append " <= TrimSpace(low)
    || Contains(low, KERNEL)
  }

  lemma BootTextIff(line: string)
    ensures IsInstallerBootLine(line) <==> BootText(Lower(line))
  {
    hide TrimSpace, Contains;
    TrimOfLower(line);
    KernelIsSolid();
    ContainsTrimmed(Lower(line), KERNEL);
  }

  lemma BootTextKept(low: string, at: nat, arg: string)
    requires Slot(low, at) && IsArg(arg) && BootText(low)
    ensures BootText(InsertAt(low, at, arg))
  {
    hide TrimSpace, Contains, IsArg, InsertAt;
    if "linux " <= TrimSpace(low) {
      BootWordKept(low, at, arg, "linux");
    } else if "linuxefi " <= TrimSpace(low) {
      BootWordKept(low, at, arg, "linuxefi");
    } else if "append " <= TrimSpace(low) {
      BootWordKept(low, at, arg, "append");
    } else {
      KernelIsSolid();
      assert ' ' !in KERNEL;
      ContainsAfterInsert(low, at, arg, KERNEL);
    }
  }

  lemma BootTextStarts(low: string) returns (a: nat)
    requires BootText(low)
    ensures StartsAt(low, a)
    ensures Contains(low, KERNEL) ==> exists j :: a + 14 <= j < |low| && !IsSpace(low[j])
  {
    hide TrimSpace, Contains;
    KernelIsSolid();
    if Contains(low, KERNEL) {
      ContainsTrimmed(low, KERNEL);
      var inside := Occurrence(TrimSpace(low), KERNEL);
      a := TextStarts(low);
      var at := Occurrence(low, KERNEL);
      assert !IsSpace(low[at + 0]) && !IsSpace(low[at + 14]);
      assert at >= a;
    } else {
      a := TextStarts(low);
    }
  }

  /** A Syslinux directive does not appear on a boot line by inserting an argument. */
  lemma FoldedDirectiveNotGained(low: string, at: nat, arg: string, prefix: string)
    requires Slot(low, at) && IsArg(arg) && BootText(low)
    requires DirectivePrefix(prefix) && |prefix| <= 15 && prefix[0] != 'l'
    requires prefix <= TrimSpace(InsertAt(low, at, arg))
    ensures prefix <= TrimSpace(low)
  {
    hide TrimSpace, Contains, IsArg, InsertAt;
    var a := BootTextStarts(low);
    var longer := InsertAt(low, at, arg);
    if "linux " <= TrimSpace(low) {
      BootWordKept(low, at, arg, "linux");
    } else if "linuxefi " <= TrimSpace(low) {
      BootWordKept(low, at, arg, "linuxefi");
    } else if "append " <= TrimSpace(low) {
      BootWordKept(low, at, arg, "append");
    } else {
      DirectiveNotGained(low, at, arg, prefix, a);
    }
  }

  predicate IsDialect(d: Dialect) {
    d == GRUB || d == SYSLINUX
  }

  lemma GrubFirst()
    ensures DirectivePrefix("set timeout_style=") && !IsSpace("set timeout_style="[17])
  {
    assert "set timeout_style="[4] == 't';
  }

  lemma GrubSecond()
    ensures DirectivePrefix("set timeout=") && !IsSpace("set timeout="[11])
  {
    assert "set timeout="[4] == 't';
  }

  lemma GrubDirectives()
    ensures DirectivePrefix(GRUB.first) && !IsSpace(GRUB.first[|GRUB.first| - 1])
    ensures DirectivePrefix(GRUB.second) && !IsSpace(GRUB.second[|GRUB.second| - 1])
  {
    hide IsSpace;
    GrubFirst();
    GrubSecond();
  }

  lemma SyslinuxDirectives()
    ensures DirectivePrefix(SYSLINUX.first) && |SYSLINUX.first| <= 15 && SYSLINUX.first[0] != 'l'
    ensures DirectivePrefix(SYSLINUX.second) && |SYSLINUX.second| <= 15 && SYSLINUX.second[0] != 'l'
  {
  }

  lemma DirectivesOf(d: Dialect)
    requires IsDialect(d)
    ensures DirectivePrefix(d.first) && DirectivePrefix(d.second)
    ensures d.fold ==> |d.first| <= 15 && |d.second| <= 15 && d.first[0] != 'l' && d.second[0] != 'l'
    ensures !d.fold ==> !IsSpace(d.first[|d.first| - 1]) && !IsSpace(d.second[|d.second| - 1])
    ensures IsNoCloud(d.nocloud)
  {
    hide DirectivePrefix, IsSpace;
    GrubDirectives();
    SyslinuxDirectives();
  }

  lemma SameStart(line: string, a: nat)
    requires StartsAt(Lower(line), a)
    ensures StartsAt(line, a)
  {
    SpaceOfLower(line[a]);
    forall k | 0 <= k < a
      ensures IsSpace(line[k])
    {
      SpaceOfLower(line[k]);
      assert IsSpace(Lower(line)[k]);
    }
  }

  lemma DirectiveNotGainedOn(d: Dialect, line: string, at: nat, arg: string, prefix: string)
    requires IsDialect(d) && (prefix == d.first || prefix == d.second)
    requires Slot(line, at) && IsArg(arg) && IsInstallerBootLine(line)
    requires HasPrefix(InsertAt(line, at, arg), prefix, d.fold)
    ensures HasPrefix(line, prefix, d.fold)
  {
    hide TrimSpace, Contains, IsArg, InsertAt, IsInstallerBootLine, DirectivePrefix, BootText;
    DirectivesOf(d);
    BootTextIff(line);
    var a := BootTextStarts(Lower(line));
    if d.fold {
      InsertOfLower(line, at, arg);
      TrimOfLower(line);
      TrimOfLower(InsertAt(line, at, arg));
      FoldedDirectiveNotGained(Lower(line), at, Lower(arg), prefix);
    } else {
      SameStart(line, a);
      DirectiveNotGained(line, at, arg, prefix, a);
    }
  }

  /** A boot line with one more argument is still a boot line. */
  lemma BootKept(d: Dialect, line: string, at: nat, arg: string)
    requires IsDialect(d) && Slot(line, at) && IsArg(arg) && Classify(d, line) == Boot
    ensures Classify(d, InsertAt(line, at, arg)) == Boot
  {
    hide IsInstallerBootLine, HasPrefix, BootText, IsDialect, IsArg, InsertAt;
    var longer := InsertAt(line, at, arg);
    if HasPrefix(longer, d.first, d.fold) {
      DirectiveNotGainedOn(d, line, at, arg, d.first);
    }
    if HasPrefix(longer, d.second, d.fold) {
      DirectiveNotGainedOn(d, line, at, arg, d.second);
    }
    BootTextIff(line);
    InsertOfLower(line, at, arg);
    BootTextKept(Lower(line), at, Lower(arg));
    BootTextIff(longer);
  }

  lemma {:induction false} BootKeptByAll(d: Dialect, line: string, args: seq<string>)
    requires IsDialect(d) && Classify(d, line) == Boot
    requires forall k :: 0 <= k < |args| ==> IsArg(args[k])
    ensures Classify(d, InsertMissing(line, args)) == Boot
  {
    hide Classify, IsDialect, IsArg, Contains, FirstIndex;
    if args != [] {
      var before, arg := InsertMissing(line, args[..|args| - 1]), args[|args| - 1];
      BootKeptByAll(d, line, args[..|args| - 1]);
      SlotBeforeSeparator(before);
      BootKept(d, before, FirstIndex(before, SEPARATOR), arg);
    }
  }

  // ---------------------------------------------------------------- patched lines are settled

  lemma {:induction false} IndentIs(indent: string, rest: string)
    requires forall k :: 0 <= k < |indent| ==> indent[k] == ' ' || indent[k] == '\t'
    requires rest != "" && rest[0] != ' ' && rest[0] != '\t'
    ensures Indent(indent + rest) == indent
  {
    if indent == "" {
      assert indent + rest == rest;
    } else {
      assert (indent + rest)[1..] == indent[1..] + rest;
      IndentIs(indent[1..], rest);
    }
  }

  lemma TrimOfIndented(indent: string, rest: string)
    requires forall k :: 0 <= k < |indent| ==> indent[k] == ' ' || indent[k] == '\t'
    requires rest != "" && !IsSpace(rest[0]) && !IsSpace(rest[|rest| - 1])
    ensures TrimSpace(indent + rest) == rest
  {
    var line := indent + rest;
    assert StartsAt(line, |indent|);
    TrimmedFrom(line, |indent|);
    assert line[|indent|..] == rest;
  }

  /** A line that begins with a directive's text after its indent. */
  predicate Directive(setting: string) {
    setting != "" && !IsSpace(setting[0]) && !IsSpace(setting[|setting| - 1])
  }

  lemma IndentedPrefix(indent: string, setting: string, prefix: string, fold: bool)
    requires forall k :: 0 <= k < |indent| ==> indent[k] == ' ' || indent[k] == '\t'
    requires Directive(setting)
    ensures HasPrefix(indent + setting, prefix, fold) <==> prefix <= if fold then Lower(setting) else setting
    ensures Indent(indent + setting) == indent
  {
    hide TrimSpace;
    TrimOfIndented(indent, setting);
    IndentIs(indent, setting);
  }

  lemma GrubShape()
    ensures Directive(GRUB.firstSetting) && Directive(GRUB.secondSetting)
    ensures GRUB.first <= GRUB.firstSetting && GRUB.second <= GRUB.secondSetting
    ensures !(GRUB.first <= GRUB.secondSetting)
  {
    assert |GRUB.first| == 18 && |GRUB.secondSetting| == 13;
  }

  lemma SyslinuxShape()
    ensures Directive(SYSLINUX.firstSetting) && Directive(SYSLINUX.secondSetting)
    ensures Lower(SYSLINUX.firstSetting) == "prompt 0" && Lower(SYSLINUX.secondSetting) == "timeout 1"
    ensures SYSLINUX.first <= "prompt 0" && SYSLINUX.second <= "timeout 1"
    ensures !(SYSLINUX.first <= "timeout 1")
  {
    assert SYSLINUX.first[0] == 'p' && "timeout 1"[0] == 't';
  }

  lemma SettingShape(d: Dialect)
    requires IsDialect(d)
    ensures Directive(d.firstSetting) && Directive(d.secondSetting)
    ensures d.first <= if d.fold then Lower(d.firstSetting) else d.firstSetting
    ensures !(d.first <= if d.fold then Lower(d.secondSetting) else d.secondSetting)
    ensures d.second <= if d.fold then Lower(d.secondSetting) else d.secondSetting
  {
    hide Directive, Lower;
    GrubShape();
    SyslinuxShape();
  }

  /** The fixed directives, with any indent, are directives of their own kind. */
  lemma SettingIsSettled(d: Dialect, indent: string)
    requires IsDialect(d)
    requires forall k :: 0 <= k < |indent| ==> indent[k] == ' ' || indent[k] == '\t'
    ensures Classify(d, indent + d.firstSetting) == First && Patched(d, indent + d.firstSetting) == indent + d.firstSetting
    ensures Classify(d, indent + d.secondSetting) == Second && Patched(d, indent + d.secondSetting) == indent + d.secondSetting
  {
    hide IsInstallerBootLine, Ensured, HasPrefix, Indent, IsDialect, Directive;
    SettingShape(d);
    IndentedPrefix(indent, d.firstSetting, d.first, d.fold);
    IndentedPrefix(indent, d.secondSetting, d.first, d.fold);
    IndentedPrefix(indent, d.secondSetting, d.second, d.fold);
  }

  /** A patched line keeps its kind, and patching it again changes nothing. */
  lemma PatchedIsSettled(d: Dialect, line: string)
    requires IsDialect(d)
    ensures Classify(d, Patched(d, line)) == Classify(d, line)
    ensures Patched(d, Patched(d, line)) == Patched(d, line)
    ensures Classify(d, line) == Boot ==> Complete(Patched(d, line), d.nocloud)
  {
    hide Classify, Indent, Complete, InsertMissing, IsArg;
    DirectivesOf(d);
    match Classify(d, line) {
      case First => SettingIsSettled(d, Indent(line));
      case Second => SettingIsSettled(d, Indent(line));
      case Boot =>
        ArgsAreArgs(d.nocloud);
        EnsuredIsComplete(line, d.nocloud);
        if !Complete(line, d.nocloud) {
          BootKeptByAll(d, line, InsertArgs(d.nocloud));
        }
      case Plain =>
    }
  }

  // ---------------------------------------------------------------- whole files

  lemma {:induction false} InsertedHasNoNewline(line: string, args: seq<string>)
    requires '\n' !in line && forall k :: 0 <= k < |args| ==> IsArg(args[k])
    ensures '\n' !in InsertMissing(line, args)
  {
    hide FirstIndex, Contains;
    if args != [] {
      InsertedHasNoNewline(line, args[..|args| - 1]);
      ArgHasNoBlank(args[|args| - 1]);
    }
  }

  lemma SettingsHaveNoNewline(d: Dialect)
    requires IsDialect(d)
    ensures '\n' !in d.firstSetting && '\n' !in d.secondSetting
  {
  }

  lemma PatchedHasNoNewline(d: Dialect, line: string)
    requires IsDialect(d) && '\n' !in line
    ensures '\n' !in Patched(d, line)
  {
    hide Classify, IsArg, InsertMissing, Complete, Indent;
    DirectivesOf(d);
    SettingsHaveNoNewline(d);
    ArgsAreArgs(d.nocloud);
    InsertedHasNoNewline(line, InsertArgs(d.nocloud));
  }

  lemma NothingInEmpty(sub: string)
    requires sub != ""
    ensures !Contains("", sub)
  {
  }

  lemma PatchedIsNotEmpty(d: Dialect, line: string)
    requires IsDialect(d) && line != ""
    ensures Patched(d, line) != ""
  {
    hide Classify, Ensured, Indent;
    SettingShape(d);
    PatchedIsSettled(d, line);
    NothingInEmpty(AUTOINSTALL_ARG);
  }

  lemma LinesHaveNoNewline(d: Dialect, text: string)
    requires IsDialect(d)
    ensures forall k :: 0 <= k < |PatchedLines(d, SourceLines(text))| ==>
              '\n' !in PatchedLines(d, SourceLines(text))[k]
  {
    hide Has, Patched;
    var body := if EndsInNewline(text) then text[..|text| - 1] else text;
    SplitHasNoSep(body, '\n');
    SettingsHaveNoNewline(d);
    forall k | 0 <= k < |SourceLines(text)|
      ensures '\n' !in PatchedEach(d, SourceLines(text))[k]
    {
      PatchedHasNoNewline(d, SourceLines(text)[k]);
    }
  }

  lemma {:induction false} JoinEnds(parts: seq<string>)
    requires parts != [] && parts[|parts| - 1] != ""
    ensures Join(parts, '\n') != ""
    ensures Join(parts, '\n')[|Join(parts, '\n')| - 1] == parts[|parts| - 1][|parts[|parts| - 1]| - 1]
  {
    if |parts| > 1 {
      JoinEnds(parts[1..]);
    }
  }

  lemma {:induction false} LastPart(s: string)
    requires s != "" && s[|s| - 1] != '\n'
    ensures Split(s, '\n')[|Split(s, '\n')| - 1] != ""
  {
    if |s| > 1 {
      LastPart(s[1..]);
    }
  }

  /** Patching a non-empty file gives its patched lines, and keeps its trailing newline or its
      lack of one. */
  lemma LinesOfPatch(d: Dialect, text: string)
    requires IsDialect(d) && text != ""
    ensures SourceLines(Patch(d, text)) == PatchedLines(d, SourceLines(text))
    ensures EndsInNewline(Patch(d, text)) == EndsInNewline(text)
  {
    hide IsDialect, Has, Patched, Split, Join;
    var lines := PatchedLines(d, SourceLines(text));
    LinesHaveNoNewline(d, text);
    SplitOfJoin(lines, '\n');
    var joined := Join(lines, '\n');
    if EndsInNewline(text) {
      assert (joined + "\n")[..|joined|] == joined;
    } else {
      LastPart(text);
      var last := SourceLines(text)[|SourceLines(text)| - 1];
      PatchedIsNotEmpty(d, last);
      assert lines[|lines| - 1] == Patched(d, last);
      SplitHasNoSep(text, '\n');
      PatchedHasNoNewline(d, last);
      JoinEnds(lines);
      assert joined + "" == joined;
    }
  }

  lemma DirectiveSurvives(d: Dialect, lines: seq<string>, kind: Kind)
    requires IsDialect(d) && (kind == First || kind == Second)
    ensures Has(d, PatchedLines(d, lines), kind)
  {
    hide Classify, Patched, IsDialect;
    var preamble, again := Preamble(d, lines), PatchedLines(d, lines);
    if Has(d, lines, kind) {
      var k :| 0 <= k < |lines| && Classify(d, lines[k]) == kind;
      PatchedIsSettled(d, lines[k]);
      assert again[|preamble| + k] == Patched(d, lines[k]);
    } else {
      assert "" + d.firstSetting == d.firstSetting && "" + d.secondSetting == d.secondSetting;
      SettingIsSettled(d, "");
      var k := if kind == First then 0 else |preamble| - 1;
      assert again[k] == if kind == First then d.firstSetting else d.secondSetting;
    }
  }

  /** Patched lines are their own patched lines. */
  lemma PatchedLinesSettled(d: Dialect, lines: seq<string>)
    requires IsDialect(d)
    ensures var again := PatchedLines(d, lines);
            && Has(d, again, First) && Has(d, again, Second)
            && PatchedEach(d, again) == again
            && PatchedLines(d, again) == again
  {
    hide Classify, Patched, IsDialect;
    var preamble, each := Preamble(d, lines), PatchedEach(d, lines);
    var again := PatchedLines(d, lines);
    assert "" + d.firstSetting == d.firstSetting && "" + d.secondSetting == d.secondSetting;
    SettingIsSettled(d, "");
    forall k | 0 <= k < |again|
      ensures Patched(d, again[k]) == again[k]
    {
      if k >= |preamble| {
        PatchedIsSettled(d, lines[k - |preamble|]);
      }
    }
    DirectiveSurvives(d, lines, First);
    DirectiveSurvives(d, lines, Second);
    assert PatchedEach(d, again) == again;
    assert [] + [] + again == again;
  }

  lemma BlankIsPlain(d: Dialect)
    requires IsDialect(d)
    ensures Classify(d, "") == Plain && Patched(d, "") == ""
  {
    DirectivesOf(d);
    assert TrimSpace("") == "" && Lower("") == "";
  }

  lemma EmptyFile(d: Dialect)
    requires IsDialect(d)
    ensures Patch(d, "") == d.firstSetting + "\n" + d.secondSetting + "\n"
    ensures SourceLines(Patch(d, "")) == [d.firstSetting, d.secondSetting]
    ensures EndsInNewline(Patch(d, ""))
  {
    hide Classify, Patched, IsDialect;
    BlankIsPlain(d);
    assert SourceLines("") == [""];
    assert !Has(d, [""], First) && !Has(d, [""], Second);
    var lines := [d.firstSetting, d.secondSetting];
    assert PatchedLines(d, [""]) == lines + [""];
    assert (lines + [""])[1..] == [d.secondSetting, ""] && [d.secondSetting, ""][1..] == [""];
    assert lines[1..] == [d.secondSetting];
    var text := d.firstSetting + "\n" + d.secondSetting;
    assert Join(lines, '\n') == text;
    var padded := lines + [""];
    assert Join([d.secondSetting, ""], '\n') == d.secondSetting + ['\n'] + "";
    assert Join(padded, '\n') == d.firstSetting + ['\n'] + (d.secondSetting + ['\n'] + "");
    assert Join(padded, '\n') == text + "\n";
    assert Patch(d, "") == Join(padded, '\n') + "";
    assert (text + "\n")[..|text|] == text;
    SettingsHaveNoNewline(d);
    SplitOfJoin(lines, '\n');
  }

  lemma SettledSettings(d: Dialect)
    requires IsDialect(d)
    ensures PatchedLines(d, [d.firstSetting, d.secondSetting]) == [d.firstSetting, d.secondSetting]
  {
    hide Classify, Patched, IsDialect;
    var lines := [d.firstSetting, d.secondSetting];
    assert "" + d.firstSetting == d.firstSetting && "" + d.secondSetting == d.secondSetting;
    SettingIsSettled(d, "");
    assert Classify(d, lines[0]) == First && Classify(d, lines[1]) == Second;
    assert PatchedEach(d, lines) == lines;
    assert [] + [] + lines == lines;
  }

  /** Patching twice gives the same file as patching once, and the second pass reports that
      nothing changed. */
  lemma PatchIdempotent(d: Dialect, text: string)
    requires IsDialect(d)
    ensures Patch(d, Patch(d, text)) == Patch(d, text)
    ensures PatchedLines(d, SourceLines(Patch(d, text))) == SourceLines(Patch(d, text))
  {
    hide IsDialect, PatchedEach, Has, Join, Split;
    var out := Patch(d, text);
    PatchedLinesSettled(d, SourceLines(text));
    if text == "" {
      EmptyFile(d);
      SettledSettings(d);
    } else {
      LinesOfPatch(d, text);
    }
    UnlinesOfSource(out);
  }

  lemma PatchedShape(d: Dialect, source: seq<string>, k: nat)
    requires k < |source|
    ensures var out, n := PatchedLines(d, source), |Preamble(d, source)|;
            && |out| == n + |source| && n <= 2 && out[..n] == Preamble(d, source)
            && out[n + k] == Patched(d, source[k])
  {
    hide Has, Patched;
  }

  /** The patched file line by line: first the missing directives, then every line of the source
      in order. Directives have their fixed value and their old indent, boot lines contain the
      installer's arguments, and every other line is unchanged. */
  lemma PatchIsCompleteAndConservative(d: Dialect, text: string, k: nat)
    requires IsDialect(d) && text != "" && k < |SourceLines(text)|
    ensures var source, out := SourceLines(text), SourceLines(Patch(d, text));
            var n := |out| - |source|;
            && 0 <= n <= 2 && out[..n] == Preamble(d, source)
            && Has(d, out, First) && Has(d, out, Second)
            && Classify(d, out[n + k]) == Classify(d, source[k])
            && match Classify(d, source[k])
               case First => out[n + k] == Indent(source[k]) + d.firstSetting
               case Second => out[n + k] == Indent(source[k]) + d.secondSetting
               case Boot => Complete(out[n + k], d.nocloud)
               case Plain => out[n + k] == source[k]
  {
    hide IsDialect, Has, Join, Split, Classify, Complete, Indent, Ensured, SourceLines, Patch, PatchedLines, Preamble;
    var source := SourceLines(text);
    LinesOfPatch(d, text);
    PatchedLinesSettled(d, source);
    PatchedIsSettled(d, source[k]);
    PatchedShape(d, source, k);
  }

  /** On a boot line everything that was there is kept, and exactly the arguments that were missing
      are added, in their order and together, right before the first separator or at the end of a
      line without one. */
  lemma BootLineKeepsItsText(line: string, nocloud: string)
    requires IsNoCloud(nocloud)
    ensures Together(line, Ensured(line, nocloud),
                     if Complete(line, nocloud) then [] else Missing(line, InsertArgs(nocloud)))
  {
    hide IsArg, InsertMissing, Together, Missing;
    ArgsAreArgs(nocloud);
    InsertArgsAreApart(nocloud);
    NothingInserted(line);
    InsertionsAreTogether(line, InsertArgs(nocloud));
  }

  /** Which lines boot the installer: by their first word, or by the kernel they mention, in any case. */
  lemma BootLineIff(line: string)
    ensures IsInstallerBootLine(line) <==>
              || (exists word <- ["linux", "linuxefi", "append"] :: word + " " <= Lower(TrimSpace(line)))
              || Contains(Lower(line), "/casper/vmlinuz")
  {
    hide Lower, TrimSpace, Contains;
    BootTextIff(line);
    TrimOfLower(line);
    var words := ["linux", "linuxefi", "append"];
    assert words[0] in words && words[1] in words && words[2] in words;
    assert "linux" + " " == "linux " && "linuxefi" + " " == "linuxefi " && "append" + " " == "append ";
  }

  /** A directive with any value, after any indent, gets its fixed value. */
  lemma GrubDirective(indent: string, value: string)
    requires forall k :: 0 <= k < |indent| ==> indent[k] == ' ' || indent[k] == '\t'
    requires value != "" && !IsSpace(value[|value| - 1])
    ensures Patched(GRUB, indent + ("set timeout=" + value)) == indent + "set timeout=0"
    ensures Patched(GRUB, indent + ("set timeout_style=" + value)) == indent + "set timeout_style=hidden"
  {
    hide HasPrefix, Indent;
    var timeout, style := "set timeout=" + value, "set timeout_style=" + value;
    assert timeout[0] == 's' && style[0] == 's';
    assert timeout[11] == '=' && "set timeout_style="[11] == '_';
    assert "set timeout=" <= timeout && "set timeout_style=" <= style;
    IndentedPrefix(indent, timeout, "set timeout_style=", false);
    IndentedPrefix(indent, timeout, "set timeout=", false);
    IndentedPrefix(indent, style, "set timeout_style=", false);
  }

  lemma SyslinuxDirective(indent: string, value: string)
    requires forall k :: 0 <= k < |indent| ==> indent[k] == ' ' || indent[k] == '\t'
    requires value != "" && !IsSpace(value[|value| - 1])
    ensures Patched(SYSLINUX, indent + ("PROMPT " + value)) == indent + "prompt 0"
    ensures Patched(SYSLINUX, indent + ("Timeout " + value)) == indent + "timeout 1"
  {
    hide HasPrefix, Indent;
    var prompt, timeout := "PROMPT " + value, "Timeout " + value;
    assert prompt[0] == 'P' && timeout[0] == 'T';
    LowerConcat("PROMPT ", value);
    LowerConcat("Timeout ", value);
    assert Lower("PROMPT ") == "prompt " && Lower("Timeout ") == "timeout ";
    assert Lower(timeout)[0] == 't' && "prompt "[0] == 'p';
    IndentedPrefix(indent, prompt, "prompt ", true);
    IndentedPrefix(indent, timeout, "prompt ", true);
    IndentedPrefix(indent, timeout, "timeout ", true);
  }

  /** What holds for every dialect holds for both languages. */
  lemma BothDialects()
    ensures IsDialect(GRUB) && IsDialect(SYSLINUX) && GRUB != SYSLINUX
  {
  }
}
