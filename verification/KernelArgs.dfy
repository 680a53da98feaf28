/** Adding the installer's kernel arguments to a boot line, and the guest's filter that takes
    them out of its own kernel command line again. */
module KernelArgs {
  import opened Text

  const NOCLOUD_ARG := "ds=nocloud;s=/cdrom/nocloud/"
  const GRUB_NOCLOUD_ARG := "ds=nocloud\\;s=/cdrom/nocloud/"
  const TTY0_ARG := "console=tty0"
  const TTYS0_ARG := "console=ttyS0,115200n8"
  const AUTOINSTALL_ARG := "autoinstall"
  const SEPARATOR := " ---"

  /** One of the two spellings of the data source argument. */
  predicate IsNoCloud(arg: string) {
    arg == NOCLOUD_ARG || arg == GRUB_NOCLOUD_ARG
  }

  function InsertArgs(nocloud: string): seq<string> {
    [AUTOINSTALL_ARG, nocloud, TTY0_ARG, TTYS0_ARG]
  }

  predicate IsArgChar(c: char) {
    '/' <= c <= 'z' || c == ','
  }

  /** What the arguments have in common: no blank, no dash, and a first letter that no directive
      of a boot configuration starts with. */
  predicate IsArg(arg: string) {
    && arg != ""
    && (forall k :: 0 <= k < |arg| ==> IsArgChar(arg[k]))
    && (arg[0] == 'a' || arg[0] == 'c' || arg[0] == 'd')
  }

  lemma AutoinstallIsArg()
    ensures IsArg(AUTOINSTALL_ARG)
  {
  }

  lemma NoCloudIsArg()
    ensures IsArg(NOCLOUD_ARG)
  {
  }

  lemma GrubNoCloudIsArg()
    ensures IsArg(GRUB_NOCLOUD_ARG)
  {
  }

  lemma ConsolesAreArgs()
    ensures IsArg(TTY0_ARG) && IsArg(TTYS0_ARG)
  {
  }

  lemma ArgsAreArgs(nocloud: string)
    requires IsNoCloud(nocloud)
    ensures forall k :: 0 <= k < 4 ==> IsArg(InsertArgs(nocloud)[k])
  {
    hide IsArg;
    AutoinstallIsArg();
    NoCloudIsArg();
    GrubNoCloudIsArg();
    ConsolesAreArgs();
  }

  // ---------------------------------------------------------------- insertion

  function InsertAt(line: string, at: nat, arg: string): string
    requires at <= |line|
  {
    line[..at] + [' '] + (arg + line[at..])
  }

  /** insertBeforeTripleDash */
  function InsertBeforeTripleDash(line: string, arg: string): string {
    InsertAt(line, FirstIndex(line, SEPARATOR), arg)
  }

  function InsertMissing(line: string, args: seq<string>): string {
    if args == [] then line
    else
      var before := InsertMissing(line, args[..|args| - 1]);
      var arg := args[|args| - 1];
      if Contains(before, arg) then before else InsertBeforeTripleDash(before, arg)
  }

  predicate Complete(line: string, nocloud: string) {
    Contains(line, AUTOINSTALL_ARG) && Contains(line, nocloud) && Contains(line, TTYS0_ARG)
  }

  function Ensured(line: string, nocloud: string): string {
    if Complete(line, nocloud) then line else InsertMissing(line, InsertArgs(nocloud))
  }

  method EnsureAutoinstallArgs(line: string, nocloud: string) returns (updated: string)
    ensures updated == Ensured(line, nocloud)
  {
    if Complete(line, nocloud) {
      return line;
    }
    var args := InsertArgs(nocloud);
    updated := line;
    assert args[..0] == [];
    for k := 0 to |args|
      invariant updated == InsertMissing(line, args[..k])
    {
      assert args[..k + 1][..k] == args[..k];
      if Contains(updated, args[k]) {
        continue;
      }
      updated := InsertBeforeTripleDash(updated, args[k]);
    }
    assert args[..|args|] == args;
  }

  // ---------------------------------------------------------------- insertion and occurrences

  /** Insertions happen at the end of a line or in front of a space. */
  predicate Gap(line: string, at: nat) {
    at == |line| || (at < |line| && line[at] == ' ')
  }

  lemma InsertionGap(line: string)
    ensures Gap(line, FirstIndex(line, SEPARATOR))
  {
    var k := FirstIndex(line, SEPARATOR);
    assert k < |line| ==> line[k..k + 4][0] == ' ';
  }

  /** A space-free text occurs after an insertion exactly when it did before or is in the
      inserted argument. */
  lemma ContainsAfterInsert(line: string, at: nat, arg: string, sub: string)
    requires Gap(line, at) && ' ' !in sub && sub != ""
    ensures Contains(InsertAt(line, at, arg), sub) <==> Contains(line, sub) || Contains(arg, sub)
  {
    var longer := InsertAt(line, at, arg);
    assert longer[at] == ' ' && longer[..at] == line[..at] && longer[at + 1..] == arg + line[at..];
    ContainsAround(longer, at, sub);
    if at == |line| {
      assert line[..at] == line && arg + line[at..] == arg;
    } else {
      ContainsAround(line, at, sub);
      var rest := arg + line[at..];
      assert rest[|arg|] == ' ' && rest[..|arg|] == arg && rest[|arg| + 1..] == line[at + 1..];
      ContainsAround(rest, |arg|, sub);
    }
  }

  lemma ContainsSelf(s: string)
    ensures Contains(s, s)
  {
    assert OccursAt(s, s, 0);
  }

  /** Every listed argument ends up in the line, and nothing that was there is lost. */
  lemma {:induction false} InsertMissingContains(line: string, args: seq<string>, sub: string)
    requires forall k :: 0 <= k < |args| ==> IsArg(args[k])
    requires sub != "" && ' ' !in sub
    ensures Contains(line, sub) || sub in args ==> Contains(InsertMissing(line, args), sub)
  {
    if args != [] {
      var before, arg := InsertMissing(line, args[..|args| - 1]), args[|args| - 1];
      InsertMissingContains(line, args[..|args| - 1], sub);
      InsertionGap(before);
      ContainsAfterInsert(before, FirstIndex(before, SEPARATOR), arg, sub);
      ContainsSelf(arg);
      assert sub in args ==> sub in args[..|args| - 1] || sub == arg;
    }
  }

  /** Once completed, a line is left alone. */
  lemma EnsuredIsComplete(line: string, nocloud: string)
    requires IsNoCloud(nocloud)
    ensures Complete(Ensured(line, nocloud), nocloud)
    ensures Ensured(Ensured(line, nocloud), nocloud) == Ensured(line, nocloud)
  {
    hide InsertMissing, IsArg, Contains;
    var args := InsertArgs(nocloud);
    ArgsAreArgs(nocloud);
    assert args[0] == AUTOINSTALL_ARG && args[1] == nocloud && args[3] == TTYS0_ARG;
    assert ' ' !in AUTOINSTALL_ARG && ' ' !in nocloud && ' ' !in TTYS0_ARG;
    InsertMissingContains(line, args, AUTOINSTALL_ARG);
    InsertMissingContains(line, args, nocloud);
    InsertMissingContains(line, args, TTYS0_ARG);
  }

  // ---------------------------------------------------------------- where insertions land

  function Spaced(args: seq<string>): string {
    if args == [] then "" else Spaced(args[..|args| - 1]) + [' '] + args[|args| - 1]
  }

  lemma SeparatorNotAt(s: string, j: nat, p: nat)
    requires j <= p < j + 4 && p < |s| && s[p] != (if p == j then ' ' else '-')
    ensures !OccursAt(s, SEPARATOR, j)
  {
    if j + 4 <= |s| {
      assert s[j..j + 4][p - j] == s[p];
      assert SEPARATOR[p - j] == if p == j then ' ' else '-';
    }
  }

  lemma SameOccurrence(s: string, t: string, j: nat, k: nat)
    requires (j == k && j + 4 <= |s| && j + 4 <= |t| && s[..j + 4] == t[..j + 4])
             || (j <= |s| && k <= |t| && s[j..] == t[k..])
    ensures OccursAt(s, SEPARATOR, j) <==> OccursAt(t, SEPARATOR, k)
  {
    if j <= |s| && k <= |t| && s[j..] == t[k..] {
      assert |s| - j == |t| - k;
      if j + 4 <= |s| {
        assert s[j..][..4] == s[j..j + 4] && t[k..][..4] == t[k..k + 4];
      }
    } else {
      assert s[..j + 4][j..] == s[j..j + 4] && t[..j + 4][j..] == t[j..j + 4];
    }
  }

  /** The first separator keeps its place behind what is inserted in front of it. */
  lemma SeparatorAfterInsert(line: string, arg: string)
    requires IsArg(arg)
    ensures FirstIndex(InsertBeforeTripleDash(line, arg), SEPARATOR)
         == FirstIndex(line, SEPARATOR) + 1 + |arg|
  {
    hide OccursAt;
    var at := FirstIndex(line, SEPARATOR);
    var longer := InsertAt(line, at, arg);
    var moved := at + 1 + |arg|;
    assert longer[at] == ' ' && longer[..at] == line[..at];
    assert forall i :: at < i < moved ==> longer[i] == arg[i - at - 1];
    forall j | 0 <= j < moved
      ensures !OccursAt(longer, SEPARATOR, j)
    {
      if j + 4 <= at {
        SameOccurrence(line, longer, j, j);
      } else if j < at {
        SeparatorNotAt(longer, j, at);
      } else if j == at {
        SeparatorNotAt(longer, j, j + 1);
      } else {
        SeparatorNotAt(longer, j, j);
      }
    }
    if at < |line| {
      assert longer[moved..] == line[at..];
      SameOccurrence(line, longer, at, moved);
    } else {
      assert |longer| == moved;
    }
  }

  /** The arguments that a line does not contain, in their order. */
  function Missing(line: string, args: seq<string>): seq<string> {
    if args == [] then []
    else
      var arg := args[|args| - 1];
      Missing(line, args[..|args| - 1]) + if Contains(line, arg) then [] else [arg]
  }

  ghost predicate Together(line: string, updated: string, added: seq<string>) {
    var at := FirstIndex(line, SEPARATOR);
    && updated == line[..at] + Spaced(added) + line[at..]
    && FirstIndex(updated, SEPARATOR) == at + |Spaced(added)|
  }

  lemma NothingInserted(line: string)
    ensures Together(line, line, [])
  {
    var at := FirstIndex(line, SEPARATOR);
    assert line[..at] + "" + line[at..] == line;
  }

  lemma SpacedSnoc(args: seq<string>, arg: string)
    ensures Spaced(args + [arg]) == Spaced(args) + [' '] + arg
  {
    assert (args + [arg])[..|args|] == args;
  }

  lemma OneMoreTogether(line: string, updated: string, added: seq<string>, arg: string)
    requires IsArg(arg) && Together(line, updated, added)
    ensures Together(line, InsertBeforeTripleDash(updated, arg), added + [arg])
  {
    hide FirstIndex;
    var at, k := FirstIndex(line, SEPARATOR), FirstIndex(updated, SEPARATOR);
    SeparatorAfterInsert(updated, arg);
    SpacedSnoc(added, arg);
    assert updated[..k] == line[..at] + Spaced(added) && updated[k..] == line[at..];
  }

  // ---------------------------------------------------------------- words

  /** An insertion adds exactly one word. */
  lemma FieldsAfterInsert(line: string, at: nat, arg: string)
    requires Gap(line, at) && IsArg(arg)
    ensures Fields(line) == Fields(line[..at]) + Fields(line[at..])
    ensures Fields(InsertAt(line, at, arg)) == Fields(line[..at]) + [arg] + Fields(line[at..])
  {
    hide Fields;
    var rest := arg + line[at..];
    assert line == line[..at] + line[at..];
    FieldsConcat(line[..at], line[at..]);
    FieldsConcat(line[..at], " " + rest);
    FieldsAfterBlank(rest);
    FieldsConcat(arg, line[at..]);
    FieldsOfWord(arg);
    assert InsertAt(line, at, arg) == line[..at] + (" " + rest);
  }

  lemma ArgHasNoBlank(arg: string)
    requires IsArg(arg)
    ensures IsWord(arg) && ' ' !in arg && arg != ""
  {
  }

  /** Whether an argument counts as present is decided by substring, so it becomes a word of the
      line exactly when it was one or occurred nowhere in the line. */
  lemma {:induction false} WordAfterInsertions(line: string, args: seq<string>, arg: string)
    requires forall k :: 0 <= k < |args| ==> IsArg(args[k])
    requires IsArg(arg)
    requires forall a <- args :: a != arg ==> !Contains(a, arg)
    ensures Contains(InsertMissing(line, args), arg) <==> Contains(line, arg) || arg in args
    ensures arg in Fields(InsertMissing(line, args))
       <==> arg in Fields(line) || (arg in args && !Contains(line, arg))
  {
    hide Fields, Contains, FirstIndex, IsArg;
    if args != [] {
      var init, last := args[..|args| - 1], args[|args| - 1];
      var before := InsertMissing(line, init);
      var at := FirstIndex(before, SEPARATOR);
      ArgHasNoBlank(arg);
      WordAfterInsertions(line, init, arg);
      InsertionGap(before);
      ContainsAfterInsert(before, at, last, arg);
      FieldsAfterInsert(before, at, last);
      ContainsSelf(arg);
      assert arg in args <==> arg in init || arg == last;
    }
  }

  lemma LacksCharacter(a: string, arg: string, c: char)
    requires c in arg && c !in a
    ensures !Contains(a, arg)
  {
  }

  lemma TTY0NotInTTYS0()
    ensures !Contains(TTYS0_ARG, TTY0_ARG)
  {
    var rest := "onsole=ttyS0,115200n8";
    assert 'c' !in rest;
    assert TTYS0_ARG[1..] == rest;
    forall at: nat | at <= |TTYS0_ARG|
      ensures !OccursAt(TTYS0_ARG, TTY0_ARG, at)
    {
      if at == 0 {
        assert TTYS0_ARG[..12][11] == 'S' && TTY0_ARG[11] == '0';
      } else if at + |TTY0_ARG| <= |TTYS0_ARG| {
        assert TTYS0_ARG[at..at + 12][0] == TTYS0_ARG[at] == rest[at - 1];
        assert TTY0_ARG[0] == 'c' && rest[at - 1] in rest;
      }
    }
  }

  lemma OnlyAutoinstallHasI()
    ensures 'i' in AUTOINSTALL_ARG
    ensures 'i' !in NOCLOUD_ARG && 'i' !in GRUB_NOCLOUD_ARG && 'i' !in TTY0_ARG && 'i' !in TTYS0_ARG
  {
    assert AUTOINSTALL_ARG[4] == 'i';
  }

  lemma OnlyNoCloudHasSlash()
    ensures '/' in NOCLOUD_ARG && '/' in GRUB_NOCLOUD_ARG
    ensures '/' !in AUTOINSTALL_ARG && '/' !in TTY0_ARG && '/' !in TTYS0_ARG
  {
    assert NOCLOUD_ARG[13] == '/' && GRUB_NOCLOUD_ARG[14] == '/';
  }

  lemma OnlyTTYS0HasS()
    ensures 'S' in TTYS0_ARG
    ensures 'S' !in AUTOINSTALL_ARG && 'S' !in NOCLOUD_ARG && 'S' !in GRUB_NOCLOUD_ARG && 'S' !in TTY0_ARG
  {
    assert TTYS0_ARG[11] == 'S';
  }

  lemma OnlyConsolesHaveY()
    ensures 'y' in TTY0_ARG
    ensures 'y' !in AUTOINSTALL_ARG && 'y' !in NOCLOUD_ARG && 'y' !in GRUB_NOCLOUD_ARG
  {
    assert TTY0_ARG[10] == 'y';
  }

  /** No argument contains another one. */
  lemma ArgsAreApart(nocloud: string, i: nat, j: nat)
    requires IsNoCloud(nocloud) && i < 4 && j < 4 && i != j
    ensures InsertArgs(nocloud)[i] != InsertArgs(nocloud)[j]
    ensures !Contains(InsertArgs(nocloud)[i], InsertArgs(nocloud)[j])
  {
    hide Contains;
    var a, arg := InsertArgs(nocloud)[i], InsertArgs(nocloud)[j];
    OnlyAutoinstallHasI();
    OnlyNoCloudHasSlash();
    OnlyTTYS0HasS();
    OnlyConsolesHaveY();
    if i == 3 && j == 2 {
      TTY0NotInTTYS0();
    } else {
      LacksCharacter(a, arg, if j == 0 then 'i' else if j == 1 then '/' else if j == 2 then 'y' else 'S');
    }
  }

  /** No argument of the list contains another one. */
  ghost predicate Apart(args: seq<string>) {
    forall i, j :: 0 <= i < |args| && 0 <= j < |args| && i != j ==> !Contains(args[i], args[j])
  }

  lemma InsertArgsAreApart(nocloud: string)
    requires IsNoCloud(nocloud)
    ensures Apart(InsertArgs(nocloud))
  {
    hide Contains;
    forall i, j | 0 <= i < 4 && 0 <= j < 4 && i != j
      ensures !Contains(InsertArgs(nocloud)[i], InsertArgs(nocloud)[j])
    {
      ArgsAreApart(nocloud, i, j);
    }
  }

  /** Exactly the arguments that were missing are inserted, in their order, right before the first
      separator or at the end of a line without one; the rest of the line is kept. */
  lemma {:induction false} InsertionsAreTogether(line: string, args: seq<string>)
    requires (forall k :: 0 <= k < |args| ==> IsArg(args[k])) && Apart(args)
    ensures Together(line, InsertMissing(line, args), Missing(line, args))
  {
    hide Together, FirstIndex, Contains, IsArg, Fields;
    if args == [] {
      NothingInserted(line);
    } else {
      var n := |args| - 1;
      var init, arg := args[..n], args[n];
      InsertionsAreTogether(line, init);
      assert arg !in init by {
        ContainsSelf(arg);
      }
      WordAfterInsertions(line, init, arg);
      if !Contains(line, arg) {
        OneMoreTogether(line, InsertMissing(line, init), Missing(line, init), arg);
      } else {
        assert Missing(line, args) == Missing(line, init);
      }
    }
  }

  /** The installer's arguments, word by word: a line that was not already complete has the
      argument as a word of its own exactly when it did before or did not even contain its text. */
  lemma WordIffNotShadowed(line: string, nocloud: string, j: nat)
    requires IsNoCloud(nocloud) && j < 4
    ensures var arg := InsertArgs(nocloud)[j];
            arg in Fields(Ensured(line, nocloud)) <==>
              arg in Fields(line) || (!Complete(line, nocloud) && !Contains(line, arg))
  {
    hide InsertMissing, Contains, IsArg, Fields;
    var args := InsertArgs(nocloud);
    ArgsAreArgs(nocloud);
    forall a <- args | a != args[j]
      ensures !Contains(a, args[j])
    {
      var i :| 0 <= i < |args| && args[i] == a;
      ArgsAreApart(nocloud, i, j);
    }
    WordAfterInsertions(line, args, args[j]);
  }

  lemma ShadowedText()
    ensures Contains("linux vmlinuz noautoinstall", AUTOINSTALL_ARG)
  {
    var line := "linux vmlinuz noautoinstall";
    assert line[16..] == AUTOINSTALL_ARG;
    assert OccursAt(line, AUTOINSTALL_ARG, 16);
  }

  const SHADOWED_WORDS: seq<string> := ["linux", "vmlinuz", "noautoinstall"]

  lemma ShadowedJoin()
    ensures Join(SHADOWED_WORDS, ' ') == "linux vmlinuz noautoinstall"
  {
    assert SHADOWED_WORDS[1..] == ["vmlinuz", "noautoinstall"];
    assert SHADOWED_WORDS[1..][1..] == ["noautoinstall"];
    assert Join(SHADOWED_WORDS[1..], ' ') == "vmlinuz" + [' '] + "noautoinstall";
    assert Join(SHADOWED_WORDS, ' ') == "linux" + [' '] + ("vmlinuz" + [' '] + "noautoinstall");
  }

  lemma ShadowedWords()
    ensures AUTOINSTALL_ARG !in Fields("linux vmlinuz noautoinstall")
  {
    hide Fields, Join;
    ShadowedJoin();
    FieldsOfJoin(SHADOWED_WORDS);
    assert |"linux"| == 5 && |"vmlinuz"| == 7 && |"noautoinstall"| == 13 && |AUTOINSTALL_ARG| == 11;
  }

  lemma ShadowedLine()
    ensures var line := "linux vmlinuz noautoinstall";
            Contains(line, AUTOINSTALL_ARG) && AUTOINSTALL_ARG !in Fields(line)
  {
    ShadowedText();
    ShadowedWords();
  }

  /** An installer line that only mentions autoinstall inside another word never gets the
      argument itself. */
  lemma ShadowedAutoinstall()
    ensures var line := "linux vmlinuz noautoinstall";
            Contains(Ensured(line, GRUB_NOCLOUD_ARG), AUTOINSTALL_ARG)
            && AUTOINSTALL_ARG !in Fields(Ensured(line, GRUB_NOCLOUD_ARG))
  {
    hide InsertMissing, Contains;
    var line := "linux vmlinuz noautoinstall";
    EnsuredIsComplete(line, GRUB_NOCLOUD_ARG);
    WordIffNotShadowed(line, GRUB_NOCLOUD_ARG, 0);
    ShadowedLine();
  }

  // ---------------------------------------------------------------- the guest's filter

  /** The words that the installed guest drops from its command line. */
  predicate IsBuilderArg(arg: string) {
    || arg == TTY0_ARG || arg == TTYS0_ARG || arg == AUTOINSTALL_ARG
    || arg == NOCLOUD_ARG || arg == GRUB_NOCLOUD_ARG
  }

  function WithoutBuilderArgs(words: seq<string>): (kept: seq<string>)
    ensures forall w <- kept :: w in words && !IsBuilderArg(w)
  {
    if words == [] then []
    else
      var last := words[|words| - 1];
      WithoutBuilderArgs(words[..|words| - 1]) + if IsBuilderArg(last) then [] else [last]
  }

  /** The filter's result on a command line. */
  function Cleaned(value: string): string {
    Join(WithoutBuilderArgs(Fields(value)), ' ')
  }

  lemma {:induction false} JoinSnoc(words: seq<string>, w: string)
    ensures Join(words + [w], ' ') == if words == [] then w else Join(words, ' ') + [' '] + w
  {
    if words == [] {
      assert words + [w] == [w];
    } else {
      assert (words + [w])[1..] == words[1..] + [w];
      JoinSnoc(words[1..], w);
    }
  }

  lemma JoinOfWordsIsEmpty(words: seq<string>)
    requires forall w <- words :: w != ""
    ensures Join(words, ' ') == "" <==> words == []
  {
    if words != [] {
      assert words[0] in words;
    }
  }

  /** The loop of cleanup-installed-grub.sh over the words of the command line. */
  method CleanCommandLine(value: string) returns (clean: string)
    ensures clean == Cleaned(value)
  {
    hide Fields;
    var args := Fields(value);
    FieldsAreWords(value);
    clean := "";
    assert args[..0] == [];
    for k := 0 to |args|
      invariant clean == Join(WithoutBuilderArgs(args[..k]), ' ')
    {
      ghost var kept := WithoutBuilderArgs(args[..k]);
      assert args[..k + 1][..k] == args[..k];
      var arg := args[k];
      if arg == TTY0_ARG || arg == TTYS0_ARG || arg == AUTOINSTALL_ARG
         || arg == NOCLOUD_ARG || arg == GRUB_NOCLOUD_ARG {
        assert WithoutBuilderArgs(args[..k + 1]) == kept;
        continue;
      }
      JoinSnoc(kept, arg);
      JoinOfWordsIsEmpty(kept);
      if clean != "" {
        clean := clean + [' '] + arg;
      } else {
        clean := arg;
      }
    }
    assert args[..|args|] == args;
  }

  lemma {:induction false} FilterConcat(a: seq<string>, b: seq<string>)
    ensures WithoutBuilderArgs(a + b) == WithoutBuilderArgs(a) + WithoutBuilderArgs(b)
  {
    if b == [] {
      assert a + b == a;
    } else {
      assert (a + b)[..|a + b| - 1] == a + b[..|b| - 1];
      FilterConcat(a, b[..|b| - 1]);
    }
  }

  lemma FilterOne(arg: string)
    ensures WithoutBuilderArgs([arg]) == if IsBuilderArg(arg) then [] else [arg]
  {
    hide IsBuilderArg;
    assert [arg][..0] == [];
  }

  lemma FilterDrops(before: seq<string>, arg: string, after: seq<string>)
    requires IsBuilderArg(arg)
    ensures WithoutBuilderArgs(before + [arg] + after) == WithoutBuilderArgs(before + after)
  {
    hide IsBuilderArg, WithoutBuilderArgs;
    FilterConcat(before + [arg], after);
    FilterConcat(before, [arg]);
    FilterConcat(before, after);
    FilterOne(arg);
    assert WithoutBuilderArgs(before) + [] == WithoutBuilderArgs(before);
  }

  lemma {:induction false} FilterUndoesInsertions(line: string, args: seq<string>)
    requires forall k :: 0 <= k < |args| ==> IsArg(args[k]) && IsBuilderArg(args[k])
    ensures WithoutBuilderArgs(Fields(InsertMissing(line, args))) == WithoutBuilderArgs(Fields(line))
  {
    hide Fields, IsArg, Contains, IsBuilderArg, FirstIndex;
    if args != [] {
      var before, arg := InsertMissing(line, args[..|args| - 1]), args[|args| - 1];
      FilterUndoesInsertions(line, args[..|args| - 1]);
      var at := FirstIndex(before, SEPARATOR);
      InsertionGap(before);
      FieldsAfterInsert(before, at, arg);
      FilterDrops(Fields(before[..at]), arg, Fields(before[at..]));
    }
  }

  /** The guest takes out what the installer put in: cleaning a completed line and cleaning the
      line itself give the same command line, for both spellings of the data source. */
  lemma CleanUndoesEnsure(line: string, nocloud: string)
    requires IsNoCloud(nocloud)
    ensures Cleaned(Ensured(line, nocloud)) == Cleaned(line)
  {
    hide IsArg, Fields, InsertMissing;
    ArgsAreArgs(nocloud);
    if !Complete(line, nocloud) {
      FilterUndoesInsertions(line, InsertArgs(nocloud));
    }
  }

  lemma {:induction false} FilterIdempotent(words: seq<string>)
    requires forall w <- words :: !IsBuilderArg(w)
    ensures WithoutBuilderArgs(words) == words
  {
    hide IsBuilderArg;
    if words != [] {
      var init, last := words[..|words| - 1], words[|words| - 1];
      assert words == init + [last] && last in words;
      FilterIdempotent(init);
      assert WithoutBuilderArgs(words) == init + [last];
    }
  }

  /** The cleaned command line has exactly the other words, in order, and cleaning it again
      changes nothing. */
  lemma CleanedWords(value: string)
    ensures Fields(Cleaned(value)) == WithoutBuilderArgs(Fields(value))
    ensures Cleaned(Cleaned(value)) == Cleaned(value)
  {
    var kept := WithoutBuilderArgs(Fields(value));
    FieldsAreWords(value);
    forall k | 0 <= k < |kept|
      ensures IsWord(kept[k])
    {
      assert kept[k] in kept;
    }
    FieldsOfJoin(kept);
    FilterIdempotent(kept);
  }

  /** The guest drops exactly what the installer inserts. */
  lemma DroppedIffInserted(arg: string)
    ensures IsBuilderArg(arg) <==> exists nocloud :: IsNoCloud(nocloud) && arg in InsertArgs(nocloud)
    ensures IsBuilderArg(arg) <==>
              arg in ["console=tty0", "console=ttyS0,115200n8", "autoinstall", "ds=nocloud;s=/cdrom/nocloud/",
                      "ds=nocloud\\;s=/cdrom/nocloud/"]
  {
    if IsBuilderArg(arg) {
      var nocloud := if arg == GRUB_NOCLOUD_ARG then GRUB_NOCLOUD_ARG else NOCLOUD_ARG;
      var args := InsertArgs(nocloud);
      assert args[0] in args && args[1] in args && args[2] in args && args[3] in args;
    }
    forall nocloud | IsNoCloud(nocloud) && arg in InsertArgs(nocloud)
      ensures IsBuilderArg(arg)
    {
      var k :| 0 <= k < 4 && InsertArgs(nocloud)[k] == arg;
    }
  }

  const PLAIN_LINE := "linux /casper/vmlinuz"

  lemma PlainLineLacks(arg: string)
    requires 't' in arg || 'o' in arg
    ensures !Contains(PLAIN_LINE + " ---", arg)
  {
    hide Contains;
    LacksCharacter(PLAIN_LINE + " ---", arg, if 't' in arg then 't' else 'o');
  }

  lemma PlainLineSeparator()
    ensures FirstIndex(PLAIN_LINE + " ---", SEPARATOR) == |PLAIN_LINE|
  {
    var line, n := PLAIN_LINE + " ---", |PLAIN_LINE|;
    assert line[n..n + 4] == SEPARATOR;
    assert OccursAt(line, SEPARATOR, n);
    assert forall k :: 0 <= k <= n ==> line[k] != '-';
    forall j: nat | j < n
      ensures !OccursAt(line, SEPARATOR, j)
    {
      SeparatorNotAt(line, j, j + 1);
    }
  }

  lemma MissingFour(line: string, args: seq<string>)
    requires |args| == 4 && forall k :: 0 <= k < 4 ==> !Contains(line, args[k])
    ensures Missing(line, args) == args
  {
    hide Contains;
    assert args[..3][..2] == args[..2] && args[..2][..1] == args[..1] && args[..1][..0] == [];
    assert Missing(line, args[..1]) == [args[0]];
    assert Missing(line, args[..2]) == [args[0], args[1]];
    assert Missing(line, args[..3]) == [args[0], args[1], args[2]];
  }

  lemma NoneSpaced()
    ensures Spaced([]) == ""
  {
  }

  lemma SpacedFour(a: string, b: string, c: string, d: string)
    ensures Spaced([a, b, c, d]) == [' '] + a + ([' '] + b) + ([' '] + c) + ([' '] + d)
  {
    hide Spaced;
    SpacedSnoc([], a);
    SpacedSnoc([a], b);
    SpacedSnoc([a, b], c);
    SpacedSnoc([a, b, c], d);
    NoneSpaced();
    assert [] + [a] == [a] && [a] + [b] == [a, b] && [a, b] + [c] == [a, b, c] && [a, b, c] + [d] == [a, b, c, d];
  }

  lemma PlainLineIsMissingAll()
    ensures Missing(PLAIN_LINE + " ---", InsertArgs(GRUB_NOCLOUD_ARG)) == InsertArgs(GRUB_NOCLOUD_ARG)
  {
    hide Contains, Missing;
    assert AUTOINSTALL_ARG[2] == 't' && GRUB_NOCLOUD_ARG[4] == 'o' && TTY0_ARG[1] == 'o' && TTYS0_ARG[1] == 'o';
    PlainLineLacks(AUTOINSTALL_ARG);
    PlainLineLacks(GRUB_NOCLOUD_ARG);
    PlainLineLacks(TTY0_ARG);
    PlainLineLacks(TTYS0_ARG);
    MissingFour(PLAIN_LINE + " ---", InsertArgs(GRUB_NOCLOUD_ARG));
  }

  lemma {:induction false} MissingLength(line: string, args: seq<string>)
    ensures |Missing(line, args)| <= |args|
  {
    if args != [] {
      MissingLength(line, args[..|args| - 1]);
    }
  }

  lemma {:induction false} MissingAt(line: string, args: seq<string>, k: nat)
    requires k < |args| && Contains(line, args[k]) && forall j :: 0 <= j < k ==> args[j] != args[k]
    ensures Missing(line, args) != args
    decreases |args|
  {
    hide Contains;
    MissingLength(line, args);
    MissingLength(line, args[..|args| - 1]);
    if k < |args| - 1 {
      MissingAt(line, args[..|args| - 1], k);
    }
  }

  lemma NotComplete(line: string, nocloud: string)
    requires IsNoCloud(nocloud) && Missing(line, InsertArgs(nocloud)) == InsertArgs(nocloud)
    ensures Together(line, Ensured(line, nocloud), InsertArgs(nocloud))
  {
    hide Contains, InsertMissing, IsArg, Together;
    var args := InsertArgs(nocloud);
    ArgsAreArgs(nocloud);
    InsertArgsAreApart(nocloud);
    InsertionsAreTogether(line, args);
    if Contains(line, args[0]) {
      MissingAt(line, args, 0);
    }
  }

  /** An installer's line as the image has it, and as it is patched. */
  lemma PatchedExample()
    ensures Ensured("linux /casper/vmlinuz" + " ---", GRUB_NOCLOUD_ARG) ==
              "linux /casper/vmlinuz"
              + ([' '] + "autoinstall" + ([' '] + "ds=nocloud\\;s=/cdrom/nocloud/") + ([' '] + "console=tty0")
                 + ([' '] + "console=ttyS0,115200n8"))
              + " ---"
  {
    hide Contains, FirstIndex, InsertMissing, Missing, Spaced, Complete;
    var line := PLAIN_LINE + " ---";
    PlainLineIsMissingAll();
    NotComplete(line, GRUB_NOCLOUD_ARG);
    PlainLineSeparator();
    assert line[..|PLAIN_LINE|] == PLAIN_LINE && line[|PLAIN_LINE|..] == " ---";
    SpacedFour(AUTOINSTALL_ARG, GRUB_NOCLOUD_ARG, TTY0_ARG, TTYS0_ARG);
  }
}
