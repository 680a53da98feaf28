/** Quoting arguments for a shell, against the shell's own rules for reading them back: sections
    2.2 (quoting) and 2.3 (token recognition) of the POSIX Shell Command Language. */
module ShellWords {
  import opened Text

  // ---------------------------------------------------------------- writing

  /** strings.ReplaceAll(value, "'", "'\"'\"'") */
  function Escaped(value: string): string {
    if value == "" then ""
    else (if value[0] == '\'' then "'\"'\"'" else [value[0]]) + Escaped(value[1..])
  }

  function ShellQuote(value: string): string {
    if value == "" then "''" else "'" + Escaped(value) + "'"
  }

  function QuotedAll(args: seq<string>): (quoted: seq<string>)
    ensures |quoted| == |args| && forall k :: 0 <= k < |args| ==> quoted[k] == ShellQuote(args[k])
  {
    seq(|args|, k requires 0 <= k < |args| => ShellQuote(args[k]))
  }

  method ShellJoin(args: seq<string>) returns (line: string)
    ensures line == Join(QuotedAll(args), ' ')
  {
    var quoted := [];
    for k := 0 to |args|
      invariant quoted == QuotedAll(args[..k])
    {
      quoted := quoted + [ShellQuote(args[k])];
    }
    assert args[..|args|] == args;
    line := Join(quoted, ' ');
  }

  // ---------------------------------------------------------------- reading

  /** How the shell stands while it reads a line: between words, or inside a word so far, either
      unquoted or within quotes. */
  datatype Mode = Between | Bare(word: string) | Single(word: string) | Double(word: string)

  /** Unquoted characters that start something other than a plain word: operators, expansions,
      patterns, comments, and the end of the command. */
  predicate IsSpecial(c: char) {
    c in "|&;<>()$`*?[#~\n"
  }

  function NextBare(w: string, c: char): Option<(seq<string>, Mode)> {
    if c == ' ' || c == '\t' then Some(([w], Between))
    else if c == '\'' then Some(([], Single(w)))
    else if c == '"' then Some(([], Double(w)))
    else if c == '\\' || IsSpecial(c) then None
    else Some(([], Bare(w + [c])))
  }

  /** One character. None means that the line is not a list of plain words. */
  function Next(mode: Mode, c: char): Option<(seq<string>, Mode)> {
    match mode
    case Between =>
      if c == ' ' || c == '\t' then Some(([], Between)) else NextBare("", c)
    case Bare(w) => NextBare(w, c)
    case Single(w) => if c == '\'' then Some(([], Bare(w))) else Some(([], Single(w + [c])))
    case Double(w) =>
      if c == '"' then Some(([], Bare(w)))
      else if c == '\\' || c == '$' || c == '`' then None
      else Some(([], Double(w + [c])))
  }

  /** The words of a line. Lines that use a backslash, an expansion, an operator or an open quote
      are outside this reader. */
  function Words(s: string, mode: Mode): Option<seq<string>>
    decreases |s|
  {
    if s == "" then
      match mode
      case Between => Some([])
      case Bare(w) => Some([w])
      case _ => None
    else
      match Next(mode, s[0])
      case None => None
      case Some((done, mode')) =>
        match Words(s[1..], mode')
        case None => None
        case Some(rest) => Some(done + rest)
  }

  // ---------------------------------------------------------------- round trip

  /** Reading a character that ends no word. */
  lemma Reads(mode: Mode, c: char, mode': Mode, rest: string)
    requires Next(mode, c) == Some(([], mode'))
    ensures Words([c] + rest, mode) == Words(rest, mode')
  {
    assert ([c] + rest)[1..] == rest;
    assert forall w: seq<string> :: [] + w == w;
  }

  /** A quote character is written by leaving the quotes, quoting it in double quotes, and
      coming back. */
  lemma ReadsQuote(w: string, rest: string)
    ensures Words("'\"'\"'" + rest, Single(w)) == Words(rest, Single(w + ['\'']))
  {
    hide Words;
    var w' := w + ['\''];
    var s4 := ['\''] + rest;
    var s3 := ['"'] + s4;
    var s2 := ['\''] + s3;
    var s1 := ['"'] + s2;
    Reads(Bare(w'), '\'', Single(w'), rest);
    Reads(Double(w'), '"', Bare(w'), s4);
    Reads(Double(w), '\'', Double(w'), s3);
    Reads(Bare(w), '"', Double(w), s2);
    Reads(Single(w), '\'', Bare(w), s1);
    assert "'\"'\"'" + rest == ['\''] + s1;
  }

  /** Inside single quotes an escaped text is read back verbatim, up to the closing quote. */
  lemma {:induction false} ReadsEscaped(w: string, value: string, rest: string)
    ensures Words(Escaped(value) + "'" + rest, Single(w)) == Words(rest, Bare(w + value))
    decreases |value|
  {
    hide Words;
    if value == "" {
      Reads(Single(w), '\'', Bare(w), rest);
      assert Escaped(value) + "'" + rest == ['\''] + rest;
      assert w + value == w;
    } else {
      var c, tail := value[0], Escaped(value[1..]) + "'" + rest;
      ReadsEscaped(w + [c], value[1..], rest);
      assert w + [c] + value[1..] == w + value;
      if c == '\'' {
        ReadsQuote(w, tail);
        assert Escaped(value) + "'" + rest == "'\"'\"'" + tail;
      } else {
        Reads(Single(w), c, Single(w + [c]), tail);
        assert Escaped(value) + "'" + rest == [c] + tail;
      }
    }
  }

  lemma ReadsQuoted(value: string, rest: string)
    ensures Words(ShellQuote(value) + rest, Between) == Words(rest, Bare(value))
  {
    hide Words;
    assert ShellQuote(value) == "'" + Escaped(value) + "'";
    ReadsEscaped("", value, rest);
    assert "" + value == value;
    var tail := Escaped(value) + "'" + rest;
    Reads(Between, '\'', Single(""), tail);
    assert ShellQuote(value) + rest == ['\''] + tail;
  }

  lemma EndsWord(w: string, rest: string)
    ensures Words([' '] + rest, Bare(w)) ==
              match Words(rest, Between)
              case None => None
              case Some(words) => Some([w] + words)
  {
    assert ([' '] + rest)[1..] == rest;
  }

  /** A shell splits the joined line into exactly the given arguments, whatever their
      characters. */
  lemma {:induction false} ShellReadsArguments(args: seq<string>)
    ensures Words(Join(QuotedAll(args), ' '), Between) == Some(args)
    decreases |args|
  {
    hide ShellQuote;
    if |args| == 0 {
    } else if |args| == 1 {
      assert QuotedAll(args) == [ShellQuote(args[0])];
      ReadsQuoted(args[0], "");
      assert ShellQuote(args[0]) + "" == ShellQuote(args[0]);
      assert Words("", Bare(args[0])) == Some([args[0]]);
      assert [args[0]] == args;
    } else {
      var rest := Join(QuotedAll(args[1..]), ' ');
      ShellReadsArguments(args[1..]);
      assert QuotedAll(args)[1..] == QuotedAll(args[1..]);
      ReadsQuoted(args[0], [' '] + rest);
      assert Join(QuotedAll(args), ' ') == ShellQuote(args[0]) + ([' '] + rest);
      EndsWord(args[0], rest);
      assert [args[0]] + args[1..] == args;
    }
  }

  /** So two different argument lists never give the same line. */
  lemma JoinIsInjective(a: seq<string>, b: seq<string>)
    requires Join(QuotedAll(a), ' ') == Join(QuotedAll(b), ' ')
    ensures a == b
  {
    ShellReadsArguments(a);
    ShellReadsArguments(b);
  }
}
