/** The few string operations of the Go standard library that the modelled code uses,
    on strings whose characters are bytes. */
module Text {
  datatype Option<+T> = None | Some(value: T)

  datatype Result<+T, +E> = Ok(value: T) | Err(error: E)

  // ---------------------------------------------------------------- searching

  predicate OccursAt(s: string, sub: string, at: nat) {
    at + |sub| <= |s| && s[at..at + |sub|] == sub
  }

  /** strings.Contains */
  predicate Contains(s: string, sub: string) {
    exists at: nat :: at <= |s| && OccursAt(s, sub, at)
  }

  function ConcatAll(parts: seq<string>): string {
    if parts == [] then "" else ConcatAll(parts[..|parts| - 1]) + parts[|parts| - 1]
  }

  lemma SliceOfSlice<T>(s: seq<T>, from: nat, to: nat, a: nat, b: nat)
    requires from <= to <= |s| && a <= b <= to - from
    ensures s[from..to][a..b] == s[from + a..from + b]
  {
    forall k | 0 <= k < b - a
      ensures s[from..to][a..b][k] == s[from + a..from + b][k]
    {
      assert s[from..to][a + k] == s[from + a + k];
    }
  }

  lemma ContainsInPart(s: string, from: nat, to: nat, sub: string)
    requires from <= to <= |s| && Contains(s[from..to], sub)
    ensures Contains(s, sub)
  {
    var at: nat :| at <= to - from && OccursAt(s[from..to], sub, at);
    SliceOfSlice(s, from, to, at, at + |sub|);
    assert OccursAt(s, sub, from + at);
  }

  lemma OccursInPart(s: string, from: nat, to: nat, sub: string, at: nat)
    requires from <= at && at + |sub| <= to <= |s| && OccursAt(s, sub, at)
    ensures Contains(s[from..to], sub)
  {
    SliceOfSlice(s, from, to, at - from, at - from + |sub|);
    assert OccursAt(s[from..to], sub, at - from);
  }

  /** No occurrence of a string reaches across a character that the string does not have. */
  lemma ContainsAround(s: string, k: nat, sub: string)
    requires k < |s| && s[k] !in sub
    ensures Contains(s, sub) <==> Contains(s[..k], sub) || Contains(s[k + 1..], sub)
  {
    assert s[0..k] == s[..k] && s[k + 1..|s|] == s[k + 1..];
    if Contains(s, sub) {
      var at: nat :| at <= |s| && OccursAt(s, sub, at);
      assert forall i :: 0 <= i < |sub| ==> sub[i] == s[at + i];
      if at + |sub| <= k {
        OccursInPart(s, 0, k, sub, at);
      } else {
        OccursInPart(s, k + 1, |s|, sub, at);
      }
    }
    if Contains(s[..k], sub) {
      ContainsInPart(s, 0, k, sub);
    }
    if Contains(s[k + 1..], sub) {
      ContainsInPart(s, k + 1, |s|, sub);
    }
  }

  /** An occurrence cannot start inside a prefix that lacks its first character. */
  lemma ContainsAfter(prefix: string, s: string, sub: string)
    requires sub != "" && sub[0] !in prefix
    ensures Contains(prefix + s, sub) <==> Contains(s, sub)
  {
    var whole, n := prefix + s, |prefix|;
    assert whole[n..|whole|] == s;
    if Contains(whole, sub) {
      var at: nat :| at <= |whole| && OccursAt(whole, sub, at);
      assert whole[at] == sub[0];
      assert forall i :: 0 <= i < n ==> whole[i] == prefix[i];
      OccursInPart(whole, n, |whole|, sub, at);
    }
    if Contains(s, sub) {
      ContainsInPart(whole, n, |whole|, sub);
    }
  }

  // ---------------------------------------------------------------- case and white space

  function LowerChar(c: char): char {
    if 'A' <= c <= 'Z' then (c as int + 32) as char else c
  }

  /** strings.ToLower on ASCII */
  function Lower(s: string): (r: string)
    ensures |r| == |s|
  {
    seq(|s|, i requires 0 <= i < |s| => LowerChar(s[i]))
  }

  /** unicode.IsSpace on ASCII */
  predicate IsSpace(c: char) {
    c == ' ' || (9 as char <= c <= 13 as char)
  }

  /** Exactly the 26 capital letters of ASCII change, and exactly these six characters are white space. */
  lemma AsciiTables(c: char)
    ensures LowerChar(c) == if c in "ABCDEFGHIJKLMNOPQRSTUVWXYZ" then "abcdefghijklmnopqrstuvwxyz"[c as int - 65] else c
    ensures IsSpace(c) <==> c in [' ', '\t', '\n', 11 as char, 12 as char, '\r']
  {
    var capitals, small := "ABCDEFGHIJKLMNOPQRSTUVWXYZ", "abcdefghijklmnopqrstuvwxyz";
    assert forall k :: 0 <= k < 26 ==> capitals[k] as int == 65 + k && small[k] as int == 97 + k;
    if 'A' <= c <= 'Z' {
      assert capitals[c as int - 65] == c;
    }
  }

  lemma LowerConcat(a: string, b: string)
    ensures Lower(a + b) == Lower(a) + Lower(b)
  {
  }

  function TrimLeft(s: string): (r: string)
    ensures r == "" || !IsSpace(r[0])
    ensures |r| <= |s| && r == s[|s| - |r|..]
    ensures forall k :: 0 <= k < |s| - |r| ==> IsSpace(s[k])
  {
    if s != "" && IsSpace(s[0]) then TrimLeft(s[1..]) else s
  }

  function TrimRight(s: string): (r: string)
    ensures r == "" || !IsSpace(r[|r| - 1])
    ensures |r| <= |s| && r == s[..|r|]
    ensures forall k :: |r| <= k < |s| ==> IsSpace(s[k])
  {
    if s != "" && IsSpace(s[|s| - 1]) then TrimRight(s[..|s| - 1]) else s
  }

  /** strings.TrimSpace */
  function TrimSpace(s: string): (r: string)
    ensures r == "" || (!IsSpace(r[0]) && !IsSpace(r[|r| - 1]))
  {
    TrimRight(TrimLeft(s))
  }

  predicate HasText(s: string) {
    exists k :: 0 <= k < |s| && !IsSpace(s[k])
  }

  lemma TrimSpaceIsBlank(s: string)
    ensures TrimSpace(s) != "" <==> HasText(s)
  {
    var left := TrimLeft(s);
    assert forall k :: 0 <= k < |left| ==> left[k] == s[|s| - |left| + k];
  }

  lemma TrimSpaceTight(s: string)
    requires s == "" || (!IsSpace(s[0]) && !IsSpace(s[|s| - 1]))
    ensures TrimSpace(s) == s
  {
  }

  lemma SpaceTrimmed(value: string)
    requires value != "" && !IsSpace(value[0]) && !IsSpace(value[|value| - 1])
    ensures TrimSpace(" " + value) == value
  {
    assert (" " + value)[1..] == value;
    assert TrimLeft(" " + value) == value;
  }

  // ---------------------------------------------------------------- splitting and joining

  /** strings.Split for a one-character separator */
  function Split(s: string, sep: char): (parts: seq<string>)
    ensures parts != []
  {
    if s == "" then [""]
    else
      var rest := Split(s[1..], sep);
      if s[0] == sep then [""] + rest else [[s[0]] + rest[0]] + rest[1..]
  }

  /** strings.Join for a one-character separator */
  function Join(parts: seq<string>, sep: char): string {
    if parts == [] then ""
    else if |parts| == 1 then parts[0]
    else parts[0] + [sep] + Join(parts[1..], sep)
  }

  lemma {:induction false} SplitHasNoSep(s: string, sep: char)
    ensures forall k :: 0 <= k < |Split(s, sep)| ==> sep !in Split(s, sep)[k]
  {
    if s != "" {
      SplitHasNoSep(s[1..], sep);
    }
  }

  lemma JoinCons(part: string, parts: seq<string>, sep: char)
    requires parts != []
    ensures Join([part] + parts, sep) == part + [sep] + Join(parts, sep)
  {
    assert ([part] + parts)[1..] == parts;
  }

  /** Moving a character to the front of the first part. */
  lemma JoinPush(c: char, parts: seq<string>, sep: char)
    requires parts != []
    ensures Join([[c] + parts[0]] + parts[1..], sep) == [c] + Join(parts, sep)
  {
    var pushed := [[c] + parts[0]] + parts[1..];
    if |parts| > 1 {
      assert pushed[1..] == parts[1..];
    }
  }

  lemma {:induction false} JoinOfSplit(s: string, sep: char)
    ensures Join(Split(s, sep), sep) == s
  {
    if s != "" {
      var rest := Split(s[1..], sep);
      JoinOfSplit(s[1..], sep);
      if s[0] == sep {
        JoinCons("", rest, sep);
      } else {
        JoinPush(s[0], rest, sep);
      }
    }
  }

  lemma {:induction false} SplitOfPart(part: string, sep: char)
    requires sep !in part
    ensures Split(part, sep) == [part]
  {
    if part != "" {
      SplitOfPart(part[1..], sep);
      assert [part[0]] + part[1..] == part;
    }
  }

  lemma {:induction false} SplitPart(part: string, rest: string, sep: char)
    requires sep !in part
    ensures Split(part + [sep] + rest, sep) == [part] + Split(rest, sep)
  {
    var s := part + [sep] + rest;
    if part == "" {
      assert s[1..] == rest;
    } else {
      SplitPart(part[1..], rest, sep);
      assert s[1..] == part[1..] + [sep] + rest;
      assert [part[0]] + part[1..] == part;
    }
  }

  lemma {:induction false} SplitOfJoin(parts: seq<string>, sep: char)
    requires parts != [] && forall k :: 0 <= k < |parts| ==> sep !in parts[k]
    ensures Split(Join(parts, sep), sep) == parts
  {
    if |parts| == 1 {
      SplitOfPart(parts[0], sep);
    } else {
      SplitOfJoin(parts[1..], sep);
      SplitPart(parts[0], Join(parts[1..], sep), sep);
    }
  }

  // ---------------------------------------------------------------- first occurrence, fields

  function FirstFrom(s: string, sub: string, from: nat): (k: nat)
    requires from <= |s|
    ensures from <= k <= |s|
    ensures k < |s| ==> OccursAt(s, sub, k)
    ensures forall j :: from <= j < k ==> !OccursAt(s, sub, j)
    decreases |s| - from
  {
    if from == |s| || OccursAt(s, sub, from) then from else FirstFrom(s, sub, from + 1)
  }

  /** The first index at which sub occurs, or |s|; strings.Index tells the two apart by -1. */
  function FirstIndex(s: string, sub: string): (k: nat)
    ensures k <= |s|
    ensures k < |s| ==> OccursAt(s, sub, k)
    ensures forall j :: 0 <= j < k ==> !OccursAt(s, sub, j)
  {
    FirstFrom(s, sub, 0)
  }

  /** The default IFS of a shell. */
  predicate IsBlank(c: char) {
    c == ' ' || c == '\t' || c == '\n'
  }

  function WordLength(s: string): (n: nat)
    ensures n <= |s|
    ensures forall k :: 0 <= k < n ==> !IsBlank(s[k])
    ensures n < |s| ==> IsBlank(s[n])
  {
    if s == "" || IsBlank(s[0]) then 0 else 1 + WordLength(s[1..])
  }

  /** The words of an unquoted expansion. */
  function Fields(s: string): seq<string>
    decreases |s|
  {
    if s == "" then []
    else if IsBlank(s[0]) then Fields(s[1..])
    else [s[..WordLength(s)]] + Fields(s[WordLength(s)..])
  }

  predicate IsWord(w: string) {
    w != "" && forall k :: 0 <= k < |w| ==> !IsBlank(w[k])
  }

  lemma WordLengthIs(s: string, n: nat)
    requires n <= |s| && (n < |s| ==> IsBlank(s[n]))
    requires forall k :: 0 <= k < n ==> !IsBlank(s[k])
    ensures WordLength(s) == n
  {
  }

  lemma {:induction false} FieldsAreWords(s: string)
    ensures forall k :: 0 <= k < |Fields(s)| ==> IsWord(Fields(s)[k])
    decreases |s|
  {
    if s != "" {
      if IsBlank(s[0]) {
        FieldsAreWords(s[1..]);
      } else {
        FieldsAreWords(s[WordLength(s)..]);
      }
    }
  }

  lemma FieldsOfWord(w: string)
    requires IsWord(w)
    ensures Fields(w) == [w]
  {
    WordLengthIs(w, |w|);
    assert w[|w|..] == "" && w[..|w|] == w;
  }

  /** Words do not reach across a blank. */
  lemma {:induction false} FieldsConcat(a: string, b: string)
    requires b == "" || IsBlank(b[0])
    ensures Fields(a + b) == Fields(a) + Fields(b)
    decreases |a|
  {
    hide WordLength;
    var s := a + b;
    if a == "" {
      assert s == b;
    } else if IsBlank(a[0]) {
      FieldsConcat(a[1..], b);
      assert s[1..] == a[1..] + b;
    } else {
      var n := WordLength(a);
      FieldsConcat(a[n..], b);
      WordLengthIs(s, n);
      assert s[n..] == a[n..] + b && s[..n] == a[..n];
    }
  }

  lemma FieldsAfterBlank(b: string)
    ensures Fields(" " + b) == Fields(b)
  {
    assert (" " + b)[1..] == b;
  }

  lemma {:induction false} FieldsOfJoin(words: seq<string>)
    requires forall k :: 0 <= k < |words| ==> IsWord(words[k])
    ensures Fields(Join(words, ' ')) == words
  {
    if |words| == 1 {
      FieldsOfWord(words[0]);
    } else if |words| > 1 {
      var rest := Join(words[1..], ' ');
      FieldsOfJoin(words[1..]);
      FieldsOfWord(words[0]);
      FieldsConcat(words[0], " " + rest);
      FieldsAfterBlank(rest);
      assert words[0] + [' '] + rest == words[0] + (" " + rest);
    }
  }
}
