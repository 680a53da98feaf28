/** Turning a user's autoinstall data into the installer's: a rewrite of a YAML tree that must
    not change what the validators say about it. */
module UserData {
  import opened Text
  import opened ShellWords
  import U = UefiStorage

  // ---------------------------------------------------------------- the tree

  /** A YAML node; a mapping's content lists keys and values alternately. */
  datatype Node =
    | Scalar(value: string)
    | Sequence(items: seq<Node>)
    | Mapping(content: seq<Node>)
    | Alias(name: string)

  /** The Value field of a node. */
  function Value(n: Node): string {
    match n
    case Scalar(v) => v
    case Alias(name) => name
    case _ => ""
  }

  /** The value of the first entry with a key. */
  function Lookup(content: seq<Node>, key: string): Option<Node> {
    if |content| < 2 then None
    else if Value(content[0]) == key then Some(content[1])
    else Lookup(content[2..], key)
  }

  /** The content with the value of the first entry with a key replaced, or a new last entry. */
  function With(content: seq<Node>, key: string, node: Node): seq<Node> {
    if |content| < 2 then content + [Scalar(key), node]
    else if Value(content[0]) == key then [content[0], node] + content[2..]
    else content[..2] + With(content[2..], key, node)
  }

  /** Mappings that a parser produces have a value for every key. */
  predicate Paired(content: seq<Node>) {
    |content| % 2 == 0
  }

  method MappingValue(node: Node, key: string) returns (found: Option<Node>)
    ensures found == if node.Mapping? then Lookup(node.content, key) else None
  {
    if !node.Mapping? {
      return None;
    }
    var idx := 0;
    assert node.content[0..] == node.content;
    while idx + 1 < |node.content|
      invariant 0 <= idx <= |node.content|
      invariant Lookup(node.content, key) == Lookup(node.content[idx..], key)
    {
      if Value(node.content[idx]) == key {
        return Some(node.content[idx + 1]);
      }
      assert node.content[idx..][2..] == node.content[idx + 2..];
      idx := idx + 2;
    }
    return None;
  }

  /** Skipping one entry with another key. */
  lemma WithSkips(content: seq<Node>, key: string, node: Node, idx: nat)
    requires idx + 1 < |content| && Value(content[idx]) != key
    ensures content[..idx] + With(content[idx..], key, node) == content[..idx + 2] + With(content[idx + 2..], key, node)
  {
    var rest := content[idx..];
    assert rest[2..] == content[idx + 2..] && content[..idx] + rest[..2] == content[..idx + 2];
  }

  lemma WithReplaces(content: seq<Node>, key: string, node: Node, idx: nat)
    requires idx + 1 < |content| && Value(content[idx]) == key
    ensures content[..idx] + With(content[idx..], key, node) == content[idx + 1 := node]
  {
    var rest := content[idx..];
    assert rest[2..] == content[idx + 2..] && rest[0] == content[idx];
    assert With(rest, key, node) == [content[idx], node] + content[idx + 2..];
  }

  lemma WithAppends(content: seq<Node>, key: string, node: Node, idx: nat)
    requires idx <= |content| < idx + 2
    ensures content[..idx] + With(content[idx..], key, node) == content + [Scalar(key), node]
  {
    assert content[..idx] + (content[idx..] + [Scalar(key), node]) == content + [Scalar(key), node];
  }

  // ---------------------------------------------------------------- late commands

  const LATE_COMMANDS := "late-commands"
  const CDROM := "/cdrom"
  const BUILDER := "/ubuntu-vm-template-builder"
  const SCRIPTS := CDROM + BUILDER + "/scripts"
  const PREPARE_SCRIPT := SCRIPTS + "/prepare-cloud-init-template.sh"
  const CLEANUP_SCRIPT := SCRIPTS + "/cleanup-installed-grub.sh"
  const INSTALL_SCRIPT := SCRIPTS + "/install-offline-packages.sh"
  const REPOSITORY := CDROM + BUILDER + "/offline-apt"
  const INSTALL_CONFIG := CDROM + BUILDER + "/offline-apt-install"
  const TARGET := "/target"

  /** BuilderSupportLateCommands */
  const SUPPORT_COMMANDS: seq<string> :=
    ["sh " + PREPARE_SCRIPT + " " + TARGET, "sh " + CLEANUP_SCRIPT + " " + TARGET]

  /** InstallLateCommands of an enabled package configuration */
  const INSTALL_COMMANDS: seq<string> :=
    ["sh " + ShellQuote(INSTALL_SCRIPT) + " " + ShellQuote(TARGET) + " "
     + ShellQuote(REPOSITORY) + " " + ShellQuote(INSTALL_CONFIG)]

  /** The extra packages: none, or a configuration that is valid or not. */
  datatype Packages = NoPackages | Requested(valid: bool)

  function Commands(texts: seq<string>): (nodes: seq<Node>)
    ensures |nodes| == |texts| && forall k :: 0 <= k < |texts| ==> nodes[k] == Scalar(texts[k])
  {
    seq(|texts|, k requires 0 <= k < |texts| => Scalar(texts[k]))
  }

  const NOT_A_SEQUENCE := "autoinstall.late-commands must be a sequence when present"

  /** The late commands of the user; a missing list is an empty one. */
  function LateCommands(content: seq<Node>): Result<seq<Node>, string> {
    match Lookup(content, LATE_COMMANDS)
    case None => Ok([])
    case Some(Sequence(items)) => Ok(items)
    case Some(_) => Err(NOT_A_SEQUENCE)
  }

  /** PrependInstallLateCommands */
  function Prepended(content: seq<Node>, packages: Packages): Result<seq<Node>, string> {
    match packages
    case NoPackages => Ok(content)
    case Requested(valid) =>
      if !valid then Err("invalid package configuration")
      else
        match LateCommands(content)
        case Err(e) => Err(e)
        case Ok(items) => Ok(With(content, LATE_COMMANDS, Sequence(Commands(INSTALL_COMMANDS) + items)))
  }

  /** appendBuilderSupportLateCommands */
  function Appended(content: seq<Node>): Result<seq<Node>, string> {
    match LateCommands(content)
    case Err(e) => Err(e)
    case Ok(items) => Ok(With(content, LATE_COMMANDS, Sequence(items + Commands(SUPPORT_COMMANDS))))
  }

  /** The rewrite of the autoinstall mapping. */
  function Rewritten(content: seq<Node>, packages: Packages): Result<seq<Node>, string> {
    match Prepended(With(content, "shutdown", Scalar("poweroff")), packages)
    case Err(e) => Err(e)
    case Ok(c) => Appended(c)
  }

  /** AutoinstallMappingFromRoot, from the content of the top-level mapping on */
  function Autoinstall(root: Node): Result<seq<Node>, string> {
    if !root.Mapping? then Err("top-level YAML document must be a mapping")
    else
      match Lookup(root.content, "autoinstall")
      case Some(Mapping(content)) => Ok(content)
      case _ => Err("top-level autoinstall mapping is required")
  }

  /** TransformUserDataWithOptions on trees */
  function Transform(root: Node, packages: Packages): Result<Node, string> {
    match Autoinstall(root)
    case Err(e) => Err(e)
    case Ok(content) =>
      match Rewritten(content, packages)
      case Err(e) => Err(e)
      case Ok(c) => Ok(Mapping(With(root.content, "autoinstall", Mapping(c))))
  }

  // ---------------------------------------------------------------- the rewrite in place

  /** A mapping node that is edited in place. */
  class MappingNode {
    var content: seq<Node>

    constructor (content: seq<Node>)
      ensures this.content == content
    {
      this.content := content;
    }

    /** The loop of SetMappingScalar, for any value. Editing the sequence node that MappingValue
        found, or adding a new one, amounts to the same. */
    method Set(key: string, node: Node)
      modifies this
      ensures content == With(old(content), key, node)
    {
      hide With, Value;
      var idx := 0;
      assert content[0..] == content && content[..0] == [];
      while idx + 1 < |content|
        invariant 0 <= idx <= |content| && content == old(content)
        invariant With(content, key, node) == content[..idx] + With(content[idx..], key, node)
      {
        if Value(content[idx]) == key {
          WithReplaces(content, key, node, idx);
          content := content[idx + 1 := node];
          return;
        }
        WithSkips(content, key, node, idx);
        idx := idx + 2;
      }
      WithAppends(content, key, node, idx);
      content := content + [Scalar(key), node];
    }

    method SetMappingScalar(key: string, value: string)
      modifies this
      ensures content == With(old(content), key, Scalar(value))
    {
      Set(key, Scalar(value));
    }

    /** None is a nil error. */
    method PrependInstallLateCommands(packages: Packages) returns (err: Option<string>)
      modifies this
      ensures match Prepended(old(content), packages)
              case Ok(c) => err == None && content == c
              case Err(e) => err == Some(e) && content == old(content)
    {
      hide With, Lookup;
      if packages == NoPackages {
        return None;
      }
      if !packages.valid {
        return Some("invalid package configuration");
      }
      var lateCommands := MappingValue(Mapping(content), LATE_COMMANDS);
      if lateCommands == None {
        lateCommands := Some(Sequence([]));
      } else if !lateCommands.value.Sequence? {
        return Some(NOT_A_SEQUENCE);
      }
      Set(LATE_COMMANDS, Sequence(Commands(INSTALL_COMMANDS) + lateCommands.value.items));
      return None;
    }

    method AppendBuilderSupportLateCommands() returns (err: Option<string>)
      modifies this
      ensures match Appended(old(content))
              case Ok(c) => err == None && content == c
              case Err(e) => err == Some(e) && content == old(content)
    {
      hide With, Lookup;
      var lateCommands := MappingValue(Mapping(content), LATE_COMMANDS);
      if lateCommands == None {
        lateCommands := Some(Sequence([]));
      } else if !lateCommands.value.Sequence? {
        return Some(NOT_A_SEQUENCE);
      }
      var user := lateCommands.value.items;
      var items := user;
      for k := 0 to |SUPPORT_COMMANDS|
        invariant items == user + Commands(SUPPORT_COMMANDS[..k]) && content == old(content)
      {
        items := items + [Scalar(SUPPORT_COMMANDS[k])];
      }
      assert SUPPORT_COMMANDS[..|SUPPORT_COMMANDS|] == SUPPORT_COMMANDS;
      Set(LATE_COMMANDS, Sequence(items));
      return None;
    }
  }

  /** TransformUserDataWithOptions between parsing and encoding. */
  method TransformUserData(root: Node, packages: Packages) returns (result: Result<Node, string>)
    ensures result == Transform(root, packages)
  {
    hide With, Lookup, Prepended, Appended;
    var content := Autoinstall(root);
    if content.Err? {
      return Err(content.error);
    }
    var autoinstall := new MappingNode(content.value);
    autoinstall.SetMappingScalar("shutdown", "poweroff");
    var err := autoinstall.PrependInstallLateCommands(packages);
    if err.Some? {
      return Err(err.value);
    }
    err := autoinstall.AppendBuilderSupportLateCommands();
    if err.Some? {
      return Err(err.value);
    }
    var document := new MappingNode(root.content);
    document.Set("autoinstall", Mapping(autoinstall.content));
    return Ok(Mapping(document.content));
  }

  // ---------------------------------------------------------------- looking up after a change

  lemma {:induction false} LookupWith(content: seq<Node>, key: string, node: Node, other: string)
    requires Paired(content)
    ensures Paired(With(content, key, node))
    ensures Lookup(With(content, key, node), other) == if other == key then Some(node) else Lookup(content, other)
    decreases |content|
  {
    var updated := With(content, key, node);
    if |content| < 2 {
      assert content == [];
    } else if Value(content[0]) == key {
      assert updated[2..] == content[2..];
    } else {
      LookupWith(content[2..], key, node, other);
      assert updated[2..] == With(content[2..], key, node);
    }
  }

  /** Position k has the value of the first entry with a key. */
  ghost predicate IsFirstValue(content: seq<Node>, key: string, k: nat)
    requires k < |content|
  {
    && k % 2 == 1 && Value(content[k - 1]) == key
    && forall i :: 0 <= i < k - 1 && i % 2 == 0 ==> Value(content[i]) != key
  }

  lemma FirstValueStep(content: seq<Node>, key: string, k: nat)
    requires Paired(content) && k < |content|
    ensures k < 2 ==> (IsFirstValue(content, key, k) <==> k == 1 && Value(content[0]) == key)
    ensures k >= 2 ==> (IsFirstValue(content, key, k) <==>
                          Value(content[0]) != key && IsFirstValue(content[2..], key, k - 2))
  {
    hide Value;
    if k >= 2 {
      var rest := content[2..];
      assert forall i :: 0 <= i < |rest| ==> rest[i] == content[i + 2];
      assert (k - 2) % 2 == k % 2;
      if Value(content[0]) != key && IsFirstValue(rest, key, k - 2) {
        forall i | 0 <= i < k - 1 && i % 2 == 0
          ensures Value(content[i]) != key
        {
          if i >= 2 {
            assert rest[i - 2] == content[i] && (i - 2) % 2 == 0;
          }
        }
      }
    }
  }

  /** A change touches one value, or adds one entry at the end; everything else keeps its place. */
  lemma {:induction false} WithKeepsPlaces(content: seq<Node>, key: string, node: Node, k: nat)
    requires Paired(content) && k < |content|
    ensures k < |With(content, key, node)|
    ensures With(content, key, node)[k] == if IsFirstValue(content, key, k) then node else content[k]
    ensures |With(content, key, node)| == |content| + if Lookup(content, key).Some? then 0 else 2
    decreases |content|
  {
    hide IsFirstValue, Value;
    FirstValueStep(content, key, k);
    if |content| >= 2 && Value(content[0]) != key {
      if k >= 2 {
        WithKeepsPlaces(content[2..], key, node, k - 2);
      } else if |content| > 2 {
        WithKeepsPlaces(content[2..], key, node, 0);
      } else {
        assert content[2..] == [];
      }
    }
  }

  /** The late commands that each step puts in front of or behind the list it finds. */
  lemma PrependedKeys(content: seq<Node>, packages: Packages, key: string)
    requires Paired(content)
    ensures Prepended(content, packages).Err? <==>
              packages == Requested(false) || (packages == Requested(true) && LateCommands(content).Err?)
    ensures Prepended(content, packages).Ok? ==>
              var c := Prepended(content, packages).value;
              && Paired(c)
              && (key != LATE_COMMANDS ==> Lookup(c, key) == Lookup(content, key))
              && LateCommands(c) == match LateCommands(content)
                 case Err(e) => Err(e)
                 case Ok(items) => Ok((if packages.NoPackages? then [] else Commands(INSTALL_COMMANDS)) + items)
  {
    hide Lookup, With, Commands;
    if packages == Requested(true) && LateCommands(content).Ok? {
      var node := Sequence(Commands(INSTALL_COMMANDS) + LateCommands(content).value);
      LookupWith(content, LATE_COMMANDS, node, LATE_COMMANDS);
      LookupWith(content, LATE_COMMANDS, node, key);
      assert Prepended(content, packages).value == With(content, LATE_COMMANDS, node);
    } else if packages == NoPackages && LateCommands(content).Ok? {
      assert [] + LateCommands(content).value == LateCommands(content).value;
    }
  }

  lemma AppendedKeys(content: seq<Node>, key: string)
    requires Paired(content)
    ensures Appended(content).Err? <==> LateCommands(content).Err?
    ensures Appended(content).Ok? ==>
              var c := Appended(content).value;
              && (key != LATE_COMMANDS ==> Lookup(c, key) == Lookup(content, key))
              && Lookup(c, LATE_COMMANDS) == Some(Sequence(LateCommands(content).value + Commands(SUPPORT_COMMANDS)))
  {
    hide Lookup, With, Commands;
    if LateCommands(content).Ok? {
      var node := Sequence(LateCommands(content).value + Commands(SUPPORT_COMMANDS));
      LookupWith(content, LATE_COMMANDS, node, LATE_COMMANDS);
      LookupWith(content, LATE_COMMANDS, node, key);
    }
  }

  lemma PoweredOffKeys(content: seq<Node>, key: string)
    requires Paired(content)
    ensures var off := With(content, "shutdown", Scalar("poweroff"));
            && Paired(off) && LateCommands(off) == LateCommands(content)
            && Lookup(off, key) == if key == "shutdown" then Some(Scalar("poweroff")) else Lookup(content, key)
  {
    hide Lookup, With;
    LookupWith(content, "shutdown", Scalar("poweroff"), LATE_COMMANDS);
    LookupWith(content, "shutdown", Scalar("poweroff"), key);
    assert LATE_COMMANDS[0] != "shutdown"[0];
  }

  /** The rewrite is refused exactly when packages are asked for with an invalid configuration, or
      the user's late commands are not a list. */
  lemma RewriteFailsExactly(content: seq<Node>, packages: Packages)
    requires Paired(content)
    ensures Rewritten(content, packages).Err? <==>
              packages == Requested(false) || LateCommands(content).Err?
  {
    hide Lookup, With, Commands, Prepended, Appended, LateCommands;
    var off := With(content, "shutdown", Scalar("poweroff"));
    PoweredOffKeys(content, "shutdown");
    PrependedKeys(off, packages, "shutdown");
    if Prepended(off, packages).Ok? {
      AppendedKeys(Prepended(off, packages).value, "shutdown");
    }
  }

  function AllCommands(user: seq<Node>, packages: Packages): seq<Node> {
    (if packages.NoPackages? then [] else Commands(INSTALL_COMMANDS)) + user + Commands(SUPPORT_COMMANDS)
  }

  /** What the rewritten mapping says: the machine powers off, the late commands are the package
      installation, the user's own, and the builder's, in this order, and every other key has the
      value it had. */
  lemma RewrittenKeys(content: seq<Node>, packages: Packages, key: string)
    requires Paired(content) && Rewritten(content, packages).Ok?
    ensures var c := Rewritten(content, packages).value;
            && Lookup(c, "shutdown") == Some(Scalar("poweroff"))
            && LateCommands(content).Ok?
            && Lookup(c, LATE_COMMANDS) == Some(Sequence(AllCommands(LateCommands(content).value, packages)))
            && (key != "shutdown" && key != LATE_COMMANDS ==> Lookup(c, key) == Lookup(content, key))
  {
    hide Lookup, With, Commands, Prepended, Appended, LateCommands;
    var off := With(content, "shutdown", Scalar("poweroff"));
    assert LATE_COMMANDS[0] != "shutdown"[0];
    PoweredOffKeys(content, "shutdown");
    PoweredOffKeys(content, key);
    PrependedKeys(off, packages, "shutdown");
    PrependedKeys(off, packages, key);
    var pre := Prepended(off, packages).value;
    AppendedKeys(pre, "shutdown");
    AppendedKeys(pre, key);
  }

  /** Position k of the mapping holds what it held, unless it has the value of one of the two
      rewritten keys; the value of a repeated key is that of its first entry. */
  ghost predicate KeepsPlace(before: seq<Node>, after: seq<Node>, k: nat)
    requires k < |before|
  {
    k < |after| &&
    (after[k] == before[k] || IsFirstValue(before, "shutdown", k) || IsFirstValue(before, LATE_COMMANDS, k))
  }

  /** The same keys at the same positions, for what the user had. */
  ghost predicate KeepsKeys(before: seq<Node>, after: seq<Node>) {
    |before| <= |after| && forall i :: 0 <= i < |before| && i % 2 == 0 ==> after[i] == before[i]
  }

  lemma StepKeepsPlace(content: seq<Node>, before: seq<Node>, key: string, node: Node, k: nat)
    requires Paired(before) && k < |content| && KeepsPlace(content, before, k) && KeepsKeys(content, before)
    requires key == "shutdown" || key == LATE_COMMANDS
    ensures KeepsPlace(content, With(before, key, node), k) && KeepsKeys(content, With(before, key, node))
  {
    hide With, Value;
    WithKeepsPlaces(before, key, node, k);
    forall i | 0 <= i < |content| && i % 2 == 0
      ensures With(before, key, node)[i] == content[i]
    {
      WithKeepsPlaces(before, key, node, i);
    }
    assert IsFirstValue(before, key, k) ==> IsFirstValue(content, key, k);
  }

  /** Every entry stays where it was; entries the user did not have come last. */
  lemma RewrittenPlaces(content: seq<Node>, packages: Packages, k: nat)
    requires Paired(content) && k < |content| && Rewritten(content, packages).Ok?
    ensures KeepsPlace(content, Rewritten(content, packages).value, k)
  {
    hide Lookup, With, Commands;
    var off := With(content, "shutdown", Scalar("poweroff"));
    PoweredOffKeys(content, "shutdown");
    PrependedKeys(off, packages, "shutdown");
    StepKeepsPlace(content, content, "shutdown", Scalar("poweroff"), k);
    var pre := Prepended(off, packages).value;
    if packages.Requested? {
      StepKeepsPlace(content, off, LATE_COMMANDS, Sequence(Commands(INSTALL_COMMANDS) + LateCommands(off).value), k);
    }
    StepKeepsPlace(content, pre, LATE_COMMANDS, Sequence(LateCommands(pre).value + Commands(SUPPORT_COMMANDS)), k);
  }

  // ---------------------------------------------------------------- the validators

  function ScalarField(node: Node, key: string): string {
    if !node.Mapping? then ""
    else
      match Lookup(node.content, key)
      case Some(Scalar(v)) => Lower(TrimSpace(v))
      case _ => ""
  }

  function ActionOf(node: Node): U.Action {
    U.Action(ScalarField(node, "id"), ScalarField(node, "type"), ScalarField(node, "ptable"),
             ScalarField(node, "device"), ScalarField(node, "flag"), ScalarField(node, "volume"),
             ScalarField(node, "fstype"), ScalarField(node, "path"))
  }

  /** The storage actions; entries that are not mappings are skipped. */
  function ActionsOf(items: seq<Node>): seq<U.Action> {
    if items == [] then []
    else ActionsOf(items[..|items| - 1])
         + if items[|items| - 1].Mapping? then [ActionOf(items[|items| - 1])] else []
  }

  function ScalarTexts(items: seq<Node>): seq<string> {
    if items == [] then []
    else (if items[0].Scalar? then [items[0].value] else []) + ScalarTexts(items[1..])
  }

  function CommandText(node: Node): string {
    match node
    case Scalar(v) => v
    case Sequence(items) => Join(ScalarTexts(items), ' ')
    case _ => ""
  }

  function ForwardSlashes(s: string): (r: string)
    ensures |r| == |s|
  {
    seq(|s|, k requires 0 <= k < |s| => if s[k] == '\\' then '/' else s[k])
  }

  /** isPortableUEFIFallbackCommand */
  predicate IsFallback(command: string) {
    var low := Lower(command);
    || (Contains(low, "grub-install") && Contains(low, "--removable"))
    || Contains(ForwardSlashes(low), "efi/boot/bootx64.efi")
  }

  predicate AnyFallback(items: seq<Node>) {
    exists k :: 0 <= k < |items| && IsFallback(CommandText(items[k]))
  }

  predicate HasFallback(content: seq<Node>) {
    match Lookup(content, LATE_COMMANDS)
    case Some(Sequence(items)) => AnyFallback(items)
    case _ => false
  }

  /** ValidateUEFIPortableUserData after parsing; Ok is a nil error. */
  function PortabilityOf(content: seq<Node>): Result<(), string> {
    if !HasFallback(content) then Err("missing fallback command")
    else
      match Lookup(content, "storage")
      case None => Ok(())
      case Some(Mapping(storage)) =>
        (match Lookup(storage, "config")
         case None => Ok(())
         case Some(Sequence(items)) =>
           if U.HasESP(U.Collect(ActionsOf(items))) then Ok(()) else Err("no EFI system partition")
         case Some(_) => Err("storage.config must be a list"))
      case Some(_) => Err("storage must be a mapping")
  }

  function UEFIPortability(root: Node): Result<(), string> {
    match Autoinstall(root)
    case Err(e) => Err(e)
    case Ok(content) => PortabilityOf(content)
  }

  /** ValidateUserData: the host name, "" when there is none. */
  function Hostname(root: Node): Result<string, string> {
    match Autoinstall(root)
    case Err(e) => Err(e)
    case Ok(content) =>
      match Lookup(content, "identity")
      case Some(Mapping(identity)) =>
        (match Lookup(identity, "hostname")
         case Some(Scalar(v)) => Ok(TrimSpace(v))
         case _ => Ok(""))
      case _ => Ok("")
  }

  // ---------------------------------------------------------------- what the verdicts mean

  /** The node that is reached from a node by following keys through mappings. */
  function At(node: Node, keys: seq<string>): Option<Node>
    decreases |keys|
  {
    if keys == [] then Some(node)
    else if !node.Mapping? then None
    else
      match Lookup(node.content, keys[0])
      case None => None
      case Some(next) => At(next, keys[1..])
  }

  lemma AtStep(node: Node, key: string, keys: seq<string>)
    ensures At(node, [key] + keys) ==
              if !node.Mapping? then None
              else match Lookup(node.content, key)
                   case None => None
                   case Some(next) => At(next, keys)
  {
    assert ([key] + keys)[1..] == keys;
  }

  /** A phrase stands at a position, in any case. */
  predicate MentionedAt(text: string, at: nat, phrase: string) {
    at + |phrase| <= |text| && forall k :: 0 <= k < |phrase| ==> LowerChar(text[at + k]) == phrase[k]
  }

  ghost predicate Mentions(text: string, phrase: string) {
    exists at: nat :: MentionedAt(text, at, phrase)
  }

  /** A path stands at a position, in any case and with slashes of either kind. */
  predicate PathAt(text: string, at: nat, path: string) {
    at + |path| <= |text| && forall k :: 0 <= k < |path| ==>
      LowerChar(text[at + k]) == path[k] || (text[at + k] == '\\' && path[k] == '/')
  }

  ghost predicate MentionsPath(text: string, path: string) {
    exists at: nat :: PathAt(text, at, path)
  }

  /** A command that installs a boot loader at the fallback path. */
  ghost predicate InstallsFallback(command: string) {
    || (Mentions(command, "grub-install") && Mentions(command, "--removable"))
    || MentionsPath(command, "efi/boot/bootx64.efi")
  }

  lemma OccursIsMention(text: string, at: nat, phrase: string)
    ensures OccursAt(Lower(text), phrase, at) <==> MentionedAt(text, at, phrase)
  {
    var low := Lower(text);
    if at + |phrase| <= |text| {
      var part := low[at..at + |phrase|];
      assert |part| == |phrase| && forall k :: 0 <= k < |part| ==> part[k] == LowerChar(text[at + k]);
    }
  }

  lemma MentionBound(text: string, phrase: string)
    ensures forall at: nat :: MentionedAt(text, at, phrase) || PathAt(text, at, phrase) ==> at <= |text|
  {
  }

  lemma ContainsIsMention(text: string, phrase: string)
    ensures Contains(Lower(text), phrase) <==> Mentions(text, phrase)
  {
    hide OccursAt, MentionedAt;
    forall at: nat
      ensures OccursAt(Lower(text), phrase, at) <==> MentionedAt(text, at, phrase)
    {
      OccursIsMention(text, at, phrase);
    }
    MentionBound(text, phrase);
  }

  lemma OccursIsPath(text: string, at: nat, path: string)
    requires '\\' !in path
    ensures OccursAt(ForwardSlashes(Lower(text)), path, at) <==> PathAt(text, at, path)
  {
    var low := ForwardSlashes(Lower(text));
    if at + |path| <= |text| {
      var part := low[at..at + |path|];
      assert |part| == |path| && forall k :: 0 <= k < |part| ==>
          part[k] == if text[at + k] == '\\' then '/' else LowerChar(text[at + k]);
    }
  }

  lemma ContainsIsPathMention(text: string, path: string)
    requires '\\' !in path
    ensures Contains(ForwardSlashes(Lower(text)), path) <==> MentionsPath(text, path)
  {
    hide OccursAt, PathAt;
    forall at: nat
      ensures OccursAt(ForwardSlashes(Lower(text)), path, at) <==> PathAt(text, at, path)
    {
      OccursIsPath(text, at, path);
    }
    MentionBound(text, path);
  }

  lemma NoBackslashInPath()
    ensures '\\' !in "efi/boot/bootx64.efi"
  {
  }

  lemma FallbackIff(command: string)
    ensures IsFallback(command) <==> InstallsFallback(command)
  {
    hide Contains, Mentions, MentionsPath;
    ContainsIsMention(command, "grub-install");
    ContainsIsMention(command, "--removable");
    NoBackslashInPath();
    ContainsIsPathMention(command, "efi/boot/bootx64.efi");
  }

  /** Some late command installs a fallback boot loader. */
  ghost predicate HasFallbackCommand(root: Node) {
    match At(root, ["autoinstall", "late-commands"])
    case Some(Sequence(items)) => exists k :: 0 <= k < |items| && InstallsFallback(CommandText(items[k]))
    case _ => false
  }

  /** No storage is configured by hand, or the configured actions make an EFI system partition. */
  ghost predicate StorageIsPortable(root: Node) {
    match At(root, ["autoinstall", "storage"])
    case None => true
    case Some(Mapping(_)) =>
      (match At(root, ["autoinstall", "storage", "config"])
       case None => true
       case Some(Sequence(items)) =>
         exists d: nat, p: nat, f: nat, m: nat :: U.EffectiveChain(ActionsOf(items), d, p, f, m)
       case Some(_) => false)
    case Some(_) => false
  }

  lemma FallbackMeans(items: seq<Node>)
    ensures AnyFallback(items) <==> exists k :: 0 <= k < |items| && InstallsFallback(CommandText(items[k]))
  {
    hide IsFallback, InstallsFallback, CommandText;
    forall k | 0 <= k < |items|
      ensures IsFallback(CommandText(items[k])) <==> InstallsFallback(CommandText(items[k]))
    {
      FallbackIff(CommandText(items[k]));
    }
  }

  lemma FallbackAt(root: Node, content: seq<Node>)
    requires Autoinstall(root) == Ok(content)
    ensures HasFallback(content) <==> HasFallbackCommand(root)
  {
    hide AnyFallback, InstallsFallback, CommandText, Lookup;
    AtStep(root, "autoinstall", [LATE_COMMANDS]);
    AtStep(Mapping(content), LATE_COMMANDS, []);
    match Lookup(content, LATE_COMMANDS) {
      case Some(Sequence(items)) => FallbackMeans(items);
      case _ =>
    }
  }

  lemma StorageAt(root: Node, content: seq<Node>)
    requires Autoinstall(root) == Ok(content) && HasFallback(content)
    ensures PortabilityOf(content).Ok? <==> StorageIsPortable(root)
  {
    hide HasFallback, ActionsOf, Lookup;
    AtStep(root, "autoinstall", ["storage"]);
    AtStep(Mapping(content), "storage", []);
    AtStep(root, "autoinstall", ["storage", "config"]);
    AtStep(Mapping(content), "storage", ["config"]);
    assert ["autoinstall"] + ["storage", "config"] == ["autoinstall", "storage", "config"];
    assert ["storage"] + ["config"] == ["storage", "config"];
    match Lookup(content, "storage") {
      case Some(Mapping(storage)) =>
        AtStep(Mapping(storage), "config", []);
        match Lookup(storage, "config") {
          case Some(Sequence(items)) => U.CheckIsExact(ActionsOf(items));
          case _ =>
        }
      case _ =>
    }
  }

  /** The UEFI verdict: user data is portable exactly when it has an autoinstall mapping, a late command
      that installs a fallback boot loader, and no storage by hand or one with an EFI system
      partition. */
  lemma PortableIff(root: Node)
    ensures UEFIPortability(root).Ok? <==>
              && (exists content :: At(root, ["autoinstall"]) == Some(Mapping(content)))
              && HasFallbackCommand(root) && StorageIsPortable(root)
  {
    hide HasFallback, HasFallbackCommand, StorageIsPortable, Lookup;
    AtStep(root, "autoinstall", []);
    if Autoinstall(root).Ok? {
      var content := Autoinstall(root).value;
      FallbackAt(root, content);
      if HasFallback(content) {
        StorageAt(root, content);
      }
    }
  }

  /** The host name is that of the identity, or "", for all user data with an autoinstall mapping. */
  lemma HostnameIs(root: Node)
    ensures Hostname(root).Ok? <==> exists content :: At(root, ["autoinstall"]) == Some(Mapping(content))
    ensures Hostname(root).Ok? ==>
              Hostname(root).value == match At(root, ["autoinstall", "identity", "hostname"])
                                      case Some(Scalar(name)) => TrimSpace(name)
                                      case _ => ""
  {
    hide Lookup, TrimSpace;
    AtStep(root, "autoinstall", []);
    AtStep(root, "autoinstall", ["identity", "hostname"]);
    assert ["autoinstall"] + ["identity", "hostname"] == ["autoinstall", "identity", "hostname"];
    assert ["identity"] + ["hostname"] == ["identity", "hostname"];
    if Autoinstall(root).Ok? {
      var content := Autoinstall(root).value;
      AtStep(Mapping(content), "identity", ["hostname"]);
      match Lookup(content, "identity") {
        case Some(identity) => AtStep(identity, "hostname", []);
        case None =>
      }
    }
  }

  /** A mapping of keys to scalars. */
  function Entries(keys: seq<string>, values: seq<string>): (content: seq<Node>)
    requires |keys| == |values|
    ensures |content| == 2 * |keys|
    ensures forall k :: 0 <= k < |keys| ==> content[2 * k] == Scalar(keys[k]) && content[2 * k + 1] == Scalar(values[k])
  {
    seq(2 * |keys|, i requires 0 <= i < 2 * |keys| => Scalar(if i % 2 == 0 then keys[i / 2] else values[i / 2]))
  }

  lemma EntriesTail(keys: seq<string>, values: seq<string>)
    requires |keys| == |values| > 0
    ensures Entries(keys, values)[2..] == Entries(keys[1..], values[1..])
    ensures Entries(keys, values)[0] == Scalar(keys[0]) && Entries(keys, values)[1] == Scalar(values[0])
  {
    assert forall i :: 0 <= i < 2 * (|keys| - 1) ==> (i + 2) % 2 == i % 2 && (i + 2) / 2 == i / 2 + 1;
  }

  lemma {:induction false} LookupEntry(keys: seq<string>, values: seq<string>, k: nat)
    requires |keys| == |values| && k < |keys|
    requires forall j :: 0 <= j < k ==> keys[j] != keys[k]
    ensures Lookup(Entries(keys, values), keys[k]) == Some(Scalar(values[k]))
    decreases k
  {
    hide Entries;
    EntriesTail(keys, values);
    if k > 0 {
      assert keys[0] != keys[k];
      LookupEntry(keys[1..], values[1..], k - 1);
    }
  }

  const ACTION_KEYS := ["path", "fstype", "volume", "flag", "device", "ptable", "type", "id"]

  /** A storage action as a YAML mapping. */
  function NodeOf(a: U.Action): Node {
    Mapping(Entries(ACTION_KEYS, [a.path, a.fstype, a.volume, a.flag, a.device, a.ptable, a.kind, a.id]))
  }

  predicate Normal(field: string) {
    Lower(TrimSpace(field)) == field
  }

  predicate AllNormal(a: U.Action) {
    forall field <- [a.path, a.fstype, a.volume, a.flag, a.device, a.ptable, a.kind, a.id] :: Normal(field)
  }

  lemma ActionKeysDiffer()
    ensures forall i, j :: 0 <= j < i < 8 ==> ACTION_KEYS[j] != ACTION_KEYS[i]
  {
    assert ACTION_KEYS[0][1] == 'a' && ACTION_KEYS[5][1] == 't' && ACTION_KEYS[1][1] == 's' && ACTION_KEYS[3][1] == 'l';
    var first := "pfvfdpti";
    forall i, j | 0 <= j < i < 8
      ensures ACTION_KEYS[j] != ACTION_KEYS[i]
    {
      assert ACTION_KEYS[j][0] == first[j] && ACTION_KEYS[i][0] == first[i];
    }
  }

  lemma FieldAt(values: seq<string>, k: nat)
    requires |values| == 8 && k < 8 && Normal(values[k])
    ensures ScalarField(Mapping(Entries(ACTION_KEYS, values)), ACTION_KEYS[k]) == values[k]
  {
    hide Lookup, TrimSpace, Entries;
    ActionKeysDiffer();
    LookupEntry(ACTION_KEYS, values, k);
  }

  /** Reading an action back from its mapping gives the action. */
  lemma ActionRoundTrip(a: U.Action)
    requires AllNormal(a)
    ensures ActionOf(NodeOf(a)) == a
  {
    hide ScalarField, Normal, Entries;
    var values := [a.path, a.fstype, a.volume, a.flag, a.device, a.ptable, a.kind, a.id];
    forall k | 0 <= k < 8
      ensures ScalarField(NodeOf(a), ACTION_KEYS[k]) == values[k]
    {
      assert values[k] in values;
      FieldAt(values, k);
    }
    assert ACTION_KEYS[0] == "path" && ACTION_KEYS[1] == "fstype" && ACTION_KEYS[2] == "volume"
        && ACTION_KEYS[3] == "flag" && ACTION_KEYS[4] == "device" && ACTION_KEYS[5] == "ptable"
        && ACTION_KEYS[6] == "type" && ACTION_KEYS[7] == "id";
  }

  /** A field that is not there, or is no scalar, is empty; entries that are no mappings are skipped. */
  lemma EmptyFields(node: Node, key: string)
    requires node.Mapping? ==> (Lookup(node.content, key).None? || !Lookup(node.content, key).value.Scalar?)
    ensures ScalarField(node, key) == ""
  {
  }

  lemma IsMapping(a: U.Action)
    ensures NodeOf(a).Mapping?
  {
  }

  lemma {:induction false} ActionsAreMappings(actions: seq<U.Action>, items: seq<Node>)
    requires |actions| == |items| && forall k :: 0 <= k < |items| ==> items[k] == NodeOf(actions[k]) && AllNormal(actions[k])
    ensures ActionsOf(items) == actions
  {
    hide ActionOf, NodeOf, AllNormal;
    if items != [] {
      var n := |items| - 1;
      ActionsAreMappings(actions[..n], items[..n]);
      ActionRoundTrip(actions[n]);
      IsMapping(actions[n]);
      assert actions == actions[..n] + [actions[n]];
    }
  }

  lemma OtherEntriesAreSkipped(items: seq<Node>, other: Node)
    requires !other.Mapping?
    ensures ActionsOf(items + [other]) == ActionsOf(items)
  {
    assert (items + [other])[..|items|] == items;
  }

  lemma {:induction false} TextsOfScalars(words: seq<string>)
    ensures ScalarTexts(Commands(words)) == words
  {
    if words != [] {
      assert Commands(words)[1..] == Commands(words[1..]);
      TextsOfScalars(words[1..]);
      assert words == [words[0]] + words[1..];
    }
  }

  /** A command given as a list of words reads like the same words on one line. */
  lemma ListedCommand(words: seq<string>)
    ensures CommandText(Sequence(Commands(words))) == Join(words, ' ') == CommandText(Scalar(Join(words, ' ')))
  {
    TextsOfScalars(words);
  }

  // ---------------------------------------------------------------- the builder's commands

  predicate NoDoubleDash(s: string) {
    forall k :: 0 < k < |s| ==> !(s[k - 1] == '-' && s[k] == '-')
  }

  predicate Clean(s: string) {
    NoDoubleDash(s) && 'x' !in s && 'X' !in s && s != "" && s[0] != '-' && s[|s| - 1] != '-'
  }

  lemma CleanConcat(a: string, b: string)
    requires Clean(a) && Clean(b)
    ensures Clean(a + b)
  {
  }

  lemma NoDashes(s: string)
    requires NoDoubleDash(s)
    ensures !Contains(Lower(s), "--removable")
  {
    var low := Lower(s);
    forall at: nat | at <= |low|
      ensures !OccursAt(low, "--removable", at)
    {
      if at + 11 <= |low| {
        assert low[at..at + 11][0] == low[at] && low[at..at + 11][1] == low[at + 1];
        assert s[at] != '-' || s[at + 1] != '-';
      }
    }
  }

  lemma NoX(s: string)
    requires 'x' !in s && 'X' !in s
    ensures !Contains(ForwardSlashes(Lower(s)), "efi/boot/bootx64.efi")
  {
    var text := ForwardSlashes(Lower(s));
    assert 'x' !in text;
    assert "efi/boot/bootx64.efi"[13] == 'x';
  }

  /** A command without a double dash and without an x is no fallback command. */
  lemma CleanIsNoFallback(s: string)
    requires Clean(s)
    ensures !IsFallback(s)
  {
    NoDashes(s);
    NoX(s);
  }

  lemma {:induction false} QuoteOfPlain(s: string)
    requires '\'' !in s
    ensures Escaped(s) == s
  {
    if s != "" {
      QuoteOfPlain(s[1..]);
      assert [s[0]] + s[1..] == s;
    }
  }

  lemma CleanQuote(s: string)
    requires Clean(s) && '\'' !in s
    ensures Clean(ShellQuote(s))
  {
    QuoteOfPlain(s);
    assert Clean("'");
    CleanConcat("'", s);
    CleanConcat("'" + s, "'");
  }

  lemma CleanConcatPlain(a: string, b: string)
    requires Clean(a) && Clean(b) && '\'' !in a && '\'' !in b
    ensures Clean(a + b) && '\'' !in a + b
  {
    CleanConcat(a, b);
  }

  lemma RootIsClean()
    ensures Clean(CDROM) && '\'' !in CDROM && Clean(TARGET) && '\'' !in TARGET
    ensures Clean("/scripts") && '\'' !in "/scripts"
  {
  }

  lemma BuilderIsClean()
    ensures Clean(BUILDER) && '\'' !in BUILDER
  {
  }

  lemma PrepareIsClean()
    ensures Clean("/prepare-cloud-init-template.sh") && '\'' !in "/prepare-cloud-init-template.sh"
  {
  }

  lemma CleanupIsClean()
    ensures Clean("/cleanup-installed-grub.sh") && '\'' !in "/cleanup-installed-grub.sh"
  {
  }

  lemma InstallIsClean()
    ensures Clean("/install-offline-packages.sh") && '\'' !in "/install-offline-packages.sh"
  {
  }

  lemma RepositoryIsClean()
    ensures Clean("/offline-apt") && '\'' !in "/offline-apt"
    ensures Clean("/offline-apt-install") && '\'' !in "/offline-apt-install"
  {
  }

  lemma PathsAreClean()
    ensures Clean(PREPARE_SCRIPT) && Clean(CLEANUP_SCRIPT)
    ensures Clean(INSTALL_SCRIPT) && '\'' !in INSTALL_SCRIPT
    ensures Clean(REPOSITORY) && '\'' !in REPOSITORY
    ensures Clean(INSTALL_CONFIG) && '\'' !in INSTALL_CONFIG
    ensures Clean(TARGET) && '\'' !in TARGET
  {
    hide Clean;
    RootIsClean();
    BuilderIsClean();
    PrepareIsClean();
    CleanupIsClean();
    InstallIsClean();
    RepositoryIsClean();
    CleanConcatPlain(CDROM, BUILDER);
    CleanConcatPlain(CDROM + BUILDER, "/scripts");
    CleanConcatPlain(CDROM + BUILDER, "/offline-apt");
    CleanConcatPlain(CDROM + BUILDER, "/offline-apt-install");
    CleanConcatPlain(SCRIPTS, "/prepare-cloud-init-template.sh");
    CleanConcatPlain(SCRIPTS, "/cleanup-installed-grub.sh");
    CleanConcatPlain(SCRIPTS, "/install-offline-packages.sh");
  }

  lemma ConnectivesAreClean()
    ensures Clean("sh ") && Clean(" ")
  {
  }

  /** None of the builder's own commands is taken for a fallback boot loader installation. */
  lemma BuilderCommandsAreClean()
    ensures forall k :: 0 <= k < |SUPPORT_COMMANDS| ==> Clean(SUPPORT_COMMANDS[k])
    ensures forall k :: 0 <= k < |INSTALL_COMMANDS| ==> Clean(INSTALL_COMMANDS[k])
  {
    hide Clean, ShellQuote;
    PathsAreClean();
    ConnectivesAreClean();
    CleanConcat("sh ", PREPARE_SCRIPT);
    CleanConcat("sh " + PREPARE_SCRIPT, " ");
    CleanConcat("sh " + PREPARE_SCRIPT + " ", TARGET);
    CleanConcat("sh ", CLEANUP_SCRIPT);
    CleanConcat("sh " + CLEANUP_SCRIPT, " ");
    CleanConcat("sh " + CLEANUP_SCRIPT + " ", TARGET);
    CleanQuote(INSTALL_SCRIPT);
    CleanQuote(TARGET);
    CleanQuote(REPOSITORY);
    CleanQuote(INSTALL_CONFIG);
    var c1 := "sh " + ShellQuote(INSTALL_SCRIPT);
    var c2 := c1 + " " + ShellQuote(TARGET);
    var c3 := c2 + " " + ShellQuote(REPOSITORY);
    CleanConcat("sh ", ShellQuote(INSTALL_SCRIPT));
    CleanConcat(c1, " ");
    CleanConcat(c1 + " ", ShellQuote(TARGET));
    CleanConcat(c2, " ");
    CleanConcat(c2 + " ", ShellQuote(REPOSITORY));
    CleanConcat(c3, " ");
    CleanConcat(c3 + " ", ShellQuote(INSTALL_CONFIG));
  }

  // ---------------------------------------------------------------- verdicts do not change

  lemma AnyConcat(a: seq<Node>, b: seq<Node>)
    ensures AnyFallback(a + b) <==> AnyFallback(a) || AnyFallback(b)
  {
    hide IsFallback, CommandText;
    if k :| 0 <= k < |b| && IsFallback(CommandText(b[k])) {
      assert (a + b)[|a| + k] == b[k];
    }
    if k :| 0 <= k < |a| && IsFallback(CommandText(a[k])) {
      assert (a + b)[k] == a[k];
    }
  }

  lemma CleanCommands(texts: seq<string>)
    requires forall k :: 0 <= k < |texts| ==> Clean(texts[k])
    ensures !AnyFallback(Commands(texts))
  {
    hide IsFallback, Clean;
    forall k | 0 <= k < |texts|
      ensures !IsFallback(CommandText(Commands(texts)[k]))
    {
      CleanIsNoFallback(texts[k]);
    }
  }

  lemma NothingIsNoFallback()
    ensures !AnyFallback([])
  {
  }

  lemma BuilderAddsNoFallback(user: seq<Node>, packages: Packages)
    ensures AnyFallback(AllCommands(user, packages)) == AnyFallback(user)
  {
    hide AnyFallback, Clean, Commands;
    BuilderCommandsAreClean();
    CleanCommands(SUPPORT_COMMANDS);
    CleanCommands(INSTALL_COMMANDS);
    NothingIsNoFallback();
    var install := if packages.NoPackages? then [] else Commands(INSTALL_COMMANDS);
    AnyConcat(install, user);
    AnyConcat(install + user, Commands(SUPPORT_COMMANDS));
  }

  lemma RewriteKeepsFallback(content: seq<Node>, packages: Packages)
    requires Paired(content) && Rewritten(content, packages).Ok?
    ensures HasFallback(Rewritten(content, packages).value) == HasFallback(content)
  {
    hide Rewritten, Lookup, AnyFallback, AllCommands;
    RewrittenKeys(content, packages, LATE_COMMANDS);
    NothingIsNoFallback();
    BuilderAddsNoFallback(LateCommands(content).value, packages);
  }

  lemma KeysDiffer()
    ensures "storage" != "shutdown" && "storage" != LATE_COMMANDS
    ensures "identity" != "shutdown" && "identity" != LATE_COMMANDS
  {
    assert "storage"[1] != "shutdown"[1] && "storage"[0] != LATE_COMMANDS[0] && "identity"[0] != "shutdown"[0]
        && "identity"[0] != LATE_COMMANDS[0];
  }

  lemma RewriteKeepsPortability(content: seq<Node>, packages: Packages)
    requires Paired(content) && Rewritten(content, packages).Ok?
    ensures PortabilityOf(Rewritten(content, packages).value) == PortabilityOf(content)
  {
    hide Rewritten, Lookup, HasFallback, ActionsOf;
    KeysDiffer();
    RewriteKeepsFallback(content, packages);
    RewrittenKeys(content, packages, "storage");
  }

  /** The top level after a successful rewrite, and everything beside the autoinstall mapping. */
  lemma TransformedRoot(root: Node, packages: Packages, key: string)
    requires root.Mapping? && Paired(root.content) && Transform(root, packages).Ok?
    ensures var out := Transform(root, packages).value;
            && out.Mapping?
            && Autoinstall(root).Ok? && Rewritten(Autoinstall(root).value, packages).Ok?
            && Autoinstall(out) == Ok(Rewritten(Autoinstall(root).value, packages).value)
            && (key != "autoinstall" ==> Lookup(out.content, key) == Lookup(root.content, key))
  {
    hide Rewritten, Lookup, With;
    var c := Mapping(Rewritten(Autoinstall(root).value, packages).value);
    LookupWith(root.content, "autoinstall", c, "autoinstall");
    LookupWith(root.content, "autoinstall", c, key);
  }

  /** Preparing user data never changes what the validators say about it: the UEFI portability
      verdict and the host name are those of the user's own data. */
  lemma TransformKeepsVerdicts(root: Node, packages: Packages)
    requires root.Mapping? && Paired(root.content)
    requires Autoinstall(root).Ok? ==> Paired(Autoinstall(root).value)
    requires Transform(root, packages).Ok?
    ensures var out := Transform(root, packages).value;
            UEFIPortability(out) == UEFIPortability(root) && Hostname(out) == Hostname(root)
  {
    hide Rewritten, Lookup, With, PortabilityOf, Transform;
    TransformedRoot(root, packages, "autoinstall");
    var content := Autoinstall(root).value;
    KeysDiffer();
    RewriteKeepsPortability(content, packages);
    RewrittenKeys(content, packages, "identity");
  }

  lemma JoinOfFour(w: seq<string>)
    requires |w| == 4
    ensures Join(w, ' ') == w[0] + " " + w[1] + " " + w[2] + " " + w[3]
  {
    assert w[1..][1..] == w[2..] && w[2..][1..] == w[3..] && w[3..] == [w[3]];
    assert Join(w[2..], ' ') == w[2] + [' '] + w[3];
    assert Join(w[1..], ' ') == w[1] + [' '] + (w[2] + [' '] + w[3]);
  }

  lemma ReadsSh(rest: string)
    ensures Words("sh " + rest, Between) ==
              match Words(rest, Between)
              case None => Option.None
              case Some(words) => Option.Some(["sh"] + words)
  {
    hide Words;
    assert "" + ['s'] == "s" && "s" + ['h'] == "sh";
    Reads(Between, 's', Bare("s"), "h " + rest);
    Reads(Bare("s"), 'h', Bare("sh"), " " + rest);
    EndsWord("sh", rest);
    assert "sh " + rest == ['s'] + ("h " + rest);
    assert "h " + rest == ['h'] + (" " + rest);
  }

  /** A shell runs the package installation with exactly the five intended words. */
  lemma InstallCommandWords()
    ensures Words(INSTALL_COMMANDS[0], Between)
         == Option.Some(["sh", INSTALL_SCRIPT, TARGET, REPOSITORY, INSTALL_CONFIG])
  {
    hide Words, ShellQuote;
    var args := [INSTALL_SCRIPT, TARGET, REPOSITORY, INSTALL_CONFIG];
    var quoted := QuotedAll(args);
    assert quoted == [ShellQuote(INSTALL_SCRIPT), ShellQuote(TARGET), ShellQuote(REPOSITORY), ShellQuote(INSTALL_CONFIG)];
    var line := ShellQuote(INSTALL_SCRIPT) + " " + ShellQuote(TARGET) + " "
                + ShellQuote(REPOSITORY) + " " + ShellQuote(INSTALL_CONFIG);
    JoinOfFour(quoted);
    ShellReadsArguments(args);
    ReadsSh(line);
    assert INSTALL_COMMANDS[0] == "sh " + line;
    assert ["sh"] + args == ["sh", INSTALL_SCRIPT, TARGET, REPOSITORY, INSTALL_CONFIG];
  }

  lemma RootPath()
    ensures CDROM + BUILDER == "/cdrom/ubuntu-vm-template-builder"
  {
  }

  lemma ScriptsPath()
    ensures SCRIPTS == "/cdrom/ubuntu-vm-template-builder/scripts"
  {
    RootPath();
  }

  lemma ScriptPaths()
    ensures PREPARE_SCRIPT == "/cdrom/ubuntu-vm-template-builder/scripts" + "/prepare-cloud-init-template.sh"
    ensures CLEANUP_SCRIPT == "/cdrom/ubuntu-vm-template-builder/scripts" + "/cleanup-installed-grub.sh"
    ensures INSTALL_SCRIPT == "/cdrom/ubuntu-vm-template-builder/scripts" + "/install-offline-packages.sh"
  {
    ScriptsPath();
  }

  /** The scripts and directories that the builder's commands name, and the installed system's root. */
  lemma BuilderPaths()
    ensures PREPARE_SCRIPT == "/cdrom/ubuntu-vm-template-builder/scripts" + "/prepare-cloud-init-template.sh"
    ensures CLEANUP_SCRIPT == "/cdrom/ubuntu-vm-template-builder/scripts" + "/cleanup-installed-grub.sh"
    ensures INSTALL_SCRIPT == "/cdrom/ubuntu-vm-template-builder/scripts" + "/install-offline-packages.sh"
    ensures REPOSITORY == "/cdrom/ubuntu-vm-template-builder" + "/offline-apt"
    ensures INSTALL_CONFIG == "/cdrom/ubuntu-vm-template-builder" + "/offline-apt-install"
    ensures SUPPORT_COMMANDS == ["sh " + PREPARE_SCRIPT + " " + "/target", "sh " + CLEANUP_SCRIPT + " " + "/target"]
  {
    RootPath();
    ScriptPaths();
  }
}
