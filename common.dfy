/**
 * Definitions shared by the two revisions of the menu parser
 * (src/parser.rs and the older copy inside src/config.rs): the error
 * conditions, and the checks both revisions perform with identical code —
 * string argument lists, single string arguments, `fuzzel-config` key/value
 * children, an item's `icon` children, a program's `command` children and
 * the `~` expansion of `icon-dir` paths.
 */
module Common {
  import opened Wrappers
  import opened Kdl

  type Path = string

  /** One constructor per failure the source reports (each `ensure!`,
      `context` and `bail!`), in the source's own wording order. */
  datatype Error =
    | ReadFailed              // "failed to read config file"
    | KdlSyntax               // "failed to parse KDL document"
    | ArgsHaveChildren        // "fuzzel-args must not have children"
    | ArgsNamed               // "fuzzel-args arguments must not be named"
    | ArgsNotString           // "fuzzel-args arguments must be strings"
    | ConfigHasArguments      // "fuzzel-config must not have arguments, only children"
    | ConfigNoChildren        // "fuzzel-config must have children"
    | ConfigKeyArgCount       // "fuzzel-config key must have exactly one argument"
    | ConfigKeyNamed          // "fuzzel-config key argument must not be named"
    | ConfigKeyNotString      // "fuzzel-config key argument must be a string"
    | IconDirHasChildren      // "icon-dir must not have children"
    | IconDirArgCount         // "icon-dir must have exactly one argument"
    | IconDirNamed            // "icon-dir argument must not be named"
    | IconDirNotString        // "icon-dir argument must be a string"
    | NoHomeDir               // "unable to get home directory"
    | HomeNotUtf8             // "home path contains non-utf8 characters"
    | IconDirNotAbsolute      // "icon-dir path must be absolute"
    | ItemArgCount            // "item must have exactly one argument"
    | ItemNameNamed           // "item name must not be a named argument"
    | ItemNameNotString       // "item name must be a string"
    | ItemNoChildren          // "item must have children"
    | NoSortHasChildren       // "no-sort must not have children"
    | NoSortHasArguments      // "no-sort must not have arguments"
    | UnexpectedInMenu(node: string)     // "unexpected node in menu: {}"
    | CommandHasChildren      // "command must not have children"
    | CommandNamed            // "command arguments must not be named"
    | CommandNotString        // "command arguments must be strings"
    | UnexpectedInProgram(node: string)  // "unexpected node in program: {}"
    | IconHasChildren         // "icon must not have children"
    | IconArgCount            // "icon must have exactly one argument"
    | IconNamed               // "icon argument must not be named"
    | IconNotString           // "icon argument must be a string"

  /** A launchable program: argv[0] followed by its arguments. */
  datatype Program = Program(command: seq<string>)

  /** Which node name declared an item: `menu` or `program`. */
  datatype ItemKind = MenuItem | ProgramItem

  /*************************************************************************
   * Sequences processed front to back, stopping at the first error
   *************************************************************************/

  /** Applies `f` to every element in order; the first error wins. */
  function Traverse<A, T, E>(xs: seq<A>, f: A -> Result<T, E>): Result<seq<T>, E>
  {
    if xs == [] then Ok([])
    else
      match Traverse(xs[..|xs| - 1], f)
      case Err(e) => Err(e)
      case Ok(vs) =>
        match f(xs[|xs| - 1])
        case Err(e) => Err(e)
        case Ok(v) => Ok(vs + [v])
  }

  /** A traversal succeeds exactly when every element does, and then yields
      the elements' values in order. */
  lemma {:induction false} TraverseOk<A, T, E>(xs: seq<A>, f: A -> Result<T, E>)
    ensures Traverse(xs, f).Ok? <==> forall i :: 0 <= i < |xs| ==> f(xs[i]).Ok?
    ensures Traverse(xs, f).Ok? ==>
              |Traverse(xs, f).value| == |xs| &&
              forall i :: 0 <= i < |xs| ==> Traverse(xs, f).value[i] == f(xs[i]).value
  {
    if xs != [] {
      var init := xs[..|xs| - 1];
      TraverseOk(init, f);
      if Traverse(init, f).Err? {
        var k :| 0 <= k < |init| && f(init[k]).Err?;
        assert xs[k] == init[k];
      } else {
        forall i | 0 <= i < |init|
          ensures xs[i] == init[i]
        {
        }
      }
    }
  }

  /** A failed traversal reports the error of the first failing element. */
  lemma {:induction false} TraverseErr<A, T, E>(xs: seq<A>, f: A -> Result<T, E>)
    requires Traverse(xs, f).Err?
    ensures exists k :: 0 <= k < |xs| && f(xs[k]) == Err(Traverse(xs, f).error) &&
                        forall i :: 0 <= i < k ==> f(xs[i]).Ok?
  {
    var init := xs[..|xs| - 1];
    if Traverse(init, f).Err? {
      TraverseErr(init, f);
      var k :| 0 <= k < |init| && f(init[k]) == Err(Traverse(init, f).error) &&
               forall i :: 0 <= i < k ==> f(init[i]).Ok?;
      assert xs[k] == init[k];
      forall i | 0 <= i < k
        ensures f(xs[i]).Ok?
      {
        assert xs[i] == init[i];
      }
    } else {
      TraverseOk(init, f);
      forall i | 0 <= i < |init|
        ensures f(xs[i]).Ok?
      {
        assert xs[i] == init[i];
      }
    }
  }

  /** One more successful element extends a successful traversal. */
  lemma TraverseStep<A, T, E>(xs: seq<A>, f: A -> Result<T, E>, i: nat)
    requires i < |xs| && Traverse(xs[..i], f).Ok? && f(xs[i]).Ok?
    ensures Traverse(xs[..i + 1], f) == Ok(Traverse(xs[..i], f).value + [f(xs[i]).value])
  {
    assert xs[..i + 1][..i] == xs[..i];
  }

  /** After a successful prefix, the first failing element decides the outcome. */
  lemma {:induction false} TraverseStops<A, T, E>(xs: seq<A>, f: A -> Result<T, E>, i: nat)
    requires i < |xs| && Traverse(xs[..i], f).Ok? && f(xs[i]).Err?
    ensures Traverse(xs, f) == Err(f(xs[i]).error)
    decreases |xs|
  {
    var init := xs[..|xs| - 1];
    if i == |xs| - 1 {
      assert init == xs[..i];
    } else {
      assert init[..i] == xs[..i];
      assert init[i] == xs[i];
      TraverseStops(init, f, i);
    }
  }

  /** The value of the last `Some` in `xs` ("last definition wins"). */
  function LastSome<T>(xs: seq<Option<T>>): Option<T>
  {
    if xs == [] then None
    else if xs[|xs| - 1].Some? then xs[|xs| - 1]
    else LastSome(xs[..|xs| - 1])
  }

  /** `LastSome` is `None` exactly when every element is, and otherwise the
      last element that is not. */
  lemma {:induction false} LastSomeMeaning<T>(xs: seq<Option<T>>)
    ensures LastSome(xs).None? <==> forall i :: 0 <= i < |xs| ==> xs[i].None?
    ensures forall k :: 0 <= k < |xs| && xs[k].Some? && (forall j :: k < j < |xs| ==> xs[j].None?) ==>
                        LastSome(xs) == xs[k]
  {
    if xs != [] && xs[|xs| - 1].None? {
      var init := xs[..|xs| - 1];
      LastSomeMeaning(init);
      forall i | 0 <= i < |init|
        ensures init[i] == xs[i]
      {
      }
    }
  }

  /*************************************************************************
   * Argument checks
   *************************************************************************/

  /** One argument of a string list: unnamed first, then a string. */
  function StringEntry(e: Entry, named: Error, notString: Error): Result<string, Error>
  {
    if e.name.Some? then Err(named)
    else if !e.value.Str? then Err(notString)
    else Ok(e.value.s)
  }

  /** A whole argument list that must consist of unnamed strings
      (`fuzzel-args`, `command`); the first bad argument decides the error. */
  function StringArgs(entries: seq<Entry>, named: Error, notString: Error): Result<seq<string>, Error>
  {
    if entries == [] then Ok([])
    else
      match StringArgs(entries[..|entries| - 1], named, notString)
      case Err(e) => Err(e)
      case Ok(vs) =>
        match StringEntry(entries[|entries| - 1], named, notString)
        case Err(e) => Err(e)
        case Ok(v) => Ok(vs + [v])
  }

  /** A string list is accepted exactly when every argument is an unnamed
      string, and is then those strings in order. */
  lemma {:induction false} StringArgsOk(entries: seq<Entry>, named: Error, notString: Error)
    ensures var r := StringArgs(entries, named, notString);
      && (r.Ok? <==> forall i :: 0 <= i < |entries| ==> IsPlainString(entries[i]))
      && (r.Ok? ==> |r.value| == |entries| &&
                    forall i :: 0 <= i < |entries| ==> r.value[i] == entries[i].value.s)
  {
    if entries != [] {
      var init := entries[..|entries| - 1];
      StringArgsOk(init, named, notString);
      if StringArgs(init, named, notString).Err? {
        var k :| 0 <= k < |init| && !IsPlainString(init[k]);
        assert entries[k] == init[k];
      } else {
        forall i | 0 <= i < |init|
          ensures entries[i] == init[i]
        {
        }
      }
    }
  }

  /** The first argument that is not an unnamed string decides the error:
      "named" when it has a name, "not a string" otherwise. */
  lemma {:induction false} StringArgsStops(entries: seq<Entry>, named: Error, notString: Error, i: nat)
    requires i < |entries| && !IsPlainString(entries[i])
    requires forall j :: 0 <= j < i ==> IsPlainString(entries[j])
    ensures StringArgs(entries, named, notString) == Err(if entries[i].name.Some? then named else notString)
    decreases |entries|
  {
    var init := entries[..|entries| - 1];
    if i == |entries| - 1 {
      StringArgsOk(init, named, notString);
      assert forall j :: 0 <= j < |init| ==> init[j] == entries[j];
    } else {
      assert forall j :: 0 <= j <= i ==> init[j] == entries[j];
      StringArgsStops(init, named, notString, i);
    }
  }

  /** The entry loop of `fuzzel-args` and `command`: pushes each argument,
      returning early on the first named or non-string one. */
  method CollectStrings(entries: seq<Entry>, named: Error, notString: Error)
    returns (r: Result<seq<string>, Error>)
    ensures r == StringArgs(entries, named, notString)
  {
    var strings: seq<string> := [];
    for i := 0 to |entries|
      invariant |strings| == i
      invariant forall j :: 0 <= j < i ==> IsPlainString(entries[j]) && strings[j] == entries[j].value.s
    {
      var entry := entries[i];
      if entry.name.Some? {
        StringArgsStops(entries, named, notString, i);
        return Err(named);
      }
      if !entry.value.Str? {
        StringArgsStops(entries, named, notString, i);
        return Err(notString);
      }
      strings := strings + [entry.value.s];
    }
    StringArgsOk(entries, named, notString);
    assert StringArgs(entries, named, notString).value == strings;
    return Ok(strings);
  }

  /** Exactly one argument, unnamed, a string — checked in that order. */
  function SingleString(entries: seq<Entry>, count: Error, named: Error, notString: Error)
    : (r: Result<string, Error>)
    ensures r.Ok? <==> |entries| == 1 && IsPlainString(entries[0])
    ensures r.Ok? ==> r.value == entries[0].value.s
    ensures r.Err? ==> r.error == (if |entries| != 1 then count
                                   else if entries[0].name.Some? then named else notString)
  {
    if |entries| != 1 then Err(count) else StringEntry(entries[0], named, notString)
  }

  /*************************************************************************
   * fuzzel-config children
   *************************************************************************/

  /** One `key "value"` child of a `fuzzel-config` block. Its own children,
      if any, are never looked at. */
  function ConfigPair(kv: Node): Result<(string, string), Error>
  {
    match SingleString(kv.entries, ConfigKeyArgCount, ConfigKeyNamed, ConfigKeyNotString)
    case Err(e) => Err(e)
    case Ok(v) => Ok((kv.name, v))
  }

  /** All key/value children of a `fuzzel-config` block, in declaration order. */
  function ConfigPairs(kvs: seq<Node>): Result<seq<(string, string)>, Error>
  {
    Traverse(kvs, ConfigPair)
  }

  /** A `fuzzel-config` block is accepted exactly when every key has one
      unnamed string value, and then yields every key with its value, in
      declaration order. */
  lemma ConfigPairsMeaning(kvs: seq<Node>)
    ensures var r := ConfigPairs(kvs);
      && (r.Ok? <==> forall i :: 0 <= i < |kvs| ==> |kvs[i].entries| == 1 && IsPlainString(kvs[i].entries[0]))
      && (r.Ok? ==> |r.value| == |kvs| &&
                    forall i :: 0 <= i < |kvs| ==> r.value[i] == (kvs[i].name, kvs[i].entries[0].value.s))
  {
    TraverseOk(kvs, ConfigPair);
  }

  /*************************************************************************
   * An item's icon (the first loop of parse_item_from_nodes)
   *************************************************************************/

  /** What one child of an item contributes to its icon: nothing unless it
      is named `icon`, in which case it must be a lone unnamed string. */
  function IconNode(n: Node): Result<Option<string>, Error>
  {
    if n.name != "icon" then Ok(None)
    else if n.children.Block? then Err(IconHasChildren)
    else
      match SingleString(n.entries, IconArgCount, IconNamed, IconNotString)
      case Err(e) => Err(e)
      case Ok(s) => Ok(Some(s))
  }

  predicate IsValidIconNode(n: Node)
  {
    n.name == "icon" ==> n.children.NoChildren? && |n.entries| == 1 && IsPlainString(n.entries[0])
  }

  /** The icon of an item: the string of its last `icon` child, `None` if
      it has none; every `icon` child must be well formed. */
  function IconSpec(nodes: seq<Node>): Result<Option<string>, Error>
  {
    match Traverse(nodes, IconNode)
    case Err(e) => Err(e)
    case Ok(vs) => Ok(LastSome(vs))
  }

  /** An item's `icon` children are accepted exactly when each is well
      formed; the icon is then absent exactly when there is no `icon` child,
      and otherwise the string of the last one. */
  lemma IconSpecMeaning(nodes: seq<Node>)
    ensures IconSpec(nodes).Ok? <==> forall i :: 0 <= i < |nodes| ==> IsValidIconNode(nodes[i])
    ensures IconSpec(nodes).Ok? ==> (IconSpec(nodes).value.None? <==> NoneNamed(nodes, "icon"))
    ensures forall k :: IconSpec(nodes).Ok? && IsLastNamed(nodes, k, "icon") ==>
                        IconSpec(nodes).value == Some(nodes[k].entries[0].value.s)
  {
    TraverseOk(nodes, IconNode);
    forall i | 0 <= i < |nodes|
      ensures IconNode(nodes[i]).Ok? <==> IsValidIconNode(nodes[i])
    {
    }
    if IconSpec(nodes).Ok? {
      var vs := Traverse(nodes, IconNode).value;
      LastSomeMeaning(vs);
      forall i | 0 <= i < |nodes|
        ensures vs[i].Some? <==> nodes[i].name == "icon"
      {
      }
      forall k | IsLastNamed(nodes, k, "icon")
        ensures IconSpec(nodes).value == Some(nodes[k].entries[0].value.s)
      {
        assert vs[k] == IconNode(nodes[k]).value;
      }
    }
  }

  /** The loop over an item's children that picks up `icon` nodes. */
  method ScanIcon(nodes: seq<Node>) returns (r: Result<Option<string>, Error>)
    ensures r == IconSpec(nodes)
  {
    var icon: Option<string> := None;
    for i := 0 to |nodes|
      invariant Traverse(nodes[..i], IconNode).Ok?
      invariant icon == LastSome(Traverse(nodes[..i], IconNode).value)
    {
      var node := nodes[i];
      if node.name == "icon" {
        if node.children.Block? {
          TraverseStops(nodes, IconNode, i);
          return Err(IconHasChildren);
        }
        if |node.entries| != 1 {
          TraverseStops(nodes, IconNode, i);
          return Err(IconArgCount);
        }
        if node.entries[0].name.Some? {
          TraverseStops(nodes, IconNode, i);
          return Err(IconNamed);
        }
        if !node.entries[0].value.Str? {
          TraverseStops(nodes, IconNode, i);
          return Err(IconNotString);
        }
        icon := Some(node.entries[0].value.s);
      }
      TraverseStep(nodes, IconNode, i);
    }
    assert nodes[..|nodes|] == nodes;
    return Ok(icon);
  }

  /*************************************************************************
   * A program's children (parse_program_from_nodes)
   *************************************************************************/

  /** What one child of a program contributes: a `command` gives its
      argument list, an `icon` (already checked) nothing, anything else fails. */
  function ProgramNode(n: Node): Result<Option<seq<string>>, Error>
  {
    if n.name == "command" then
      if n.children.Block? then Err(CommandHasChildren)
      else
        match StringArgs(n.entries, CommandNamed, CommandNotString)
        case Err(e) => Err(e)
        case Ok(args) => Ok(Some(args))
    else if n.name == "icon" then Ok(None)
    else Err(UnexpectedInProgram(n.name))
  }

  predicate IsValidProgramNode(n: Node)
  {
    || (n.name == "command" && n.children.NoChildren? &&
        forall i :: 0 <= i < |n.entries| ==> IsPlainString(n.entries[i]))
    || n.name == "icon"
  }

  /** A program: the arguments of its last `command` child, or the empty
      command when there is none. */
  function ProgramSpec(nodes: seq<Node>): Result<Program, Error>
  {
    match Traverse(nodes, ProgramNode)
    case Err(e) => Err(e)
    case Ok(vs) => Ok(Program(LastSome(vs).GetOr([])))
  }

  /** A program's children are accepted exactly when each is a well formed
      `command` or an `icon`; the command is then empty when there is no
      `command` child, and otherwise the arguments of the last one. */
  lemma ProgramSpecMeaning(nodes: seq<Node>)
    ensures ProgramSpec(nodes).Ok? <==> forall i :: 0 <= i < |nodes| ==> IsValidProgramNode(nodes[i])
    ensures ProgramSpec(nodes).Ok? && NoneNamed(nodes, "command") ==> ProgramSpec(nodes).value.command == []
    ensures forall k :: ProgramSpec(nodes).Ok? && IsLastNamed(nodes, k, "command") ==>
                        StringArgs(nodes[k].entries, CommandNamed, CommandNotString) ==
                        Ok(ProgramSpec(nodes).value.command)
  {
    TraverseOk(nodes, ProgramNode);
    forall i | 0 <= i < |nodes|
      ensures ProgramNode(nodes[i]).Ok? <==> IsValidProgramNode(nodes[i])
    {
      StringArgsOk(nodes[i].entries, CommandNamed, CommandNotString);
    }
    if ProgramSpec(nodes).Ok? {
      var vs := Traverse(nodes, ProgramNode).value;
      LastSomeMeaning(vs);
      forall i | 0 <= i < |nodes|
        ensures vs[i].Some? <==> nodes[i].name == "command"
      {
      }
      forall k | IsLastNamed(nodes, k, "command")
        ensures StringArgs(nodes[k].entries, CommandNamed, CommandNotString) ==
                Ok(ProgramSpec(nodes).value.command)
      {
        assert vs[k] == ProgramNode(nodes[k]).value;
      }
    }
  }

  /** The loop over a program's children; a later `command` replaces an
      earlier one. */
  method ParseProgramFromNodes(nodes: seq<Node>) returns (r: Result<Program, Error>)
    ensures r == ProgramSpec(nodes)
  {
    var command: seq<string> := [];
    for i := 0 to |nodes|
      invariant Traverse(nodes[..i], ProgramNode).Ok?
      invariant command == LastSome(Traverse(nodes[..i], ProgramNode).value).GetOr([])
    {
      var node := nodes[i];
      if node.name == "command" {
        command := [];
        if node.children.Block? {
          TraverseStops(nodes, ProgramNode, i);
          return Err(CommandHasChildren);
        }
        var args := CollectStrings(node.entries, CommandNamed, CommandNotString);
        if args.Err? {
          TraverseStops(nodes, ProgramNode, i);
          return Err(args.error);
        }
        command := args.value;
      } else if node.name == "icon" {
        // already handled by the item's icon scan
      } else {
        TraverseStops(nodes, ProgramNode, i);
        return Err(UnexpectedInProgram(node.name));
      }
      TraverseStep(nodes, ProgramNode, i);
    }
    assert nodes[..|nodes|] == nodes;
    return Ok(Program(command));
  }

  /*************************************************************************
   * icon-dir paths
   *************************************************************************/

  /** `str::replace('~', home)`: every `~` becomes the home directory. */
  function ExpandTilde(s: string, home: string): (r: string)
    ensures '~' !in s ==> r == s
    ensures '~' !in home ==> '~' !in r
    ensures |s| > 0 && s[0] != '~' ==> |r| > 0 && r[0] == s[0]
    ensures |s| > 0 && s[0] == '~' ==> home <= r
  {
    if s == [] then []
    else ExpandTilde(s[..|s| - 1], home) + (if s[|s| - 1] == '~' then home else [s[|s| - 1]])
  }

  /** `Path::is_absolute` on Unix: the path starts at the root. */
  predicate IsAbsolute(p: Path)
  {
    |p| > 0 && p[0] == '/'
  }
}
