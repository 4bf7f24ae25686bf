/**
 * What a successful parse by src/parser.rs says about the node list it was
 * given: the last `fuzzel-args` and the last `fuzzel-config` win, `sort` is
 * off exactly when a `no-sort` node is present, every `icon-dir` node adds
 * one absolute path, every `menu` / `program` node adds one item in
 * declaration order, `icon` nodes in a menu body change nothing, and an
 * unknown node name fails the whole parse.
 */
module ParserProps {
  import opened Wrappers
  import opened Kdl
  import opened Common
  import opened Parser

  /** One more node of a menu body: an earlier error stands, otherwise the
      node's own error, otherwise its directive applied to the menu. */
  function Step(r: Result<Menu, Error>, n: Node, home: string): Result<Menu, Error>
  {
    match r
    case Err(e) => Err(e)
    case Ok(m) =>
      match NodeDirective(n, home)
      case Err(e) => Err(e)
      case Ok(d) => Ok(Apply(m, d))
  }

  /** Parsing a menu body is a left-to-right fold of `Step` over its nodes. */
  lemma ParseMenuSnoc(nodes: seq<Node>, n: Node, home: string)
    ensures ParseMenuSpec(nodes + [n], home) == Step(ParseMenuSpec(nodes, home), n, home)
  {
    assert (nodes + [n])[..|nodes|] == nodes;
    if Directives(nodes, home).Ok? && NodeDirective(n, home).Ok? {
      AssembleStep(Directives(nodes, home).value, NodeDirective(n, home).value);
    }
  }

  /** An accepted body's prefix is accepted, and its last node's directive
      turns the prefix's menu into the whole body's. */
  lemma ParseMenuLast(nodes: seq<Node>, home: string)
    requires nodes != [] && ParseMenuSpec(nodes, home).Ok?
    ensures ParseMenuSpec(nodes[..|nodes| - 1], home).Ok?
    ensures NodeDirective(nodes[|nodes| - 1], home).Ok?
    ensures ParseMenuSpec(nodes, home).value ==
            Apply(ParseMenuSpec(nodes[..|nodes| - 1], home).value, NodeDirective(nodes[|nodes| - 1], home).value)
  {
    assert nodes == nodes[..|nodes| - 1] + [nodes[|nodes| - 1]];
    ParseMenuSnoc(nodes[..|nodes| - 1], nodes[|nodes| - 1], home);
  }

  /** What an accepted node contributes, by its name. */
  lemma DirectiveOf(n: Node, home: string)
    requires NodeDirective(n, home).Ok?
    ensures var d := NodeDirective(n, home).value;
      && (d.SetArgs? <==> n.name == "fuzzel-args")
      && (d.SetArgs? ==> n.children.NoChildren? && StringArgs(n.entries, ArgsNamed, ArgsNotString) == Ok(d.args))
      && (d.SetConfig? <==> n.name == "fuzzel-config")
      && (d.SetConfig? ==> n.entries == [] && n.children.Block? && ConfigPairs(n.children.nodes) == Ok(d.pairs))
      && (d.AddIconDir? <==> n.name == "icon-dir")
      && (d.AddIconDir? ==> IconDirFrom(n, home, d.dir))
      && (d.AddItem? <==> n.name in {"menu", "program"})
      && (d.AddItem? ==> ItemFrom(n, home, d.item))
      && (d.DisableSort? <==> n.name == "no-sort")
      && (d.DisableSort? ==> n.children.NoChildren? && n.entries == [])
      && (d.Skip? <==> n.name == "icon")
  {
  }

  /** The parts of `DirectiveOf` each inductive lemma below needs, one
      directive kind at a time. */
  lemma ArgsDirective(n: Node, home: string)
    requires NodeDirective(n, home).Ok?
    ensures var d := NodeDirective(n, home).value;
      && (d.SetArgs? <==> n.name == "fuzzel-args")
      && (d.SetArgs? ==> StringArgs(n.entries, ArgsNamed, ArgsNotString) == Ok(d.args))
  {
    DirectiveOf(n, home);
  }

  lemma ConfigDirective(n: Node, home: string)
    requires NodeDirective(n, home).Ok?
    ensures var d := NodeDirective(n, home).value;
      && (d.SetConfig? <==> n.name == "fuzzel-config")
      && (d.SetConfig? ==> n.entries == [] && n.children.Block? && ConfigPairs(n.children.nodes) == Ok(d.pairs))
  {
    DirectiveOf(n, home);
  }

  lemma IconDirDirectiveOf(n: Node, home: string)
    requires NodeDirective(n, home).Ok?
    ensures var d := NodeDirective(n, home).value;
      && (d.AddIconDir? <==> n.name == "icon-dir")
      && (d.AddIconDir? ==> IconDirFrom(n, home, d.dir))
  {
    DirectiveOf(n, home);
  }

  lemma ItemDirective(n: Node, home: string)
    requires NodeDirective(n, home).Ok?
    ensures var d := NodeDirective(n, home).value;
      && (d.AddItem? <==> n.name in {"menu", "program"})
      && (d.AddItem? ==> ItemFrom(n, home, d.item))
  {
    DirectiveOf(n, home);
  }

  lemma SortDirective(n: Node, home: string)
    requires NodeDirective(n, home).Ok?
    ensures NodeDirective(n, home).value.DisableSort? <==> n.name == "no-sort"
  {
    DirectiveOf(n, home);
  }

  /** The rules a menu body enforces on each node, stated directly by its
      name: `fuzzel-args` takes unnamed strings and no children;
      `fuzzel-config` takes no arguments and a block whose keys each have
      one unnamed string; `icon-dir` takes one unnamed string that is
      absolute once `~` is expanded, and no children; `menu` and `program`
      take one unnamed string and a block their own item parse accepts; `no-sort` takes
      neither arguments nor children;
      `icon` is accepted as it is; any other name is rejected. */
  predicate IsValidMenuNode(n: Node, home: string)
  {
    if n.name == "fuzzel-args" then
      n.children.NoChildren? && forall i :: 0 <= i < |n.entries| ==> IsPlainString(n.entries[i])
    else if n.name == "fuzzel-config" then
      n.entries == [] && n.children.Block? &&
      forall i :: 0 <= i < |n.children.nodes| ==>
        |n.children.nodes[i].entries| == 1 && IsPlainString(n.children.nodes[i].entries[0])
    else if n.name == "icon-dir" then
      n.children.NoChildren? && |n.entries| == 1 && IsPlainString(n.entries[0]) &&
      IsAbsolute(ExpandTilde(n.entries[0].value.s, home))
    else if n.name == "menu" || n.name == "program" then
      |n.entries| == 1 && IsPlainString(n.entries[0]) && n.children.Block? &&
      ParseItemSpec(KindOf(n.name), n.entries[0].value.s, n.children.nodes, home).Ok?
    else if n.name == "no-sort" then
      n.children.NoChildren? && n.entries == []
    else
      n.name == "icon"
  }

  /** A node is accepted exactly when it follows the rules. */
  lemma ValidMenuNode(n: Node, home: string)
    ensures NodeDirective(n, home).Ok? <==> IsValidMenuNode(n, home)
  {
    StringArgsOk(n.entries, ArgsNamed, ArgsNotString);
    if n.children.Block? {
      ConfigPairsMeaning(n.children.nodes);
    }
  }

  /** A menu body is accepted exactly when every node follows the rules. */
  lemma BodyValid(nodes: seq<Node>, home: string)
    ensures ParseMenuSpec(nodes, home).Ok? <==> forall k :: 0 <= k < |nodes| ==> IsValidMenuNode(nodes[k], home)
  {
    DirectivesOk(nodes, home);
    forall k | 0 <= k < |nodes|
      ensures NodeDirective(nodes[k], home).Ok? <==> IsValidMenuNode(nodes[k], home)
    {
      ValidMenuNode(nodes[k], home);
    }
  }

  /** `sort` is true exactly when the body has no `no-sort` node. */
  lemma {:induction false} SortFlag(nodes: seq<Node>, home: string)
    requires ParseMenuSpec(nodes, home).Ok?
    ensures ParseMenuSpec(nodes, home).value.sort <==> NoneNamed(nodes, "no-sort")
  {
    if nodes != [] {
      var init := nodes[..|nodes| - 1];
      ParseMenuLast(nodes, home);
      SortDirective(nodes[|nodes| - 1], home);
      SortFlag(init, home);
      assert forall i :: 0 <= i < |init| ==> init[i] == nodes[i];
    }
  }

  lemma {:induction false} ArgsOfLast(nodes: seq<Node>, home: string)
    requires ParseMenuSpec(nodes, home).Ok?
    ensures match LastNamed(nodes, "fuzzel-args")
            case None => ParseMenuSpec(nodes, home).value.fuzzelArgs == []
            case Some(k) =>
              k < |nodes| &&
              StringArgs(nodes[k].entries, ArgsNamed, ArgsNotString) == Ok(ParseMenuSpec(nodes, home).value.fuzzelArgs)
  {
    if nodes != [] {
      var init := nodes[..|nodes| - 1];
      var last := nodes[|nodes| - 1];
      ParseMenuLast(nodes, home);
      ArgsDirective(last, home);
      ArgsOfLast(init, home);
      if last.name != "fuzzel-args" {
        assert LastNamed(nodes, "fuzzel-args") == LastNamed(init, "fuzzel-args");
        assert ParseMenuSpec(nodes, home).value.fuzzelArgs == ParseMenuSpec(init, home).value.fuzzelArgs;
        if LastNamed(init, "fuzzel-args").Some? {
          assert nodes[LastNamed(init, "fuzzel-args").value] == init[LastNamed(init, "fuzzel-args").value];
        }
      }
    }
  }

  /** A later `fuzzel-args` node replaces earlier ones: the arguments are
      those of the last one, all unnamed strings, and empty when there is
      none; and no `fuzzel-args` node of an accepted body has children. */
  lemma FuzzelArgsLastWins(nodes: seq<Node>, home: string)
    requires ParseMenuSpec(nodes, home).Ok?
    ensures NoneNamed(nodes, "fuzzel-args") ==> ParseMenuSpec(nodes, home).value.fuzzelArgs == []
    ensures forall k :: IsLastNamed(nodes, k, "fuzzel-args") ==>
              StringArgs(nodes[k].entries, ArgsNamed, ArgsNotString) == Ok(ParseMenuSpec(nodes, home).value.fuzzelArgs)
    ensures forall k :: 0 <= k < |nodes| && nodes[k].name == "fuzzel-args" ==> nodes[k].children.NoChildren?
  {
    BodyValid(nodes, home);
    ArgsOfLast(nodes, home);
    LastNamedMeaning(nodes, "fuzzel-args");
  }

  lemma {:induction false} ConfigOfLast(nodes: seq<Node>, home: string)
    requires ParseMenuSpec(nodes, home).Ok?
    ensures match LastNamed(nodes, "fuzzel-config")
            case None => ParseMenuSpec(nodes, home).value.fuzzelConfig == []
            case Some(k) =>
              k < |nodes| && nodes[k].entries == [] && nodes[k].children.Block? &&
              ConfigPairs(nodes[k].children.nodes) == Ok(ParseMenuSpec(nodes, home).value.fuzzelConfig)
  {
    if nodes != [] {
      var init := nodes[..|nodes| - 1];
      ParseMenuLast(nodes, home);
      ConfigDirective(nodes[|nodes| - 1], home);
      ConfigOfLast(init, home);
    }
  }

  /** A later `fuzzel-config` block replaces earlier ones: the pairs are
      those of the last block, which has no arguments, in declaration
      order; with no block there are none. */
  lemma FuzzelConfigLastWins(nodes: seq<Node>, home: string)
    requires ParseMenuSpec(nodes, home).Ok?
    ensures NoneNamed(nodes, "fuzzel-config") ==> ParseMenuSpec(nodes, home).value.fuzzelConfig == []
    ensures forall k :: IsLastNamed(nodes, k, "fuzzel-config") ==>
              nodes[k].entries == [] && nodes[k].children.Block? &&
              ConfigPairs(nodes[k].children.nodes) == Ok(ParseMenuSpec(nodes, home).value.fuzzelConfig)
  {
    ConfigOfLast(nodes, home);
    LastNamedMeaning(nodes, "fuzzel-config");
  }

  /** An `icon-dir` node and the path it stands for. */
  predicate IconDirFrom(n: Node, home: string, path: Path)
  {
    n.children.NoChildren? && |n.entries| == 1 && IsPlainString(n.entries[0]) &&
    path == ExpandTilde(n.entries[0].value.s, home) && IsAbsolute(path)
  }

  /** Each `icon-dir` node adds one path, in order: its string with every
      `~` replaced by the home directory, and absolute. */
  lemma {:induction false} IconDirsInOrder(nodes: seq<Node>, home: string)
    requires ParseMenuSpec(nodes, home).Ok?
    ensures var dirs := ParseMenuSpec(nodes, home).value.iconDirs;
      && |dirs| == |Select(nodes, {"icon-dir"})|
      && forall j :: 0 <= j < |dirs| ==> IconDirFrom(Select(nodes, {"icon-dir"})[j], home, dirs[j])
  {
    if nodes != [] {
      var init := nodes[..|nodes| - 1];
      ParseMenuLast(nodes, home);
      IconDirDirectiveOf(nodes[|nodes| - 1], home);
      IconDirsInOrder(init, home);
    }
  }

  /** A `menu` or `program` node and the item it stands for. */
  predicate ItemFrom(n: Node, home: string, item: Item)
  {
    |n.entries| == 1 && IsPlainString(n.entries[0]) && item.name == n.entries[0].value.s &&
    n.children.Block? &&
    (item.contents.SubMenu? <==> n.name == "menu") &&
    ParseItemSpec(KindOf(n.name), item.name, n.children.nodes, home) == Ok(item)
  }

  /** Each `menu` / `program` node adds one item, in declaration order,
      named by its single unnamed string argument, of the node's kind, and
      parsed from the node's children. */
  lemma {:induction false} ItemsInOrder(nodes: seq<Node>, home: string)
    requires ParseMenuSpec(nodes, home).Ok?
    ensures var items := ParseMenuSpec(nodes, home).value.items;
      && |items| == |Select(nodes, {"menu", "program"})|
      && forall j :: 0 <= j < |items| ==> ItemFrom(Select(nodes, {"menu", "program"})[j], home, items[j])
  {
    if nodes != [] {
      var init := nodes[..|nodes| - 1];
      ParseMenuLast(nodes, home);
      ItemDirective(nodes[|nodes| - 1], home);
      ItemsInOrder(init, home);
    }
  }

  /** The node names a menu body may hold. */
  const MenuNodeNames: set<string> :=
    {"fuzzel-args", "fuzzel-config", "icon-dir", "menu", "program", "no-sort", "icon"}

  lemma KnownName(n: Node, home: string)
    requires NodeDirective(n, home).Ok?
    ensures n.name in MenuNodeNames
  {
  }

  /** An accepted body holds only known node names. */
  lemma KnownNamesOnly(nodes: seq<Node>, home: string)
    requires ParseMenuSpec(nodes, home).Ok?
    ensures forall i :: 0 <= i < |nodes| ==> nodes[i].name in MenuNodeNames
  {
    DirectivesOk(nodes, home);
    forall i | 0 <= i < |nodes|
      ensures nodes[i].name in MenuNodeNames
    {
      KnownName(nodes[i], home);
    }
  }

  /** A node with an unknown name raises the unexpected-node error. */
  lemma UnknownNode(n: Node, home: string)
    requires n.name !in MenuNodeNames
    ensures NodeDirective(n, home) == Err(UnexpectedInMenu(n.name))
  {
  }

  /** The first node with an unknown name, after accepted ones, fails the
      whole parse with that name; no partial menu is returned. */
  lemma UnknownNameFails(nodes: seq<Node>, i: nat, home: string)
    requires i < |nodes| && ParseMenuSpec(nodes[..i], home).Ok?
    requires nodes[i].name !in MenuNodeNames
    ensures ParseMenuSpec(nodes, home) == Err(UnexpectedInMenu(nodes[i].name))
  {
    UnknownNode(nodes[i], home);
    DirectivesStop(nodes, i, home);
  }

  /** Any error inside a nested item aborts the whole parse. */
  lemma NestedErrorAborts(nodes: seq<Node>, i: nat, home: string)
    requires i < |nodes| && ParseMenuSpec(nodes[..i], home).Ok?
    requires nodes[i].name == "menu" || nodes[i].name == "program"
    requires |nodes[i].entries| == 1 && IsPlainString(nodes[i].entries[0]) && nodes[i].children.Block?
    requires ParseItemSpec(KindOf(nodes[i].name), nodes[i].entries[0].value.s, nodes[i].children.nodes, home).Err?
    ensures ParseMenuSpec(nodes, home) ==
            Err(ParseItemSpec(KindOf(nodes[i].name), nodes[i].entries[0].value.s, nodes[i].children.nodes, home).error)
  {
    ItemNodeError(nodes[i], home);
    DirectivesStop(nodes, i, home);
  }

  lemma ItemNodeError(n: Node, home: string)
    requires n.name == "menu" || n.name == "program"
    requires |n.entries| == 1 && IsPlainString(n.entries[0]) && n.children.Block?
    requires ParseItemSpec(KindOf(n.name), n.entries[0].value.s, n.children.nodes, home).Err?
    ensures NodeDirective(n, home) == Err(ParseItemSpec(KindOf(n.name), n.entries[0].value.s, n.children.nodes, home).error)
  {
  }

  /** An `icon` node in a menu body has no effect on the menu: removing it
      changes neither the outcome nor the error. */
  lemma {:induction false} MenuIconIgnored(pre: seq<Node>, n: Node, post: seq<Node>, home: string)
    requires n.name == "icon"
    ensures ParseMenuSpec(pre + [n] + post, home) == ParseMenuSpec(pre + post, home)
    decreases |post|
  {
    if post == [] {
      assert pre + [n] + post == pre + [n];
      assert pre + post == pre;
      ParseMenuSnoc(pre, n, home);
    } else {
      var init := post[..|post| - 1];
      var last := post[|post| - 1];
      MenuIconIgnored(pre, n, init, home);
      assert pre + [n] + post == (pre + [n] + init) + [last];
      assert pre + post == (pre + init) + [last];
      ParseMenuSnoc(pre + [n] + init, last, home);
      ParseMenuSnoc(pre + init, last, home);
    }
  }

  /** A `no-sort` node is accepted exactly when it has neither arguments
      nor children, and children are checked first. */
  lemma NoSortShape(n: Node, home: string)
    requires n.name == "no-sort"
    ensures NodeDirective(n, home) ==
            if n.children.Block? then Err(NoSortHasChildren)
            else if n.entries != [] then Err(NoSortHasArguments)
            else Ok(DisableSort)
  {
  }
}
