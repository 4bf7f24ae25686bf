/**
 * What a successful parse by the parser inside src/config.rs says about
 * the node list it was given. The same rules as src/parser.rs apply, except
 * that `fuzzel-config` is a map in which a repeated key keeps its last
 * value, that `no-sort` is an unknown node here, and that every `icon-dir`
 * needs the home directory to exist and be valid UTF-8.
 */
module ConfigParseProps {
  import opened Wrappers
  import opened Kdl
  import opened Common
  import opened ConfigParse

  /** The keys of the map are the keys of the pairs. */
  lemma {:induction false} ToMapKeys(pairs: seq<(string, string)>)
    ensures forall key :: key in ToMap(pairs) <==> exists i :: 0 <= i < |pairs| && pairs[i].0 == key
  {
    if pairs != [] {
      var init := pairs[..|pairs| - 1];
      ToMapKeys(init);
      forall key | key in ToMap(pairs)
        ensures exists i :: 0 <= i < |pairs| && pairs[i].0 == key
      {
        if key != pairs[|pairs| - 1].0 {
          assert ToMap(pairs) == ToMap(init)[pairs[|pairs| - 1].0 := pairs[|pairs| - 1].1];
          assert key in ToMap(init);
          var i :| 0 <= i < |init| && init[i].0 == key;
          assert pairs[i] == init[i];
        }
      }
      forall key | exists i :: 0 <= i < |pairs| && pairs[i].0 == key
        ensures key in ToMap(pairs)
      {
        var i :| 0 <= i < |pairs| && pairs[i].0 == key;
        if i < |init| {
          assert init[i] == pairs[i];
        }
      }
    }
  }

  /** A pair whose key does not occur again later gives that key's value:
      a repeated key keeps the value of its last occurrence. */
  lemma {:induction false} ToMapLastWins(pairs: seq<(string, string)>, i: nat)
    requires i < |pairs|
    requires forall j :: i < j < |pairs| ==> pairs[j].0 != pairs[i].0
    ensures pairs[i].0 in ToMap(pairs) && ToMap(pairs)[pairs[i].0] == pairs[i].1
  {
    var init := pairs[..|pairs| - 1];
    if i < |init| {
      assert pairs[|pairs| - 1].0 != pairs[i].0;
      assert init[i] == pairs[i];
      forall j | i < j < |init|
        ensures init[j].0 != init[i].0
      {
        assert init[j] == pairs[j];
      }
      ToMapLastWins(init, i);
    }
  }

  /** A `fuzzel-config` block is accepted exactly when every key has one
      unnamed string value; the map then holds exactly the block's keys,
      and a key written several times holds the value of its last line. */
  lemma ConfigMapMeaning(kvs: seq<Node>)
    ensures ConfigMap(kvs).Ok? <==>
            forall i :: 0 <= i < |kvs| ==> |kvs[i].entries| == 1 && IsPlainString(kvs[i].entries[0])
    ensures ConfigMap(kvs).Ok? ==>
              forall key :: key in ConfigMap(kvs).value <==> exists i :: 0 <= i < |kvs| && kvs[i].name == key
  {
    ConfigPairsMeaning(kvs);
    if ConfigMap(kvs).Ok? {
      var ps := ConfigPairs(kvs).value;
      ToMapKeys(ps);
      forall key | key in ToMap(ps)
        ensures exists i :: 0 <= i < |kvs| && kvs[i].name == key
      {
        var i :| 0 <= i < |ps| && ps[i].0 == key;
        assert kvs[i].name == key;
      }
      forall key | exists i :: 0 <= i < |kvs| && kvs[i].name == key
        ensures key in ToMap(ps)
      {
        var i :| 0 <= i < |kvs| && kvs[i].name == key;
        assert ps[i].0 == key;
      }
    }
  }

  /** In an accepted `fuzzel-config` block, a key line not followed by
      another line with the same key decides that key's value. */
  lemma ConfigMapLastWins(kvs: seq<Node>, i: nat)
    requires ConfigMap(kvs).Ok? && i < |kvs|
    requires forall j :: i < j < |kvs| ==> kvs[j].name != kvs[i].name
    ensures |kvs[i].entries| == 1 && IsPlainString(kvs[i].entries[0])
    ensures kvs[i].name in ConfigMap(kvs).value && ConfigMap(kvs).value[kvs[i].name] == kvs[i].entries[0].value.s
  {
    ConfigPairsMeaning(kvs);
    var ps := ConfigPairs(kvs).value;
    forall j | i < j < |ps|
      ensures ps[j].0 != ps[i].0
    {
      assert ps[j].0 == kvs[j].name;
    }
    ToMapLastWins(ps, i);
  }

  /** One more node of a menu body: an earlier error stands, otherwise the
      node's own error, otherwise its directive applied to the menu. */
  function Step(r: Result<Menu, Error>, n: Node, home: HomeDir): Result<Menu, Error>
  {
    match r
    case Err(e) => Err(e)
    case Ok(m) =>
      match NodeDirective(n, home)
      case Err(e) => Err(e)
      case Ok(d) => Ok(Apply(m, d))
  }

  /** Parsing a menu body is a left-to-right fold of `Step` over its nodes. */
  lemma ParseMenuSnoc(nodes: seq<Node>, n: Node, home: HomeDir)
    ensures ParseMenuSpec(nodes + [n], home) == Step(ParseMenuSpec(nodes, home), n, home)
  {
    assert (nodes + [n])[..|nodes|] == nodes;
    if Directives(nodes, home).Ok? && NodeDirective(n, home).Ok? {
      AssembleStep(Directives(nodes, home).value, NodeDirective(n, home).value);
    }
  }

  /** An accepted body's prefix is accepted, and its last node's directive
      turns the prefix's menu into the whole body's. */
  lemma ParseMenuLast(nodes: seq<Node>, home: HomeDir)
    requires nodes != [] && ParseMenuSpec(nodes, home).Ok?
    ensures ParseMenuSpec(nodes[..|nodes| - 1], home).Ok?
    ensures NodeDirective(nodes[|nodes| - 1], home).Ok?
    ensures ParseMenuSpec(nodes, home).value ==
            Apply(ParseMenuSpec(nodes[..|nodes| - 1], home).value, NodeDirective(nodes[|nodes| - 1], home).value)
  {
    assert nodes == nodes[..|nodes| - 1] + [nodes[|nodes| - 1]];
    ParseMenuSnoc(nodes[..|nodes| - 1], nodes[|nodes| - 1], home);
  }

  /** An `icon-dir` node and the path it stands for: the home directory was
      found and valid, and the path is absolute. */
  predicate IconDirFrom(n: Node, home: HomeDir, path: Path)
  {
    n.children.NoChildren? && |n.entries| == 1 && IsPlainString(n.entries[0]) &&
    home.Home? && path == ExpandTilde(n.entries[0].value.s, home.path) && IsAbsolute(path)
  }

  /** A `menu` or `program` node and the item it stands for. */
  predicate ItemFrom(n: Node, home: HomeDir, item: Item)
  {
    |n.entries| == 1 && IsPlainString(n.entries[0]) && item.name == n.entries[0].value.s &&
    n.children.Block? &&
    (item.contents.SubMenu? <==> n.name == "menu") &&
    ParseItemSpec(KindOf(n.name), item.name, n.children.nodes, home) == Ok(item)
  }

  /** What an accepted node contributes, by its name. */
  lemma DirectiveOf(n: Node, home: HomeDir)
    requires NodeDirective(n, home).Ok?
    ensures var d := NodeDirective(n, home).value;
      && (d.SetArgs? <==> n.name == "fuzzel-args")
      && (d.SetArgs? ==> n.children.NoChildren? && StringArgs(n.entries, ArgsNamed, ArgsNotString) == Ok(d.args))
      && (d.SetConfig? <==> n.name == "fuzzel-config")
      && (d.SetConfig? ==> n.entries == [] && n.children.Block? && ConfigMap(n.children.nodes) == Ok(d.config))
      && (d.AddIconDir? <==> n.name == "icon-dir")
      && (d.AddIconDir? ==> IconDirFrom(n, home, d.dir))
      && (d.AddItem? <==> n.name in {"menu", "program"})
      && (d.AddItem? ==> ItemFrom(n, home, d.item))
      && (d.Skip? <==> n.name == "icon")
  {
  }

  /** The parts of `DirectiveOf` each inductive lemma below needs, one
      directive kind at a time. */
  lemma ArgsDirective(n: Node, home: HomeDir)
    requires NodeDirective(n, home).Ok?
    ensures var d := NodeDirective(n, home).value;
      && (d.SetArgs? <==> n.name == "fuzzel-args")
      && (d.SetArgs? ==> StringArgs(n.entries, ArgsNamed, ArgsNotString) == Ok(d.args))
  {
    DirectiveOf(n, home);
  }

  lemma ConfigDirective(n: Node, home: HomeDir)
    requires NodeDirective(n, home).Ok?
    ensures var d := NodeDirective(n, home).value;
      && (d.SetConfig? <==> n.name == "fuzzel-config")
      && (d.SetConfig? ==> n.entries == [] && n.children.Block? && ConfigMap(n.children.nodes) == Ok(d.config))
  {
    DirectiveOf(n, home);
  }

  lemma IconDirDirectiveOf(n: Node, home: HomeDir)
    requires NodeDirective(n, home).Ok?
    ensures var d := NodeDirective(n, home).value;
      && (d.AddIconDir? <==> n.name == "icon-dir")
      && (d.AddIconDir? ==> IconDirFrom(n, home, d.dir))
  {
    DirectiveOf(n, home);
  }

  lemma ItemDirective(n: Node, home: HomeDir)
    requires NodeDirective(n, home).Ok?
    ensures var d := NodeDirective(n, home).value;
      && (d.AddItem? <==> n.name in {"menu", "program"})
      && (d.AddItem? ==> ItemFrom(n, home, d.item))
  {
    DirectiveOf(n, home);
  }

  /** The rules a menu body enforces on each node, stated directly by its
      name: `fuzzel-args` takes unnamed strings and no children;
      `fuzzel-config` takes no arguments and a block whose keys each have
      one unnamed string; `icon-dir` takes one unnamed string that is
      absolute once `~` is expanded, and no children; `menu` and `program`
      take one unnamed string and a block their own item parse accepts;
      `icon` is accepted as it is; any other name is rejected. */
  predicate IsValidMenuNode(n: Node, home: HomeDir)
  {
    if n.name == "fuzzel-args" then
      n.children.NoChildren? && forall i :: 0 <= i < |n.entries| ==> IsPlainString(n.entries[i])
    else if n.name == "fuzzel-config" then
      n.entries == [] && n.children.Block? &&
      forall i :: 0 <= i < |n.children.nodes| ==>
        |n.children.nodes[i].entries| == 1 && IsPlainString(n.children.nodes[i].entries[0])
    else if n.name == "icon-dir" then
      n.children.NoChildren? && |n.entries| == 1 && IsPlainString(n.entries[0]) &&
      home.Home? && IsAbsolute(ExpandTilde(n.entries[0].value.s, home.path))
    else if n.name == "menu" || n.name == "program" then
      |n.entries| == 1 && IsPlainString(n.entries[0]) && n.children.Block? &&
      ParseItemSpec(KindOf(n.name), n.entries[0].value.s, n.children.nodes, home).Ok?
    else
      n.name == "icon"
  }

  /** A node is accepted exactly when it follows the rules. */
  lemma ValidMenuNode(n: Node, home: HomeDir)
    ensures NodeDirective(n, home).Ok? <==> IsValidMenuNode(n, home)
  {
    StringArgsOk(n.entries, ArgsNamed, ArgsNotString);
    if n.children.Block? {
      ConfigMapMeaning(n.children.nodes);
    }
  }

  /** A menu body is accepted exactly when every node follows the rules. */
  lemma BodyValid(nodes: seq<Node>, home: HomeDir)
    ensures ParseMenuSpec(nodes, home).Ok? <==> forall k :: 0 <= k < |nodes| ==> IsValidMenuNode(nodes[k], home)
  {
    DirectivesOk(nodes, home);
    forall k | 0 <= k < |nodes|
      ensures NodeDirective(nodes[k], home).Ok? <==> IsValidMenuNode(nodes[k], home)
    {
      ValidMenuNode(nodes[k], home);
    }
  }

  lemma {:induction false} ArgsOfLast(nodes: seq<Node>, home: HomeDir)
    requires ParseMenuSpec(nodes, home).Ok?
    ensures match LastNamed(nodes, "fuzzel-args")
            case None => ParseMenuSpec(nodes, home).value.fuzzelArgs == []
            case Some(k) =>
              k < |nodes| &&
              StringArgs(nodes[k].entries, ArgsNamed, ArgsNotString) == Ok(ParseMenuSpec(nodes, home).value.fuzzelArgs)
  {
    if nodes != [] {
      var init := nodes[..|nodes| - 1];
      var last := nodes[|nodes| - 1];
      ParseMenuLast(nodes, home);
      ArgsDirective(last, home);
      ArgsOfLast(init, home);
      if last.name != "fuzzel-args" {
        assert LastNamed(nodes, "fuzzel-args") == LastNamed(init, "fuzzel-args");
        assert ParseMenuSpec(nodes, home).value.fuzzelArgs == ParseMenuSpec(init, home).value.fuzzelArgs;
        if LastNamed(init, "fuzzel-args").Some? {
          assert nodes[LastNamed(init, "fuzzel-args").value] == init[LastNamed(init, "fuzzel-args").value];
        }
      }
    }
  }

  /** A later `fuzzel-args` node replaces earlier ones: the arguments are
      those of the last one, and empty when there is none; and no
      `fuzzel-args` node of an accepted body has children. */
  lemma FuzzelArgsLastWins(nodes: seq<Node>, home: HomeDir)
    requires ParseMenuSpec(nodes, home).Ok?
    ensures NoneNamed(nodes, "fuzzel-args") ==> ParseMenuSpec(nodes, home).value.fuzzelArgs == []
    ensures forall k :: IsLastNamed(nodes, k, "fuzzel-args") ==>
              StringArgs(nodes[k].entries, ArgsNamed, ArgsNotString) == Ok(ParseMenuSpec(nodes, home).value.fuzzelArgs)
    ensures forall k :: 0 <= k < |nodes| && nodes[k].name == "fuzzel-args" ==> nodes[k].children.NoChildren?
  {
    BodyValid(nodes, home);
    ArgsOfLast(nodes, home);
    LastNamedMeaning(nodes, "fuzzel-args");
  }

  lemma {:induction false} ConfigOfLast(nodes: seq<Node>, home: HomeDir)
    requires ParseMenuSpec(nodes, home).Ok?
    ensures match LastNamed(nodes, "fuzzel-config")
            case None => ParseMenuSpec(nodes, home).value.fuzzelConfig == map[]
            case Some(k) =>
              k < |nodes| && nodes[k].entries == [] && nodes[k].children.Block? &&
              ConfigMap(nodes[k].children.nodes) == Ok(ParseMenuSpec(nodes, home).value.fuzzelConfig)
  {
    if nodes != [] {
      var init := nodes[..|nodes| - 1];
      ParseMenuLast(nodes, home);
      ConfigDirective(nodes[|nodes| - 1], home);
      ConfigOfLast(init, home);
    }
  }

  /** A later `fuzzel-config` block replaces the whole map of earlier ones:
      the map is the last block's, and empty when there is none. */
  lemma FuzzelConfigLastWins(nodes: seq<Node>, home: HomeDir)
    requires ParseMenuSpec(nodes, home).Ok?
    ensures NoneNamed(nodes, "fuzzel-config") ==> ParseMenuSpec(nodes, home).value.fuzzelConfig == map[]
    ensures forall k :: IsLastNamed(nodes, k, "fuzzel-config") ==>
              nodes[k].entries == [] && nodes[k].children.Block? &&
              ConfigMap(nodes[k].children.nodes) == Ok(ParseMenuSpec(nodes, home).value.fuzzelConfig)
  {
    ConfigOfLast(nodes, home);
    LastNamedMeaning(nodes, "fuzzel-config");
  }

  /** Each `icon-dir` node adds one path, in order: its string with every
      `~` replaced by the home directory, and absolute; so a body with an
      `icon-dir` node is accepted only when the home directory is known. */
  lemma {:induction false} IconDirsInOrder(nodes: seq<Node>, home: HomeDir)
    requires ParseMenuSpec(nodes, home).Ok?
    ensures var dirs := ParseMenuSpec(nodes, home).value.iconDirs;
      && |dirs| == |Select(nodes, {"icon-dir"})|
      && forall j :: 0 <= j < |dirs| ==> IconDirFrom(Select(nodes, {"icon-dir"})[j], home, dirs[j])
  {
    if nodes != [] {
      var init := nodes[..|nodes| - 1];
      ParseMenuLast(nodes, home);
      IconDirDirectiveOf(nodes[|nodes| - 1], home);
      IconDirsInOrder(init, home);
    }
  }

  /** Each `menu` / `program` node adds one item, in declaration order,
      named by its single unnamed string argument, of the node's kind, and
      parsed from the node's children. */
  lemma {:induction false} ItemsInOrder(nodes: seq<Node>, home: HomeDir)
    requires ParseMenuSpec(nodes, home).Ok?
    ensures var items := ParseMenuSpec(nodes, home).value.items;
      && |items| == |Select(nodes, {"menu", "program"})|
      && forall j :: 0 <= j < |items| ==> ItemFrom(Select(nodes, {"menu", "program"})[j], home, items[j])
  {
    if nodes != [] {
      var init := nodes[..|nodes| - 1];
      ParseMenuLast(nodes, home);
      ItemDirective(nodes[|nodes| - 1], home);
      ItemsInOrder(init, home);
    }
  }

  /** The node names a menu body may hold; `no-sort` is not one of them. */
  const MenuNodeNames: set<string> := {"fuzzel-args", "fuzzel-config", "icon-dir", "menu", "program", "icon"}

  lemma KnownName(n: Node, home: HomeDir)
    requires NodeDirective(n, home).Ok?
    ensures n.name in MenuNodeNames
  {
  }

  /** An accepted body holds only known node names. */
  lemma KnownNamesOnly(nodes: seq<Node>, home: HomeDir)
    requires ParseMenuSpec(nodes, home).Ok?
    ensures forall i :: 0 <= i < |nodes| ==> nodes[i].name in MenuNodeNames
  {
    DirectivesOk(nodes, home);
    forall i | 0 <= i < |nodes|
      ensures nodes[i].name in MenuNodeNames
    {
      KnownName(nodes[i], home);
    }
  }

  /** A node with an unknown name raises the unexpected-node error. */
  lemma UnknownNode(n: Node, home: HomeDir)
    requires n.name !in MenuNodeNames
    ensures NodeDirective(n, home) == Err(UnexpectedInMenu(n.name))
  {
  }

  /** The first node with an unknown name, after accepted ones, fails the
      whole parse with that name; `no-sort` is such a name here. */
  lemma UnknownNameFails(nodes: seq<Node>, i: nat, home: HomeDir)
    requires i < |nodes| && ParseMenuSpec(nodes[..i], home).Ok?
    requires nodes[i].name !in MenuNodeNames
    ensures ParseMenuSpec(nodes, home) == Err(UnexpectedInMenu(nodes[i].name))
  {
    UnknownNode(nodes[i], home);
    DirectivesStop(nodes, i, home);
  }

  /** Any error inside a nested item aborts the whole parse. */
  lemma NestedErrorAborts(nodes: seq<Node>, i: nat, home: HomeDir)
    requires i < |nodes| && ParseMenuSpec(nodes[..i], home).Ok?
    requires nodes[i].name == "menu" || nodes[i].name == "program"
    requires |nodes[i].entries| == 1 && IsPlainString(nodes[i].entries[0]) && nodes[i].children.Block?
    requires ParseItemSpec(KindOf(nodes[i].name), nodes[i].entries[0].value.s, nodes[i].children.nodes, home).Err?
    ensures ParseMenuSpec(nodes, home) ==
            Err(ParseItemSpec(KindOf(nodes[i].name), nodes[i].entries[0].value.s, nodes[i].children.nodes, home).error)
  {
    ItemNodeError(nodes[i], home);
    DirectivesStop(nodes, i, home);
  }

  lemma ItemNodeError(n: Node, home: HomeDir)
    requires n.name == "menu" || n.name == "program"
    requires |n.entries| == 1 && IsPlainString(n.entries[0]) && n.children.Block?
    requires ParseItemSpec(KindOf(n.name), n.entries[0].value.s, n.children.nodes, home).Err?
    ensures NodeDirective(n, home) == Err(ParseItemSpec(KindOf(n.name), n.entries[0].value.s, n.children.nodes, home).error)
  {
  }

  /** The home directory is looked up only after an `icon-dir` node's
      argument checks pass; a missing or non-UTF-8 home then fails it. */
  lemma IconDirHome(n: Node, home: HomeDir)
    requires n.name == "icon-dir" && n.children.NoChildren? && |n.entries| == 1 && IsPlainString(n.entries[0])
    ensures home.NoHome? ==> NodeDirective(n, home) == Err(NoHomeDir)
    ensures home.NonUtf8Home? ==> NodeDirective(n, home) == Err(HomeNotUtf8)
    ensures home.Home? ==>
              NodeDirective(n, home) ==
              if IsAbsolute(ExpandTilde(n.entries[0].value.s, home.path)) then Ok(AddIconDir(ExpandTilde(n.entries[0].value.s, home.path)))
              else Err(IconDirNotAbsolute)
  {
  }

  /** An `icon` node in a menu body has no effect on the menu: removing it
      changes neither the outcome nor the error. */
  lemma {:induction false} MenuIconIgnored(pre: seq<Node>, n: Node, post: seq<Node>, home: HomeDir)
    requires n.name == "icon"
    ensures ParseMenuSpec(pre + [n] + post, home) == ParseMenuSpec(pre + post, home)
    decreases |post|
  {
    if post == [] {
      assert pre + [n] + post == pre + [n];
      assert pre + post == pre;
      ParseMenuSnoc(pre, n, home);
    } else {
      var init := post[..|post| - 1];
      var last := post[|post| - 1];
      MenuIconIgnored(pre, n, init, home);
      assert pre + [n] + post == (pre + [n] + init) + [last];
      assert pre + post == (pre + init) + [last];
      ParseMenuSnoc(pre + [n] + init, last, home);
      ParseMenuSnoc(pre + init, last, home);
    }
  }
}
