/**
 * The older menu parser kept inside src/config.rs, whose `Menu` feeds the
 * flattener. It differs from src/parser.rs in three ways: `fuzzel-config`
 * is a hash map (a repeated key keeps its last value), there is no
 * `no-sort` node (it is rejected as unexpected), and the home directory is
 * looked up at each `icon-dir` node and may be missing or not valid UTF-8.
 *
 * Each parse function is given twice: as a specification function
 * (`NodeDirective`, `Directives`, `ParseMenuSpec`, `ParseItemSpec`) and as
 * the imperative loop of the source (`ParseMenuFromNodes`,
 * `ParseItemFromNodes`), which is proved to compute the specification.
 */
module ConfigParse {
  import opened Wrappers
  import opened Kdl
  import opened Common

  datatype Menu = Menu(
    fuzzelArgs: seq<string>,
    fuzzelConfig: map<string, string>,
    iconDirs: seq<Path>,
    items: seq<Item>)

  /** What `std::env::home_dir()` and `to_str()` yield. */
  datatype HomeDir = NoHome | NonUtf8Home | Home(path: string)

  datatype Item = Item(name: string, icon: Option<string>, contents: ItemContents)

  datatype ItemContents = SubMenu(menu: Menu) | Prog(program: Program)

  /** What one node of a menu body does to the menu under construction. */
  datatype Directive =
    | SetArgs(args: seq<string>)                  // fuzzel-args: replaces the list
    | SetConfig(config: map<string, string>)      // fuzzel-config: replaces the map
    | AddIconDir(dir: Path)                       // icon-dir: appends
    | AddItem(item: Item)                         // menu / program: appends
    | Skip                                        // icon: no effect at menu level

  const EmptyMenu := Menu([], map[], [], [])

  /** The menu after one more directive. */
  function Apply(m: Menu, d: Directive): Menu
  {
    match d
    case SetArgs(a) => m.(fuzzelArgs := a)
    case SetConfig(c) => m.(fuzzelConfig := c)
    case AddIconDir(p) => m.(iconDirs := m.iconDirs + [p])
    case AddItem(it) => m.(items := m.items + [it])
    case Skip => m
  }

  /** The menu built by a sequence of directives, in order. */
  function Assemble(ds: seq<Directive>): Menu
  {
    if ds == [] then EmptyMenu else Apply(Assemble(ds[..|ds| - 1]), ds[|ds| - 1])
  }

  lemma AssembleStep(ds: seq<Directive>, d: Directive)
    ensures Assemble(ds + [d]) == Apply(Assemble(ds), d)
  {
    assert (ds + [d])[..|ds|] == ds;
  }

  function KindOf(name: string): ItemKind
  {
    if name == "menu" then MenuItem else ProgramItem
  }

  /** `HashMap::insert` for each pair in order: a repeated key keeps the
      value of its last occurrence. */
  function ToMap(pairs: seq<(string, string)>): map<string, string>
  {
    if pairs == [] then map[]
    else
      var init := pairs[..|pairs| - 1];
      assert forall i :: 0 <= i < |init| ==> init[i] == pairs[i];
      ToMap(init)[pairs[|pairs| - 1].0 := pairs[|pairs| - 1].1]
  }

  /** The map of a `fuzzel-config` block. */
  function ConfigMap(kvs: seq<Node>): Result<map<string, string>, Error>
  {
    match ConfigPairs(kvs)
    case Err(e) => Err(e)
    case Ok(ps) => Ok(ToMap(ps))
  }

  /** An `icon-dir` node: one unnamed string, then the home directory is
      looked up, `~` expanded, and the result must be absolute. */
  function IconDirDirective(n: Node, home: HomeDir): Result<Directive, Error>
  {
    if n.children.Block? then Err(IconDirHasChildren)
    else
      match SingleString(n.entries, IconDirArgCount, IconDirNamed, IconDirNotString)
      case Err(e) => Err(e)
      case Ok(s) =>
        match home
        case NoHome => Err(NoHomeDir)
        case NonUtf8Home => Err(HomeNotUtf8)
        case Home(h) =>
          var path := ExpandTilde(s, h);
          if IsAbsolute(path) then Ok(AddIconDir(path)) else Err(IconDirNotAbsolute)
  }

  /** The meaning of one node of a menu body, or the error it raises. */
  function NodeDirective(n: Node, home: HomeDir): Result<Directive, Error>
    decreases n, 0
  {
    if n.name == "fuzzel-args" then
      if n.children.Block? then Err(ArgsHaveChildren)
      else
        match StringArgs(n.entries, ArgsNamed, ArgsNotString)
        case Err(e) => Err(e)
        case Ok(args) => Ok(SetArgs(args))
    else if n.name == "fuzzel-config" then
      if |n.entries| != 0 then Err(ConfigHasArguments)
      else if n.children.NoChildren? then Err(ConfigNoChildren)
      else
        match ConfigMap(n.children.nodes)
        case Err(e) => Err(e)
        case Ok(c) => Ok(SetConfig(c))
    else if n.name == "icon-dir" then
      IconDirDirective(n, home)
    else if n.name == "menu" || n.name == "program" then
      match SingleString(n.entries, ItemArgCount, ItemNameNamed, ItemNameNotString)
      case Err(e) => Err(e)
      case Ok(name) =>
        match n.children
        case NoChildren => Err(ItemNoChildren)
        case Block(cs) =>
          match ParseItemSpec(KindOf(n.name), name, cs, home)
          case Err(e) => Err(e)
          case Ok(item) => Ok(AddItem(item))
    else if n.name == "icon" then
      Ok(Skip)
    else
      Err(UnexpectedInMenu(n.name))
  }

  /** The directives of a whole menu body; the first failing node aborts. */
  function Directives(nodes: seq<Node>, home: HomeDir): (r: Result<seq<Directive>, Error>)
    decreases nodes, 1
  {
    if nodes == [] then Ok([])
    else
      match Directives(nodes[..|nodes| - 1], home)
      case Err(e) => Err(e)
      case Ok(ds) =>
        match NodeDirective(nodes[|nodes| - 1], home)
        case Err(e) => Err(e)
        case Ok(d) => Ok(ds + [d])
  }

  /** A menu body is accepted exactly when every node is. */
  lemma {:induction false} DirectivesOk(nodes: seq<Node>, home: HomeDir)
    ensures Directives(nodes, home).Ok? <==> forall i :: 0 <= i < |nodes| ==> NodeDirective(nodes[i], home).Ok?
  {
    if nodes != [] {
      var init := nodes[..|nodes| - 1];
      DirectivesOk(init, home);
      if Directives(init, home).Err? {
        var k :| 0 <= k < |init| && NodeDirective(init[k], home).Err?;
        assert nodes[k] == init[k];
      } else {
        forall i | 0 <= i < |init|
          ensures NodeDirective(nodes[i], home) == NodeDirective(init[i], home)
        {
          assert nodes[i] == init[i];
        }
      }
    }
  }

  /** An accepted menu body holds one directive per node, in order. */
  lemma {:induction false} DirectivesValues(nodes: seq<Node>, home: HomeDir)
    requires Directives(nodes, home).Ok?
    ensures |Directives(nodes, home).value| == |nodes|
    ensures forall i :: 0 <= i < |nodes| ==> NodeDirective(nodes[i], home) == Ok(Directives(nodes, home).value[i])
  {
    if nodes != [] {
      var init := nodes[..|nodes| - 1];
      DirectivesValues(init, home);
      var ds := Directives(init, home).value;
      var r := Directives(nodes, home).value;
      assert r == ds + [NodeDirective(nodes[|nodes| - 1], home).value];
      forall i | 0 <= i < |nodes|
        ensures NodeDirective(nodes[i], home) == Ok(r[i])
      {
        if i < |init| {
          assert r[i] == ds[i];
          assert nodes[i] == init[i];
        }
      }
    }
  }

  /** After an accepted prefix, the first rejected node decides the error. */
  lemma {:induction false} DirectivesStopsAt(nodes: seq<Node>, i: nat, home: HomeDir)
    requires i < |nodes| && Directives(nodes[..i], home).Ok? && NodeDirective(nodes[i], home).Err?
    ensures Directives(nodes, home) == Err(NodeDirective(nodes[i], home).error)
    decreases |nodes|
  {
    var init := nodes[..|nodes| - 1];
    if i == |nodes| - 1 {
      assert init == nodes[..i];
    } else {
      assert init[..i] == nodes[..i];
      assert init[i] == nodes[i];
      DirectivesStopsAt(init, i, home);
    }
  }

  /** parse_menu_from_nodes, as a specification. */
  function ParseMenuSpec(nodes: seq<Node>, home: HomeDir): Result<Menu, Error>
    decreases nodes, 2
  {
    match Directives(nodes, home)
    case Err(e) => Err(e)
    case Ok(ds) => Ok(Assemble(ds))
  }

  /** parse_item_from_nodes, as a specification: the icon children are
      checked first, then the same children are parsed as the item's body. */
  function ParseItemSpec(kind: ItemKind, name: string, nodes: seq<Node>, home: HomeDir): Result<Item, Error>
    decreases nodes, 3
  {
    match IconSpec(nodes)
    case Err(e) => Err(e)
    case Ok(icon) =>
      match kind
      case MenuItem =>
        (match ParseMenuSpec(nodes, home)
         case Err(e) => Err(e)
         case Ok(m) => Ok(Item(name, icon, SubMenu(m))))
      case ProgramItem =>
        (match ProgramSpec(nodes)
         case Err(e) => Err(e)
         case Ok(p) => Ok(Item(name, icon, Prog(p))))
  }

  /** parse_config, starting from the KDL library's result: `None` stands
      for a document the library could not parse. */
  function ParseConfigSpec(doc: Option<seq<Node>>, home: HomeDir): Result<Menu, Error>
  {
    match doc
    case None => Err(KdlSyntax)
    case Some(nodes) => ParseMenuSpec(nodes, home)
  }

  /*************************************************************************
   * The imperative parser
   *************************************************************************/

  lemma DirectivesStep(nodes: seq<Node>, i: nat, home: HomeDir)
    requires i < |nodes| && Directives(nodes[..i], home).Ok? && NodeDirective(nodes[i], home).Ok?
    ensures Directives(nodes[..i + 1], home) ==
            Ok(Directives(nodes[..i], home).value + [NodeDirective(nodes[i], home).value])
  {
    assert nodes[..i + 1][..i] == nodes[..i];
  }

  lemma DirectivesStop(nodes: seq<Node>, i: nat, home: HomeDir)
    requires i < |nodes| && Directives(nodes[..i], home).Ok? && NodeDirective(nodes[i], home).Err?
    ensures ParseMenuSpec(nodes, home) == Err(NodeDirective(nodes[i], home).error)
  {
    DirectivesStopsAt(nodes, i, home);
  }

  /** The `fuzzel-config` children loop: inserts each pair into the map. */
  method CollectConfigMap(kvs: seq<Node>) returns (r: Result<map<string, string>, Error>)
    ensures r == ConfigMap(kvs)
  {
    var config: map<string, string> := map[];
    for i := 0 to |kvs|
      invariant Traverse(kvs[..i], ConfigPair).Ok?
      invariant config == ToMap(Traverse(kvs[..i], ConfigPair).value)
    {
      var kv := kvs[i];
      var key := kv.name;
      if |kv.entries| != 1 {
        TraverseStops(kvs, ConfigPair, i);
        return Err(ConfigKeyArgCount);
      }
      if kv.entries[0].name.Some? {
        TraverseStops(kvs, ConfigPair, i);
        return Err(ConfigKeyNamed);
      }
      if !kv.entries[0].value.Str? {
        TraverseStops(kvs, ConfigPair, i);
        return Err(ConfigKeyNotString);
      }
      var value := kv.entries[0].value.s;
      TraverseStep(kvs, ConfigPair, i);
      ghost var ps := Traverse(kvs[..i], ConfigPair).value;
      assert (ps + [(key, value)])[..|ps|] == ps;
      config := config[key := value];
    }
    assert kvs[..|kvs|] == kvs;
    return Ok(config);
  }

  /** The body of the menu loop for one node: the node's checks, in the
      source's order, and what it changes in the menu being built. */
  method ParseMenuNode(node: Node, home: HomeDir) returns (r: Result<Directive, Error>)
    decreases node, 0
    ensures r == NodeDirective(node, home)
  {
    if node.name == "fuzzel-args" {
      if node.children.Block? {
        return Err(ArgsHaveChildren);
      }
      var args := CollectStrings(node.entries, ArgsNamed, ArgsNotString);
      if args.Err? {
        return Err(args.error);
      }
      return Ok(SetArgs(args.value));
    } else if node.name == "fuzzel-config" {
      if |node.entries| != 0 {
        return Err(ConfigHasArguments);
      }
      if node.children.NoChildren? {
        return Err(ConfigNoChildren);
      }
      var config := CollectConfigMap(node.children.nodes);
      if config.Err? {
        return Err(config.error);
      }
      return Ok(SetConfig(config.value));
    } else if node.name == "icon-dir" {
      if node.children.Block? {
        return Err(IconDirHasChildren);
      }
      if |node.entries| != 1 {
        return Err(IconDirArgCount);
      }
      if node.entries[0].name.Some? {
        return Err(IconDirNamed);
      }
      if !node.entries[0].value.Str? {
        return Err(IconDirNotString);
      }
      if home.NoHome? {
        return Err(NoHomeDir);
      }
      if home.NonUtf8Home? {
        return Err(HomeNotUtf8);
      }
      var path := ExpandTilde(node.entries[0].value.s, home.path);
      if !IsAbsolute(path) {
        return Err(IconDirNotAbsolute);
      }
      return Ok(AddIconDir(path));
    } else if node.name == "menu" || node.name == "program" {
      if |node.entries| != 1 {
        return Err(ItemArgCount);
      }
      if node.entries[0].name.Some? {
        return Err(ItemNameNamed);
      }
      if !node.entries[0].value.Str? {
        return Err(ItemNameNotString);
      }
      var name := node.entries[0].value.s;
      if node.children.NoChildren? {
        return Err(ItemNoChildren);
      }
      var item := ParseItemFromNodes(KindOf(node.name), name, node.children.nodes, home);
      if item.Err? {
        return Err(item.error);
      }
      return Ok(AddItem(item.value));
    } else if node.name == "icon" {
      // already handled by the enclosing item's icon scan
      return Ok(Skip);
    } else {
      return Err(UnexpectedInMenu(node.name));
    }
  }

  /** parse_menu_from_nodes: one pass over the nodes, updating the menu's
      parts in place and stopping at the first error. */
  method ParseMenuFromNodes(nodes: seq<Node>, home: HomeDir) returns (r: Result<Menu, Error>)
    decreases nodes, 0
    ensures r == ParseMenuSpec(nodes, home)
  {
    var fuzzelArgs: seq<string> := [];
    var fuzzelConfig: map<string, string> := map[];
    var iconDirs: seq<Path> := [];
    var items: seq<Item> := [];

    for i := 0 to |nodes|
      invariant Directives(nodes[..i], home).Ok?
      invariant Assemble(Directives(nodes[..i], home).value) ==
                Menu(fuzzelArgs, fuzzelConfig, iconDirs, items)
    {
      ghost var ds := Directives(nodes[..i], home).value;
      ghost var before := Menu(fuzzelArgs, fuzzelConfig, iconDirs, items);
      var d := ParseMenuNode(nodes[i], home);
      if d.Err? {
        DirectivesStop(nodes, i, home);
        return Err(d.error);
      }
      match d.value {
        case SetArgs(args) => fuzzelArgs := args;
        case SetConfig(config) => fuzzelConfig := config;
        case AddIconDir(path) => iconDirs := iconDirs + [path];
        case AddItem(item) => items := items + [item];
        case Skip =>
      }
      assert Apply(before, d.value) == Menu(fuzzelArgs, fuzzelConfig, iconDirs, items);
      DirectivesStep(nodes, i, home);
      AssembleStep(ds, d.value);
    }
    assert nodes[..|nodes|] == nodes;
    return Ok(Menu(fuzzelArgs, fuzzelConfig, iconDirs, items));
  }

  method ParseItemFromNodes(kind: ItemKind, name: string, nodes: seq<Node>, home: HomeDir)
    returns (r: Result<Item, Error>)
    decreases nodes, 1
    ensures r == ParseItemSpec(kind, name, nodes, home)
  {
    var icon := ScanIcon(nodes);
    if icon.Err? {
      return Err(icon.error);
    }
    var contents: ItemContents;
    match kind {
      case MenuItem =>
        var menu := ParseMenuFromNodes(nodes, home);
        if menu.Err? {
          return Err(menu.error);
        }
        contents := SubMenu(menu.value);
      case ProgramItem =>
        var program := ParseProgramFromNodes(nodes);
        if program.Err? {
          return Err(program.error);
        }
        contents := Prog(program.value);
    }
    return Ok(Item(name, icon.value, contents));
  }

  /** parse_config on the KDL library's result. */
  method ParseConfig(doc: Option<seq<Node>>, home: HomeDir) returns (r: Result<Menu, Error>)
    ensures r == ParseConfigSpec(doc, home)
  {
    match doc {
      case None =>
        return Err(KdlSyntax);
      case Some(nodes) =>
        r := ParseMenuFromNodes(nodes, home);
    }
  }
}
