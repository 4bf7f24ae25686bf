/**
 * The documents of the parser's own unit test in src/parser.rs, written as
 * node trees, and what parsing them gives.
 */
module ParserExamples {
  import opened Wrappers
  import opened Kdl
  import opened Common
  import opened Parser
  import opened ParserProps

  function Arg(s: string): Entry
  {
    Entry(None, Str(s))
  }

  function Leaf(name: string, args: seq<string>): Node
  {
    Node(name, seq(|args|, i requires 0 <= i < |args| => Arg(args[i])), NoChildren)
  }

  /** A single-node list is processed as that node alone. */
  lemma TraverseOne<A, T, E>(x: A, f: A -> Result<T, E>)
    ensures Traverse([x], f) == match f(x) case Err(e) => Err(e) case Ok(v) => Ok([v])
  {
    assert [x][..|[x]| - 1] == [];
    assert Traverse([x][..|[x]| - 1], f) == Ok([]);
    if f(x).Ok? {
      assert [] + [f(x).value] == [f(x).value];
    }
  }

  lemma DirectivesOne(n: Node, home: string)
    ensures Directives([n], home) == match NodeDirective(n, home) case Err(e) => Err(e) case Ok(d) => Ok([d])
  {
    assert [n][..|[n]| - 1] == [];
    assert Directives([n][..|[n]| - 1], home) == Ok([]);
    if NodeDirective(n, home).Ok? {
      assert [] + [NodeDirective(n, home).value] == [NodeDirective(n, home).value];
    }
  }

  /** `command "cmd1"` inside a program item. */
  lemma CommandNode(args: seq<string>)
    ensures ProgramNode(Leaf("command", args)) == Ok(Some(args))
  {
    var n := Leaf("command", args);
    StringArgsOk(n.entries, CommandNamed, CommandNotString);
    assert StringArgs(n.entries, CommandNamed, CommandNotString).value == args;
  }

  lemma LastSomeOne<T>(x: Option<T>)
    ensures LastSome([x]) == x
  {
    assert [x][..|[x]| - 1] == [];
  }

  /** `program "Item1" { command "cmd1" }` is one program item. */
  lemma SimpleProgram(home: string)
    ensures ParseConfigSpec(Some([Node("program", [Arg("Item1")], Block([Leaf("command", ["cmd1"])]))]), home) ==
            Ok(Menu([], [], [], [Item("Item1", None, Prog(Program(["cmd1"])))], true))
  {
    var cmd := Leaf("command", ["cmd1"]);
    CommandNode(["cmd1"]);
    TraverseOne(cmd, ProgramNode);
    TraverseOne(cmd, IconNode);
    LastSomeOne<string>(None);
    LastSomeOne(Some(["cmd1"]));
    assert IconSpec([cmd]) == Ok(None);
    assert ProgramSpec([cmd]) == Ok(Program(["cmd1"]));
    var n := Node("program", [Arg("Item1")], Block([cmd]));
    var item := Item("Item1", None, Prog(Program(["cmd1"])));
    assert ParseItemSpec(ProgramItem, "Item1", [cmd], home) == Ok(item);
    assert NodeDirective(n, home) == Ok(AddItem(item));
    DirectivesOne(n, home);
    assert Assemble([AddItem(item)]) == Apply(EmptyMenu, AddItem(item)) by {
      assert [AddItem(item)][..|[AddItem(item)]| - 1] == [];
    }
    assert [] + [item] == [item];
    assert ParseConfigSpec(Some([n]), home) == Ok(Apply(EmptyMenu, AddItem(item)));
  }

  /** Two plain string arguments are taken in order. */
  lemma TwoStrings(x: string, y: string, named: Error, notString: Error)
    ensures StringArgs([Arg(x), Arg(y)], named, notString) == Ok([x, y])
  {
    StringArgsOk([Arg(x), Arg(y)], named, notString);
    assert StringArgs([Arg(x), Arg(y)], named, notString).value == [x, y];
  }

  lemma LastSomeTwo<T>(x: Option<T>, y: Option<T>)
    ensures LastSome([x, y]) == if y.Some? then y else x
  {
    assert [x, y][..|[x, y]| - 1] == [x];
    LastSomeOne(x);
  }

  lemma ParseMenuEmpty(home: string)
    ensures ParseMenuSpec([], home) == Ok(EmptyMenu)
  {
  }

  /** `fuzzel-config { key1 "value1"; key2 "value2" }` keeps both pairs in
      order. */
  lemma ConfigBlock(home: string)
    ensures NodeDirective(Node("fuzzel-config", [], Block([Leaf("key1", ["value1"]), Leaf("key2", ["value2"])])), home) ==
            Ok(SetConfig([("key1", "value1"), ("key2", "value2")]))
  {
    var kvs := [Leaf("key1", ["value1"]), Leaf("key2", ["value2"])];
    ConfigPairsMeaning(kvs);
    assert ConfigPairs(kvs).value == [("key1", "value1"), ("key2", "value2")];
  }

  /** `program "Item1" { icon "icon1"; command "cmd1" }` has that icon and
      command. */
  lemma IconProgram(home: string)
    ensures NodeDirective(Node("program", [Arg("Item1")], Block([Leaf("icon", ["icon1"]), Leaf("command", ["cmd1"])])), home) ==
            Ok(AddItem(Item("Item1", Some("icon1"), Prog(Program(["cmd1"])))))
  {
    var cs := [Leaf("icon", ["icon1"]), Leaf("command", ["cmd1"])];
    CommandNode(["cmd1"]);
    TraverseOk(cs, IconNode);
    TraverseOk(cs, ProgramNode);
    assert Traverse(cs, IconNode).value == [Some("icon1"), None];
    assert Traverse(cs, ProgramNode).value == [None, Some(["cmd1"])];
    LastSomeTwo(Some("icon1"), None);
    LastSomeTwo(None, Some(["cmd1"]));
    assert ParseItemSpec(ProgramItem, "Item1", cs, home) == Ok(Item("Item1", Some("icon1"), Prog(Program(["cmd1"]))));
  }

  lemma ArgsThenConfig(home: string)
    ensures ParseMenuSpec([Leaf("fuzzel-args", ["--arg1", "--arg2"]),
                           Node("fuzzel-config", [], Block([Leaf("key1", ["value1"]), Leaf("key2", ["value2"])]))], home) ==
            Ok(Menu(["--arg1", "--arg2"], [("key1", "value1"), ("key2", "value2")], [], [], true))
  {
    var a := Leaf("fuzzel-args", ["--arg1", "--arg2"]);
    var b := Node("fuzzel-config", [], Block([Leaf("key1", ["value1"]), Leaf("key2", ["value2"])]));
    assert a.entries == [Arg("--arg1"), Arg("--arg2")];
    TwoStrings("--arg1", "--arg2", ArgsNamed, ArgsNotString);
    ConfigBlock(home);
    ParseMenuEmpty(home);
    assert [] + [a] == [a] && [a] + [b] == [a, b];
    ParseMenuSnoc([], a, home);
    ParseMenuSnoc([a], b, home);
  }

  /** The second document of the unit test: arguments, a config block and
      one program with an icon. */
  lemma ArgsConfigAndIcon(home: string)
    ensures ParseConfigSpec(Some([
              Leaf("fuzzel-args", ["--arg1", "--arg2"]),
              Node("fuzzel-config", [], Block([Leaf("key1", ["value1"]), Leaf("key2", ["value2"])])),
              Node("program", [Arg("Item1")], Block([Leaf("icon", ["icon1"]), Leaf("command", ["cmd1"])]))]), home) ==
            Ok(Menu(["--arg1", "--arg2"], [("key1", "value1"), ("key2", "value2")], [],
                    [Item("Item1", Some("icon1"), Prog(Program(["cmd1"])))], true))
  {
    var a := Leaf("fuzzel-args", ["--arg1", "--arg2"]);
    var b := Node("fuzzel-config", [], Block([Leaf("key1", ["value1"]), Leaf("key2", ["value2"])]));
    var c := Node("program", [Arg("Item1")], Block([Leaf("icon", ["icon1"]), Leaf("command", ["cmd1"])]));
    var item := Item("Item1", Some("icon1"), Prog(Program(["cmd1"])));
    ArgsThenConfig(home);
    IconProgram(home);
    assert [a, b] + [c] == [a, b, c];
    ParseMenuSnoc([a, b], c, home);
    assert [] + [item] == [item];
  }

  /** `program NAME { command ARGS... }` is one program item with no icon. */
  lemma ProgramWithCommand(name: string, args: seq<string>, home: string)
    ensures NodeDirective(Node("program", [Arg(name)], Block([Leaf("command", args)])), home) ==
            Ok(AddItem(Item(name, None, Prog(Program(args)))))
  {
    var cmd := Leaf("command", args);
    CommandNode(args);
    TraverseOne(cmd, ProgramNode);
    TraverseOne(cmd, IconNode);
    LastSomeOne<string>(None);
    LastSomeOne(Some(args));
    assert IconSpec([cmd]) == Ok(None);
    assert ProgramSpec([cmd]) == Ok(Program(args));
  }

  /** The submenu's body: its own config block, then one program. */
  lemma SubmenuBody(home: string)
    ensures ParseMenuSpec([Node("fuzzel-config", [], Block([Leaf("subkey", ["subvalue"])])),
                           Node("program", [Arg("Item2")], Block([Leaf("command", ["cmd2", "arg2"])]))], home) ==
            Ok(Menu([], [("subkey", "subvalue")], [], [Item("Item2", None, Prog(Program(["cmd2", "arg2"])))], true))
  {
    var kv := Leaf("subkey", ["subvalue"]);
    var a := Node("fuzzel-config", [], Block([kv]));
    var b := Node("program", [Arg("Item2")], Block([Leaf("command", ["cmd2", "arg2"])]));
    TraverseOne(kv, ConfigPair);
    assert NodeDirective(a, home) == Ok(SetConfig([("subkey", "subvalue")]));
    ProgramWithCommand("Item2", ["cmd2", "arg2"], home);
    var item := Item("Item2", None, Prog(Program(["cmd2", "arg2"])));
    ParseMenuEmpty(home);
    assert [] + [a] == [a] && [a] + [b] == [a, b];
    ParseMenuSnoc([], a, home);
    assert ParseMenuSpec([a], home) == Ok(Menu([], [("subkey", "subvalue")], [], [], true));
    ParseMenuSnoc([a], b, home);
    assert [] + [item] == [item];
  }

  /** `menu "Submenu1" { ... }`: neither child is an icon, so the submenu
      has none, and its menu is the body's. */
  lemma SubmenuNode(home: string)
    ensures NodeDirective(Node("menu", [Arg("Submenu1")], Block([
              Node("fuzzel-config", [], Block([Leaf("subkey", ["subvalue"])])),
              Node("program", [Arg("Item2")], Block([Leaf("command", ["cmd2", "arg2"])]))])), home) ==
            Ok(AddItem(Item("Submenu1", None, SubMenu(
              Menu([], [("subkey", "subvalue")], [], [Item("Item2", None, Prog(Program(["cmd2", "arg2"])))], true)))))
  {
    var a := Node("fuzzel-config", [], Block([Leaf("subkey", ["subvalue"])]));
    var b := Node("program", [Arg("Item2")], Block([Leaf("command", ["cmd2", "arg2"])]));
    TraverseOk([a, b], IconNode);
    assert Traverse([a, b], IconNode).value == [None, None];
    LastSomeTwo<string>(None, None);
    assert IconSpec([a, b]) == Ok(None);
    SubmenuBody(home);
  }

  /** A body of one item node is a menu of that item. */
  lemma OneItem(p: Node, i1: Item, home: string)
    requires NodeDirective(p, home) == Ok(AddItem(i1))
    ensures ParseMenuSpec([p], home) == Ok(Menu([], [], [], [i1], true))
  {
    ParseMenuEmpty(home);
    assert [] + [p] == [p];
    ParseMenuSnoc([], p, home);
    assert [] + [i1] == [i1];
  }

  /** A body of two item nodes is a menu of those two items, in order. */
  lemma TwoItems(p: Node, i1: Item, m: Node, i2: Item, home: string)
    requires NodeDirective(p, home) == Ok(AddItem(i1))
    requires NodeDirective(m, home) == Ok(AddItem(i2))
    ensures ParseMenuSpec([p, m], home) == Ok(Menu([], [], [], [i1, i2], true))
  {
    OneItem(p, i1, home);
    assert [p] + [m] == [p, m];
    ParseMenuSnoc([p], m, home);
    assert [i1] + [i2] == [i1, i2];
  }

  /** The third document of the unit test: a program, then a submenu with
      its own config block and one program of two arguments. */
  lemma NestedMenu(home: string)
    ensures ParseConfigSpec(Some([
              Node("program", [Arg("Item1")], Block([Leaf("command", ["cmd1"])])),
              Node("menu", [Arg("Submenu1")], Block([
                Node("fuzzel-config", [], Block([Leaf("subkey", ["subvalue"])])),
                Node("program", [Arg("Item2")], Block([Leaf("command", ["cmd2", "arg2"])]))]))]), home) ==
            Ok(Menu([], [], [], [
              Item("Item1", None, Prog(Program(["cmd1"]))),
              Item("Submenu1", None, SubMenu(
                Menu([], [("subkey", "subvalue")], [], [Item("Item2", None, Prog(Program(["cmd2", "arg2"])))], true)))],
              true))
  {
    ProgramWithCommand("Item1", ["cmd1"], home);
    SubmenuNode(home);
    TwoItems(Node("program", [Arg("Item1")], Block([Leaf("command", ["cmd1"])])),
             Item("Item1", None, Prog(Program(["cmd1"]))),
             Node("menu", [Arg("Submenu1")], Block([
               Node("fuzzel-config", [], Block([Leaf("subkey", ["subvalue"])])),
               Node("program", [Arg("Item2")], Block([Leaf("command", ["cmd2", "arg2"])]))])),
             Item("Submenu1", None, SubMenu(
               Menu([], [("subkey", "subvalue")], [], [Item("Item2", None, Prog(Program(["cmd2", "arg2"])))], true))),
             home);
  }
}
