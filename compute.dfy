/**
 * The compiler of src/config.rs from a parsed menu tree to the flat form
 * the launcher walks: for every menu, its arguments and the text fed to the
 * selector (one line per item); and one vector of entries in which each
 * menu's children sit side by side, found through the menu's items offset.
 */
module Compute {
  import opened Wrappers
  import Kdl
  import opened Common
  import opened ConfigParse
  import opened Icons

  newtype Byte = b: int | 0 <= b < 256

  /** A menu ready to show: the selector's arguments, its input text, and
      where its first child sits in the entry vector. */
  datatype ComputedMenu = ComputedMenu(args: seq<string>, input: string, itemsOffset: nat)

  datatype ComputedProgram = ComputedProgram(command: seq<string>)

  datatype ComputedItem = MenuEntry(menu: ComputedMenu) | ProgramEntry(program: ComputedProgram)

  /** `hash` keeps the first 8 bytes of the configuration file's digest. */
  datatype ComputedConfig = ComputedConfig(hash: seq<Byte>, initialMenu: ComputedMenu, items: seq<ComputedItem>)

  /** One level of inherited icon directories. */
  datatype Frame = Frame(iconDirs: seq<Path>)

  /*************************************************************************
   * The selector input of one menu (compute_menu_shallow)
   *************************************************************************/

  /** The icon directories of the frames, the most recently pushed first. */
  function StackDirs(stack: seq<Frame>): seq<Path>
  {
    if stack == [] then []
    else stack[|stack| - 1].iconDirs + StackDirs(stack[..|stack| - 1])
  }

  /** Where a menu's icons are looked for: its own directories, then the
      inherited ones from the innermost frame outwards. */
  function SearchDirs(menu: Menu, stack: seq<Frame>): seq<Path>
  {
    menu.iconDirs + StackDirs(stack)
  }

  /** The row option that attaches an icon: NUL, `icon`, unit separator. */
  const IconMarker: string := "\0icon\U{1F}"

  /** The icon part of a line: present only when the item names an icon and
      the search finds a file for it. */
  function IconSuffix(icon: Option<string>, dirs: seq<Path>, fs: Listing): string
  {
    match icon
    case None => ""
    case Some(name) =>
      match FirstIcon(Candidates(fs, dirs), name)
      case None => ""
      case Some(path) => IconMarker + path
  }

  function Line(item: Item, dirs: seq<Path>, fs: Listing): string
  {
    item.name + IconSuffix(item.icon, dirs, fs) + "\n"
  }

  /** The selector input for a list of items: their lines, in order. */
  function Input(items: seq<Item>, dirs: seq<Path>, fs: Listing): string
  {
    if items == [] then ""
    else Input(items[..|items| - 1], dirs, fs) + Line(items[|items| - 1], dirs, fs)
  }

  /** Appending one item's parts to the input built so far. */
  lemma LineStep(items: seq<Item>, i: nat, dirs: seq<Path>, fs: Listing, input: string, suffix: string)
    requires i < |items|
    requires input == Input(items[..i], dirs, fs)
    requires suffix == IconSuffix(items[i].icon, dirs, fs)
    ensures input + items[i].name + suffix + "\n" == Input(items[..i + 1], dirs, fs)
  {
    assert items[..i + 1][..i] == items[..i];
    assert input + items[i].name + suffix + "\n" == input + (items[i].name + suffix + "\n");
  }

  function ShallowMenu(menu: Menu, stack: seq<Frame>, fs: Listing): ComputedMenu
  {
    ComputedMenu(menu.fuzzelArgs, Input(menu.items, SearchDirs(menu, stack), fs), 0)
  }

  /** compute_menu_shallow: the arguments are copied, the input is written
      line by line, and the items offset is left at 0 for the caller. */
  method ComputeMenuShallow(menu: Menu, stack: seq<Frame>, fs: Listing) returns (r: ComputedMenu)
    ensures r == ShallowMenu(menu, stack, fs)
  {
    var args := menu.fuzzelArgs;
    var dirs := SearchDirs(menu, stack);
    var input: string := "";
    for i := 0 to |menu.items|
      invariant input == Input(menu.items[..i], dirs, fs)
    {
      var item := menu.items[i];
      var suffix: string := "";
      if item.icon.Some? {
        var found := SearchForIcon(item.icon.value, dirs, fs);
        if found.Some? {
          suffix := IconMarker + found.value;
        }
      }
      assert suffix == IconSuffix(item.icon, dirs, fs);
      LineStep(menu.items, i, dirs, fs, input, suffix);
      input := input + item.name + suffix + "\n";
    }
    assert menu.items[..|menu.items|] == menu.items;
    return ComputedMenu(args, input, 0);
  }

  function ShallowItem(item: Item, stack: seq<Frame>, fs: Listing): ComputedItem
  {
    match item.contents
    case SubMenu(m) => MenuEntry(ShallowMenu(m, stack, fs))
    case Prog(p) => ProgramEntry(ComputedProgram(p.command))
  }

  /** compute_item_shallow: a submenu becomes its shallow menu, a program
      keeps its command. */
  method ComputeItemShallow(item: Item, stack: seq<Frame>, fs: Listing) returns (r: ComputedItem)
    ensures r == ShallowItem(item, stack, fs)
  {
    match item.contents {
      case SubMenu(m) =>
        var menu := ComputeMenuShallow(m, stack, fs);
        return MenuEntry(menu);
      case Prog(p) =>
        return ProgramEntry(ComputedProgram(p.command));
    }
  }

  /*************************************************************************
   * The entry vector (compute_menu_deep), as a closed form
   *************************************************************************/

  /** Number of items in the tree below `m`, `m` itself not included. */
  function Count(m: Menu): nat
    decreases m
  {
    |m.items| + NestedCount(m.items)
  }

  /** Number of items below the submenus among `items`, at every depth. */
  function NestedCount(items: seq<Item>): nat
    decreases items
  {
    if items == [] then 0
    else NestedCount(items[..|items| - 1]) + BelowCount(items[|items| - 1])
  }

  function BelowCount(item: Item): nat
    decreases item
  {
    match item.contents
    case SubMenu(m) => Count(m)
    case Prog(_) => 0
  }

  /** A pushed entry after its offset has been set (programs have none). */
  function Patched(entry: ComputedItem, offset: nat): ComputedItem
  {
    match entry
    case MenuEntry(cm) => MenuEntry(cm.(itemsOffset := offset))
    case ProgramEntry(_) => entry
  }

  /** A menu's block of direct children, pushed at `start - |items|`, after
      the first `done` of them have had their offsets set. Child `j`'s own
      children start after the whole block and after the subtrees of the
      children before it. */
  function StagedEntry(items: seq<Item>, done: nat, st: seq<Frame>, start: nat, fs: Listing, j: nat): ComputedItem
    requires j < |items|
  {
    if j < done then Patched(ShallowItem(items[j], st, fs), start + NestedCount(items[..j]))
    else ShallowItem(items[j], st, fs)
  }

  /** The shallow entries of `items`, in order. */
  function Shallows(items: seq<Item>, st: seq<Frame>, fs: Listing): (r: seq<ComputedItem>)
    ensures |r| == |items|
  {
    if items == [] then []
    else Shallows(items[..|items| - 1], st, fs) + [ShallowItem(items[|items| - 1], st, fs)]
  }

  function Staged(items: seq<Item>, done: nat, st: seq<Frame>, start: nat, fs: Listing): (r: seq<ComputedItem>)
    requires done <= |items|
    ensures |r| == |items|
  {
    if done == 0 then Shallows(items, st, fs)
    else
      var j := done - 1;
      var before := Staged(items, j, st, start, fs);
      before[j := Patched(before[j], start + NestedCount(items[..j]))]
  }

  /** Everything compute_menu_deep appends for `m` when called with `base`
      entries already present and ancestor frames `anc`: the block of `m`'s
      children, then the subtree of each submenu child in turn. */
  function Flatten(m: Menu, anc: seq<Frame>, base: nat, fs: Listing): seq<ComputedItem>
    decreases m
  {
    var st := anc + [Frame(m.iconDirs)];
    var start := base + |m.items|;
    Staged(m.items, |m.items|, st, start, fs) + Subtrees(m.items, st, start, fs)
  }

  function Subtrees(items: seq<Item>, st: seq<Frame>, start: nat, fs: Listing): seq<ComputedItem>
    decreases items
  {
    if items == [] then []
    else
      var init := items[..|items| - 1];
      Subtrees(init, st, start, fs) + SubtreeOf(items[|items| - 1], st, start + NestedCount(init), fs)
  }

  function SubtreeOf(item: Item, st: seq<Frame>, base: nat, fs: Listing): seq<ComputedItem>
    decreases item
  {
    match item.contents
    case SubMenu(m) => Flatten(m, st, base, fs)
    case Prog(_) => []
  }

  /*************************************************************************
   * Lemmas the imperative flattener needs
   *************************************************************************/

  /** The subtree of `item` holds exactly the items below it. */
  lemma {:induction false} SubtreeOfLength(item: Item, st: seq<Frame>, base: nat, fs: Listing)
    ensures |SubtreeOf(item, st, base, fs)| == BelowCount(item)
    decreases item, 2
  {
    match item.contents {
      case SubMenu(m) => FlattenLength(m, st, base, fs);
      case Prog(_) =>
    }
  }

  lemma {:induction false} SubtreesLength(items: seq<Item>, st: seq<Frame>, start: nat, fs: Listing)
    ensures |Subtrees(items, st, start, fs)| == NestedCount(items)
    decreases items, 1
  {
    if items != [] {
      var init := items[..|items| - 1];
      SubtreesLength(init, st, start, fs);
      SubtreeOfLength(items[|items| - 1], st, start + NestedCount(init), fs);
    }
  }

  /** compute_menu_deep appends one entry per item in the tree below `m`. */
  lemma {:induction false} FlattenLength(m: Menu, anc: seq<Frame>, base: nat, fs: Listing)
    ensures |Flatten(m, anc, base, fs)| == Count(m)
    decreases m, 0
  {
    SubtreesLength(m.items, anc + [Frame(m.iconDirs)], base + |m.items|, fs);
  }

  lemma SubtreesStep(items: seq<Item>, i: nat, st: seq<Frame>, start: nat, fs: Listing)
    requires i < |items|
    ensures Subtrees(items[..i + 1], st, start, fs) ==
            Subtrees(items[..i], st, start, fs) + SubtreeOf(items[i], st, start + NestedCount(items[..i]), fs)
  {
    assert items[..i + 1][..i] == items[..i];
  }

  lemma {:induction false} ShallowsAt(items: seq<Item>, st: seq<Frame>, fs: Listing, j: nat)
    requires j < |items|
    ensures Shallows(items, st, fs)[j] == ShallowItem(items[j], st, fs)
  {
    if j < |items| - 1 {
      ShallowsAt(items[..|items| - 1], st, fs, j);
    }
  }

  /** Entry `j` of a partly patched block. */
  lemma {:induction false} StagedAt(items: seq<Item>, done: nat, st: seq<Frame>, start: nat, fs: Listing, j: nat)
    requires done <= |items| && j < |items|
    ensures Staged(items, done, st, start, fs)[j] == StagedEntry(items, done, st, start, fs, j)
  {
    if done == 0 {
      ShallowsAt(items, st, fs, j);
    } else {
      StagedAt(items, done - 1, st, start, fs, j);
      if j == done - 1 {
        StagedAt(items, done - 1, st, start, fs, done - 1);
      }
    }
  }

  /** The first loop pushes the children's shallow entries one by one. */
  lemma PushStep(mi: seq<Item>, i: nat, st: seq<Frame>, fs: Listing)
    requires i < |mi|
    ensures Shallows(mi[..i + 1], st, fs) == Shallows(mi[..i], st, fs) + [ShallowItem(mi[i], st, fs)]
  {
    assert mi[..i + 1][..i] == mi[..i];
  }

  /** The part of compute_menu_deep's output present once the first `i`
      children are handled: the block with their offsets set, then their
      subtrees. */
  ghost function Progress(mi: seq<Item>, i: nat, st: seq<Frame>, start: nat, fs: Listing): seq<ComputedItem>
    requires i <= |mi|
  {
    Staged(mi, i, st, start, fs) + Subtrees(mi[..i], st, start, fs)
  }

  lemma ProgressStart(mi: seq<Item>, st: seq<Frame>, start: nat, fs: Listing)
    ensures Progress(mi, 0, st, start, fs) == Shallows(mi, st, fs)
  {
    assert mi[..0] == [];
  }

  lemma ProgressDone(m: Menu, anc: seq<Frame>, base: nat, fs: Listing)
    ensures Progress(m.items, |m.items|, anc + [Frame(m.iconDirs)], base + |m.items|, fs) == Flatten(m, anc, base, fs)
  {
    assert m.items[..|m.items|] == m.items;
  }

  /** Before a submenu child `i` is handled, its entry is a menu entry. */
  lemma EntryIsMenu(items0: seq<ComputedItem>, mi: seq<Item>, i: nat, st: seq<Frame>, start: nat, fs: Listing,
                    v: seq<ComputedItem>)
    requires i < |mi| && mi[i].contents.SubMenu?
    requires v == items0 + Progress(mi, i, st, start, fs)
    ensures |items0| + i < |v| && v[|items0| + i].MenuEntry?
  {
    StagedAt(mi, i, st, start, fs, i);
    assert v[|items0| + i] == Staged(mi, i, st, start, fs)[i];
  }

  /** Setting the offset of submenu child `i` to the current length marks
      its entry done in the block; that length is where its own children
      will start. */
  lemma PatchStep(items0: seq<ComputedItem>, mi: seq<Item>, i: nat, st: seq<Frame>, start: nat, fs: Listing,
                  v: seq<ComputedItem>)
    requires i < |mi| && start == |items0| + |mi|
    requires v == items0 + Staged(mi, i, st, start, fs) + Subtrees(mi[..i], st, start, fs)
    ensures |items0| + i < |v| && |v| == start + NestedCount(mi[..i])
    ensures v[|items0| + i := Patched(v[|items0| + i], |v|)] ==
            items0 + Staged(mi, i + 1, st, start, fs) + Subtrees(mi[..i], st, start, fs)
  {
    var s := Staged(mi, i, st, start, fs);
    var t := Subtrees(mi[..i], st, start, fs);
    SubtreesLength(mi[..i], st, start, fs);
    var x := Patched(s[i], start + NestedCount(mi[..i]));
    assert v[|items0| + i] == s[i];
    assert (items0 + s + t)[|items0| + i := x] == items0 + s[i := x] + t;
  }

  /** The subtrees of the first `i + 1` children when child `i` is a submenu
      whose children start at `off`. */
  lemma SubMenuSubtree(mi: seq<Item>, i: nat, st: seq<Frame>, start: nat, fs: Listing, off: nat)
    requires i < |mi| && mi[i].contents.SubMenu? && off == start + NestedCount(mi[..i])
    ensures Subtrees(mi[..i + 1], st, start, fs) ==
            Subtrees(mi[..i], st, start, fs) + Flatten(mi[i].contents.menu, st, off, fs)
  {
    SubtreesStep(mi, i, st, start, fs);
  }

  lemma Regroup<X>(a: seq<X>, b: seq<X>, c: seq<X>)
    ensures a + (b + c) == a + b + c
  {
  }

  /** For a submenu child, setting its entry's offset to the current length
      `|v|` and then appending its subtree marks it done. */
  lemma SubMenuStep(items0: seq<ComputedItem>, mi: seq<Item>, i: nat, st: seq<Frame>, start: nat, fs: Listing,
                    v: seq<ComputedItem>, w: seq<ComputedItem>)
    requires i < |mi| && start == |items0| + |mi| && mi[i].contents.SubMenu?
    requires v == items0 + Progress(mi, i, st, start, fs)
    requires |items0| + i < |v| && v[|items0| + i].MenuEntry?
    requires w == v[|items0| + i := MenuEntry(v[|items0| + i].menu.(itemsOffset := |v|))]
    ensures w + Flatten(mi[i].contents.menu, st, |w|, fs) == items0 + Progress(mi, i + 1, st, start, fs)
  {
    var s := Staged(mi, i, st, start, fs);
    var s' := Staged(mi, i + 1, st, start, fs);
    var t := Subtrees(mi[..i], st, start, fs);
    Regroup(items0, s, t);
    PatchStep(items0, mi, i, st, start, fs, v);
    assert w == items0 + s' + t;
    var f := Flatten(mi[i].contents.menu, st, |w|, fs);
    SubMenuSubtree(mi, i, st, start, fs, |w|);
    assert Progress(mi, i + 1, st, start, fs) == s' + (t + f);
    Regroup(items0 + s', t, f);
    Regroup(items0, s', t + f);
    assert w + f == items0 + s' + t + f;
  }

  /** For a program child, nothing changes: its entry is final as pushed
      and it has no subtree. */
  lemma ProgramStep(mi: seq<Item>, i: nat, st: seq<Frame>, start: nat, fs: Listing)
    requires i < |mi| && mi[i].contents.Prog?
    ensures Progress(mi, i, st, start, fs) == Progress(mi, i + 1, st, start, fs)
  {
    var s := Staged(mi, i, st, start, fs);
    StagedAt(mi, i, st, start, fs, i);
    assert s[i := s[i]] == s;
    SubtreesStep(mi, i, st, start, fs);
  }

  /*************************************************************************
   * The imperative flattener
   *************************************************************************/

  /** The first loop of compute_menu_deep: one shallow entry per child,
      in order, after what the vector already holds. */
  method PushShallow(mi: seq<Item>, items0: seq<ComputedItem>, stack: seq<Frame>, fs: Listing)
    returns (items: seq<ComputedItem>)
    ensures items == items0 + Shallows(mi, stack, fs)
  {
    items := items0;
    for i := 0 to |mi|
      invariant items == items0 + Shallows(mi[..i], stack, fs)
    {
      var entry := ComputeItemShallow(mi[i], stack, fs);
      PushStep(mi, i, stack, fs);
      items := items + [entry];
    }
    assert mi[..|mi|] == mi;
  }

  /** compute_menu_deep: pushes a frame with `menu`'s icon directories,
      pushes one shallow entry per child, then for each submenu child sets
      its entry's offset to the current length and recurses, and finally
      pops the frame. `items` and `stack` stand for the vectors the source
      borrows mutably: what comes in is extended, never changed, except for
      the offsets of entries pushed here. */
  method ComputeMenuDeep(menu: Menu, items0: seq<ComputedItem>, stack0: seq<Frame>, fs: Listing)
    returns (items: seq<ComputedItem>, stack: seq<Frame>)
    decreases menu
    ensures stack == stack0
    ensures items == items0 + Flatten(menu, stack0, |items0|, fs)
  {
    stack := stack0 + [Frame(menu.iconDirs)];
    items := items0;
    var currentIndex := |items|;
    ghost var start := |items0| + |menu.items|;

    items := PushShallow(menu.items, items, stack, fs);
    ProgressStart(menu.items, stack, start, fs);

    for i := 0 to |menu.items|
      invariant stack == stack0 + [Frame(menu.iconDirs)]
      invariant currentIndex == |items0| + i
      invariant items == items0 + Progress(menu.items, i, stack, start, fs)
    {
      var item := menu.items[i];
      if item.contents.SubMenu? {
        ghost var before := items;
        EntryIsMenu(items0, menu.items, i, stack, start, fs, items);
        var offset := |items|;
        if items[currentIndex].MenuEntry? {
          items := items[currentIndex := MenuEntry(items[currentIndex].menu.(itemsOffset := offset))];
        }
        SubMenuStep(items0, menu.items, i, stack, start, fs, before, items);
        items, stack := ComputeMenuDeep(item.contents.menu, items, stack, fs);
      } else {
        ProgramStep(menu.items, i, stack, start, fs);
      }
      currentIndex := currentIndex + 1;
    }

    stack := stack[..|stack| - 1];
    ProgressDone(menu, stack0, |items0|, fs);
  }

  /*************************************************************************
   * The whole configuration (compute_config, get_computed_config)
   *************************************************************************/

  function Compiled(menu: Menu, hash: seq<Byte>, defaults: Frame, fs: Listing): ComputedConfig
  {
    ComputedConfig(hash, ShallowMenu(menu, [defaults], fs), Flatten(menu, [defaults], 0, fs))
  }

  function ConfigSpec(doc: Option<seq<Kdl.Node>>, home: HomeDir, digest: seq<Byte>, defaults: Frame, fs: Listing)
    : Result<ComputedConfig, Error>
    requires |digest| >= 8
  {
    match ParseConfigSpec(doc, home)
    case Err(e) => Err(e)
    case Ok(menu) => Ok(Compiled(menu, digest[..8], defaults, fs))
  }

  /** compute_config: parse, build the root's own input with only the
      default frame, then flatten the tree below it. `defaults` stands for
      the frame built from the environment. */
  method ComputeConfig(doc: Option<seq<Kdl.Node>>, home: HomeDir, digest: seq<Byte>, defaults: Frame, fs: Listing)
    returns (r: Result<ComputedConfig, Error>)
    requires |digest| >= 8
    ensures r == ConfigSpec(doc, home, digest, defaults, fs)
  {
    var config := ParseConfig(doc, home);
    if config.Err? {
      return Err(config.error);
    }
    var items: seq<ComputedItem> := [];
    var stack := [defaults];
    var initialMenu := ComputeMenuShallow(config.value, stack, fs);
    initialMenu := initialMenu.(itemsOffset := 0);
    items, stack := ComputeMenuDeep(config.value, items, stack, fs);
    assert [] + Flatten(config.value, [defaults], 0, fs) == Flatten(config.value, [defaults], 0, fs);
    return Ok(ComputedConfig(digest[..8], initialMenu, items));
  }

  /** What reading the configuration file gives: the SHA-256 digest of its
      text and what the KDL library made of it (`None`: not a document). */
  datatype Source = Source(digest: seq<Byte>, doc: Option<seq<Kdl.Node>>)

  /** The cache decision of get_computed_config. `read` is `None` when the
      file cannot be read; `cached` is what decoding the cache file gave. */
  function Gate(read: Option<Source>, cached: Option<ComputedConfig>, home: HomeDir, defaults: Frame, fs: Listing)
    : Result<ComputedConfig, Error>
    requires read.Some? ==> |read.value.digest| == 32
  {
    match read
    case None => Err(ReadFailed)
    case Some(src) =>
      if cached.Some? && cached.value.hash == src.digest[..8] then Ok(cached.value)
      else ConfigSpec(src.doc, home, src.digest, defaults, fs)
  }

  /** get_computed_config, without the file reads and the cache write. */
  method GetComputedConfig(read: Option<Source>, cached: Option<ComputedConfig>, home: HomeDir,
                           defaults: Frame, fs: Listing)
    returns (r: Result<ComputedConfig, Error>)
    requires read.Some? ==> |read.value.digest| == 32
    ensures r == Gate(read, cached, home, defaults, fs)
  {
    if read.None? {
      return Err(ReadFailed);
    }
    var actualHash := read.value.digest;
    if cached.Some? && cached.value.hash == actualHash[..8] {
      return Ok(cached.value);
    }
    r := ComputeConfig(read.value.doc, home, actualHash, defaults, fs);
  }
}
