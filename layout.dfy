/**
 * What the flat entry vector promises the launcher, which reaches child `i`
 * of a menu at `items[items_offset + i]`: every menu's children sit
 * side by side at its offset, in declaration order, each carrying what the
 * launcher needs (a program's command, a submenu's arguments and input, and
 * again an offset to its own children).
 */
module Layout {
  import opened Wrappers
  import opened Common
  import opened ConfigParse
  import opened Compute

  /** Entry `k` of `items` is the compiled form of `item`, shown in a menu
      whose inheritance stack is `st`. */
  ghost predicate EntryFor(items: seq<ComputedItem>, k: nat, item: Item, st: seq<Frame>, fs: Icons.Listing)
    decreases item
  {
    k < |items| &&
    match item.contents
    case Prog(p) => items[k] == ProgramEntry(ComputedProgram(p.command))
    case SubMenu(m) =>
      items[k].MenuEntry? &&
      items[k].menu.args == m.fuzzelArgs &&
      items[k].menu.input == Input(m.items, SearchDirs(m, st), fs) &&
      Lays(items, items[k].menu.itemsOffset, m, st + [Frame(m.iconDirs)], fs)
  }

  /** The children of `m` sit at `items[off .. off + |m.items|]`, in order;
      `st` is the stack their own inputs were computed with. */
  ghost predicate Lays(items: seq<ComputedItem>, off: nat, m: Menu, st: seq<Frame>, fs: Icons.Listing)
    decreases m
  {
    off + |m.items| <= |items| &&
    forall j :: 0 <= j < |m.items| ==> EntryFor(items, off + j, m.items[j], st, fs)
  }

  lemma {:induction false} NestedCountPrefix(items: seq<Item>, j: nat, k: nat)
    requires j <= k <= |items|
    ensures NestedCount(items[..j]) <= NestedCount(items[..k])
    decreases k - j
  {
    if j < k {
      NestedCountPrefix(items, j, k - 1);
      assert items[..k][..k - 1] == items[..k - 1];
    }
  }

  lemma NestedCountStep(items: seq<Item>, j: nat)
    requires j < |items|
    ensures NestedCount(items[..j + 1]) == NestedCount(items[..j]) + BelowCount(items[j])
  {
    assert items[..j + 1][..j] == items[..j];
  }

  /** The subtrees of a prefix of the children are a prefix of theirs. */
  lemma {:induction false} SubtreesPrefix(items: seq<Item>, k: nat, st: seq<Frame>, start: nat, fs: Icons.Listing)
    returns (rest: seq<ComputedItem>)
    requires k <= |items|
    ensures Subtrees(items, st, start, fs) == Subtrees(items[..k], st, start, fs) + rest
    decreases |items|
  {
    if k == |items| {
      assert items[..k] == items;
      rest := [];
    } else {
      var init := items[..|items| - 1];
      assert init[..k] == items[..k];
      var r := SubtreesPrefix(init, k, st, start, fs);
      rest := r + SubtreeOf(items[|items| - 1], st, start + NestedCount(init), fs);
    }
  }

  /** Submenu child `j` of a menu flattened after `pre`: its entry in the
      children block `s` points just past `s` and the subtrees `t` of the
      children before it. */
  lemma ChildEntry(pre: seq<ComputedItem>, m: Menu, anc: seq<Frame>, fs: Icons.Listing, j: nat,
                   s: seq<ComputedItem>, t: seq<ComputedItem>)
    requires j < |m.items| && m.items[j].contents.SubMenu?
    requires s == Staged(m.items, |m.items|, anc + [Frame(m.iconDirs)], |pre| + |m.items|, fs)
    requires t == Subtrees(m.items[..j], anc + [Frame(m.iconDirs)], |pre| + |m.items|, fs)
    ensures |pre + (s + t)| == |pre| + |m.items| + NestedCount(m.items[..j])
    ensures j < |s| &&
            s[j] == MenuEntry(ShallowMenu(m.items[j].contents.menu, anc + [Frame(m.iconDirs)], fs)
                                .(itemsOffset := |pre + (s + t)|))
  {
    var st := anc + [Frame(m.iconDirs)];
    var start := |pre| + |m.items|;
    SubtreesLength(m.items[..j], st, start, fs);
    StagedAt(m.items, |m.items|, st, start, fs, j);
  }

  /** A flattened menu cut around the subtree of submenu child `j`, which
      starts at `off`. */
  lemma FlattenAround(m: Menu, anc: seq<Frame>, base: nat, fs: Icons.Listing, j: nat, off: nat)
    returns (rest: seq<ComputedItem>)
    requires j < |m.items| && m.items[j].contents.SubMenu?
    requires off == base + |m.items| + NestedCount(m.items[..j])
    ensures Flatten(m, anc, base, fs) ==
            Staged(m.items, |m.items|, anc + [Frame(m.iconDirs)], base + |m.items|, fs) +
            (Subtrees(m.items[..j], anc + [Frame(m.iconDirs)], base + |m.items|, fs) +
             (Flatten(m.items[j].contents.menu, anc + [Frame(m.iconDirs)], off, fs) + rest))
  {
    var st := anc + [Frame(m.iconDirs)];
    var start := base + |m.items|;
    SubMenuSubtree(m.items, j, st, start, fs, off);
    rest := SubtreesPrefix(m.items, j + 1, st, start, fs);
    Regroup(Subtrees(m.items[..j], st, start, fs), Flatten(m.items[j].contents.menu, st, off, fs), rest);
  }

  /** Regrouping a vector around the piece `c` in its middle. */
  lemma Around<X>(pre: seq<X>, a: seq<X>, b: seq<X>, c: seq<X>, d: seq<X>, post: seq<X>)
    ensures pre + (a + (b + (c + d))) + post == (pre + (a + b)) + c + (d + post)
  {
  }

  /** Indexing into the head of a middle piece. */
  lemma IndexInMiddle<X>(pre: seq<X>, a: seq<X>, b: seq<X>, post: seq<X>, j: nat)
    requires j < |a|
    ensures |pre| + j < |pre + (a + b) + post| && (pre + (a + b) + post)[|pre| + j] == a[j]
  {
  }

  /** Whatever comes before and after it, a flattened menu lays out its
      children at the position it was appended at. */
  lemma {:induction false} FlattenLays(pre: seq<ComputedItem>, m: Menu, anc: seq<Frame>,
                                       post: seq<ComputedItem>, fs: Icons.Listing)
    ensures Lays(pre + Flatten(m, anc, |pre|, fs) + post, |pre|, m, anc + [Frame(m.iconDirs)], fs)
    decreases m, 2
  {
    FlattenLength(m, anc, |pre|, fs);
    forall j | 0 <= j < |m.items|
      ensures EntryFor(pre + Flatten(m, anc, |pre|, fs) + post, |pre| + j, m.items[j],
                       anc + [Frame(m.iconDirs)], fs)
    {
      ChildLays(pre, m, anc, post, fs, j);
    }
  }

  lemma {:induction false} ChildLays(pre: seq<ComputedItem>, m: Menu, anc: seq<Frame>,
                                     post: seq<ComputedItem>, fs: Icons.Listing, j: nat)
    requires j < |m.items|
    ensures EntryFor(pre + Flatten(m, anc, |pre|, fs) + post, |pre| + j, m.items[j],
                     anc + [Frame(m.iconDirs)], fs)
    decreases m, 1
  {
    if m.items[j].contents.SubMenu? {
      SubMenuChildLays(pre, m, anc, post, fs, j);
    } else {
      var st := anc + [Frame(m.iconDirs)];
      var start := |pre| + |m.items|;
      FlattenLength(m, anc, |pre|, fs);
      StagedAt(m.items, |m.items|, st, start, fs, j);
      assert (pre + Flatten(m, anc, |pre|, fs) + post)[|pre| + j] == Staged(m.items, |m.items|, st, start, fs)[j];
    }
  }

  lemma {:induction false} SubMenuChildLays(pre: seq<ComputedItem>, m: Menu, anc: seq<Frame>,
                                            post: seq<ComputedItem>, fs: Icons.Listing, j: nat)
    requires j < |m.items| && m.items[j].contents.SubMenu?
    ensures EntryFor(pre + Flatten(m, anc, |pre|, fs) + post, |pre| + j, m.items[j],
                     anc + [Frame(m.iconDirs)], fs)
    decreases m, 0
  {
    var sm := m.items[j].contents.menu;
    var st := anc + [Frame(m.iconDirs)];
    var start := |pre| + |m.items|;
    var f := Flatten(m, anc, |pre|, fs);
    var v := pre + f + post;
    var s := Staged(m.items, |m.items|, st, start, fs);
    var t := Subtrees(m.items[..j], st, start, fs);
    ChildEntry(pre, m, anc, fs, j, s, t);
    var pre' := pre + (s + t);
    var rest := FlattenAround(m, anc, |pre|, fs, j, |pre'|);
    var sub := Flatten(sm, st, |pre'|, fs);
    IndexInMiddle(pre, s, t + (sub + rest), post, j);
    Around(pre, s, t, sub, rest, post);
    FlattenLays(pre', sm, st, rest + post, fs);
    assert v == pre' + sub + (rest + post);
  }

  /** Where submenu child `j` of a flattened menu has its children. */
  lemma ChildOffset(m: Menu, anc: seq<Frame>, base: nat, fs: Icons.Listing, j: nat)
    requires j < |m.items| && m.items[j].contents.SubMenu?
    ensures Flatten(m, anc, base, fs)[j].MenuEntry?
    ensures Flatten(m, anc, base, fs)[j].menu.itemsOffset == base + |m.items| + NestedCount(m.items[..j])
  {
    var st := anc + [Frame(m.iconDirs)];
    var start := base + |m.items|;
    StagedAt(m.items, |m.items|, st, start, fs, j);
  }

  /** The child blocks of sibling submenus follow the parent's own block in
      declaration order and never overlap: an earlier sibling's whole
      subtree ends before a later sibling's children start, and every
      subtree ends within the parent's. */
  lemma SiblingBlocks(m: Menu, anc: seq<Frame>, base: nat, fs: Icons.Listing, j: nat, k: nat)
    requires j < k < |m.items|
    requires m.items[j].contents.SubMenu? && m.items[k].contents.SubMenu?
    ensures var f := Flatten(m, anc, base, fs);
            f[j].MenuEntry? && f[k].MenuEntry? &&
            base + |m.items| <= f[j].menu.itemsOffset &&
            f[j].menu.itemsOffset + Count(m.items[j].contents.menu) <= f[k].menu.itemsOffset &&
            f[k].menu.itemsOffset + Count(m.items[k].contents.menu) <= base + Count(m)
  {
    ChildOffset(m, anc, base, fs, j);
    ChildOffset(m, anc, base, fs, k);
    NestedCountStep(m.items, j);
    NestedCountPrefix(m.items, j + 1, k);
    NestedCountStep(m.items, k);
    NestedCountPrefix(m.items, k + 1, |m.items|);
    assert m.items[..|m.items|] == m.items;
  }

  /** compute_config's result for an accepted document: the root's input is
      computed with the default frame only, its offset is 0, its children
      open the vector, every menu below is laid out as above, the vector
      has one entry per item of the tree, and the first 8 bytes of the
      digest are kept. */
  lemma ConfigLayout(doc: Option<seq<Kdl.Node>>, home: HomeDir, digest: seq<Byte>, defaults: Frame, fs: Icons.Listing)
    requires |digest| >= 8
    ensures ConfigSpec(doc, home, digest, defaults, fs).Ok? <==> ParseConfigSpec(doc, home).Ok?
    ensures ConfigSpec(doc, home, digest, defaults, fs).Err? ==>
              ConfigSpec(doc, home, digest, defaults, fs).error == ParseConfigSpec(doc, home).error
    ensures ConfigSpec(doc, home, digest, defaults, fs).Ok? ==>
              var m := ParseConfigSpec(doc, home).value;
              var c := ConfigSpec(doc, home, digest, defaults, fs).value;
              c.hash == digest[..8] &&
              c.initialMenu.itemsOffset == 0 &&
              c.initialMenu.args == m.fuzzelArgs &&
              c.initialMenu.input == Input(m.items, m.iconDirs + defaults.iconDirs, fs) &&
              |c.items| == Count(m) &&
              Lays(c.items, 0, m, [defaults, Frame(m.iconDirs)], fs)
  {
    if ParseConfigSpec(doc, home).Ok? {
      var m := ParseConfigSpec(doc, home).value;
      var f := Flatten(m, [defaults], 0, fs);
      FlattenLength(m, [defaults], 0, fs);
      FlattenLays([], m, [defaults], [], fs);
      assert [] + f + [] == f;
      assert [defaults] + [Frame(m.iconDirs)] == [defaults, Frame(m.iconDirs)];
      assert StackDirs([defaults]) == defaults.iconDirs + StackDirs([]);
      assert defaults.iconDirs + [] == defaults.iconDirs;
    }
  }
}
