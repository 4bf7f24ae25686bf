/**
 * What the selector reads back from a menu's input text: one row per item,
 * in item order, each row the item's name followed, when an icon was found,
 * by the `icon` row option naming the icon file. Also the order in which
 * icon directories are searched.
 */
module MenuInput {
  import opened Wrappers
  import opened Common
  import opened ConfigParse
  import opened Icons
  import opened Compute

  /** Index of the first `c` in `s`. */
  function IndexOf(s: string, c: char): (r: Option<nat>)
    ensures r.Some? ==> r.value < |s| && s[r.value] == c
  {
    if s == [] then None
    else if s[0] == c then Some(0)
    else
      match IndexOf(s[1..], c)
      case None => None
      case Some(i) => Some(i + 1)
  }

  lemma {:induction false} IndexOfAbsent(s: string, c: char)
    requires c !in s
    ensures IndexOf(s, c) == None
  {
    if s != [] {
      assert s[0] in s;
      assert forall x :: x in s[1..] ==> x in s;
      IndexOfAbsent(s[1..], c);
    }
  }

  lemma {:induction false} IndexOfPresent(s: string, c: char)
    requires c in s
    ensures IndexOf(s, c).Some?
  {
    if s[0] != c {
      assert s == [s[0]] + s[1..];
      IndexOfPresent(s[1..], c);
    }
  }

  /** The first `c` of `a + b` is the first of `b` when `a` has none. */
  lemma {:induction false} IndexOfAfter(a: string, b: string, c: char)
    requires c !in a && IndexOf(b, c).Some?
    ensures IndexOf(a + b, c) == Some(|a| + IndexOf(b, c).value)
  {
    if a == [] {
      assert a + b == b;
    } else {
      assert (a + b)[0] == a[0];
      assert (a + b)[1..] == a[1..] + b;
      assert forall x :: x in a[1..] ==> x in a;
      IndexOfAfter(a[1..], b, c);
    }
  }

  /** A prefix that holds `c` decides where the first `c` is. */
  lemma {:induction false} IndexOfWithin(a: string, b: string, c: char)
    requires IndexOf(a, c).Some?
    ensures IndexOf(a + b, c) == IndexOf(a, c)
  {
    if a[0] != c {
      assert (a + b)[0] == a[0];
      assert (a + b)[1..] == a[1..] + b;
      IndexOfWithin(a[1..], b, c);
    }
  }

  /** The rows of a text: the pieces between newlines, a last piece
      without a newline counting as a row when it is not empty. */
  function Rows(s: string): seq<string>
    decreases |s|
  {
    match IndexOf(s, '\n')
    case None => if s == "" then [] else [s]
    case Some(i) => [s[..i]] + Rows(s[i + 1..])
  }

  /** A text that is empty or ends in a newline. */
  predicate Complete(s: string)
  {
    s == "" || s[|s| - 1] == '\n'
  }

  /** Rows of complete texts concatenate. */
  lemma {:induction false} RowsConcat(a: string, b: string)
    requires Complete(a)
    ensures Rows(a + b) == Rows(a) + Rows(b)
    decreases |a|
  {
    if a == "" {
      assert a + b == b;
    } else {
      assert a[|a| - 1] in a;
      IndexOfPresent(a, '\n');
      var i := IndexOf(a, '\n').value;
      IndexOfWithin(a, b, '\n');
      assert (a + b)[..i] == a[..i];
      assert (a + b)[i + 1..] == a[i + 1..] + b;
      RowsConcat(a[i + 1..], b);
    }
  }

  /** A newline-free row followed by a newline is one row. */
  lemma OneRow(row: string)
    requires '\n' !in row
    ensures Rows(row + "\n") == [row]
  {
    var s := row + "\n";
    assert IndexOf("\n", '\n') == Some(0);
    IndexOfAfter(row, "\n", '\n');
    assert s[..|row|] == row;
    assert s[|row| + 1..] == "";
  }

  /** What the selector makes of a row: the text before the first NUL is
      shown, and an `icon` option right after it names the icon file. */
  function DecodeRow(row: string): (string, Option<Path>)
  {
    match IndexOf(row, '\0')
    case None => (row, None)
    case Some(i) =>
      var options := row[i..];
      if |options| >= |IconMarker| && options[..|IconMarker|] == IconMarker then
        (row[..i], Some(options[|IconMarker|..]))
      else (row[..i], None)
  }

  /** The icon file the search finds for an item, if any. */
  function FoundIcon(icon: Option<string>, dirs: seq<Path>, fs: Listing): Option<Path>
  {
    match icon
    case None => None
    case Some(name) => FirstIcon(Candidates(fs, dirs), name)
  }

  /** A found icon is one of the searched entries. */
  lemma FoundIconListed(icon: Option<string>, dirs: seq<Path>, fs: Listing)
    requires FoundIcon(icon, dirs, fs).Some?
    ensures exists k :: 0 <= k < |Candidates(fs, dirs)| && Candidates(fs, dirs)[k] == FoundIcon(icon, dirs, fs).value
  {
    FirstIconMeaning(Candidates(fs, dirs), icon.value);
  }

  /** One item's line is one row: the item's name followed by the icon
      part, since neither the name, the icon marker nor a searched entry
      holds a newline. */
  lemma LineIsRow(item: Item, dirs: seq<Path>, fs: Listing)
    requires '\n' !in item.name
    requires forall k :: 0 <= k < |Candidates(fs, dirs)| ==> '\n' !in Candidates(fs, dirs)[k]
    ensures Rows(Line(item, dirs, fs)) == [item.name + IconSuffix(item.icon, dirs, fs)]
  {
    var suffix := IconSuffix(item.icon, dirs, fs);
    var row := item.name + suffix;
    if FoundIcon(item.icon, dirs, fs).Some? {
      var p := FoundIcon(item.icon, dirs, fs).value;
      FoundIconListed(item.icon, dirs, fs);
      assert suffix == IconMarker + p;
      assert '\n' !in IconMarker;
      assert row == item.name + IconMarker + p;
    } else {
      assert row == item.name;
    }
    assert Line(item, dirs, fs) == row + "\n";
    OneRow(row);
  }

  /** One item's line is one row, and that row decodes to the item's name
      and the icon found for it. */
  lemma LineRow(item: Item, dirs: seq<Path>, fs: Listing)
    requires '\n' !in item.name && '\0' !in item.name
    requires forall k :: 0 <= k < |Candidates(fs, dirs)| ==> '\n' !in Candidates(fs, dirs)[k]
    ensures Rows(Line(item, dirs, fs)) == [item.name + IconSuffix(item.icon, dirs, fs)]
    ensures DecodeRow(item.name + IconSuffix(item.icon, dirs, fs)) == (item.name, FoundIcon(item.icon, dirs, fs))
  {
    var suffix := IconSuffix(item.icon, dirs, fs);
    var row := item.name + suffix;
    LineIsRow(item, dirs, fs);
    if FoundIcon(item.icon, dirs, fs).Some? {
      var p := FoundIcon(item.icon, dirs, fs).value;
      assert suffix == IconMarker + p;
      assert IndexOf(IconMarker + p, '\0') == Some(0);
      IndexOfAfter(item.name, IconMarker + p, '\0');
      assert row == item.name + (IconMarker + p);
      assert row[|item.name|..] == IconMarker + p;
      assert row[..|item.name|] == item.name;
      assert (IconMarker + p)[..|IconMarker|] == IconMarker;
      assert (IconMarker + p)[|IconMarker|..] == p;
    } else {
      assert suffix == "";
      assert row == item.name;
      IndexOfAbsent(item.name, '\0');
    }
  }

  /** A menu's input text ends in a newline unless it is empty. */
  lemma InputComplete(items: seq<Item>, dirs: seq<Path>, fs: Listing)
    ensures Complete(Input(items, dirs, fs))
  {
    if items != [] {
      var l := Line(items[|items| - 1], dirs, fs);
      var s := Input(items, dirs, fs);
      assert s[|s| - 1] == l[|l| - 1];
    }
  }

  /** What the selector shows for each row, in order. */
  function Decoded(rs: seq<string>): seq<(string, Option<Path>)>
  {
    if rs == [] then [] else Decoded(rs[..|rs| - 1]) + [DecodeRow(rs[|rs| - 1])]
  }

  /** What each item should show: its name and the icon found for it. */
  function Shown(items: seq<Item>, dirs: seq<Path>, fs: Listing): seq<(string, Option<Path>)>
  {
    if items == [] then []
    else Shown(items[..|items| - 1], dirs, fs) + [(items[|items| - 1].name, FoundIcon(items[|items| - 1].icon, dirs, fs))]
  }

  lemma {:induction false} DecodedAt(rs: seq<string>, j: nat)
    requires j < |rs|
    ensures |Decoded(rs)| == |rs| && Decoded(rs)[j] == DecodeRow(rs[j])
  {
    var init := rs[..|rs| - 1];
    if j < |init| {
      DecodedAt(init, j);
    } else {
      if init != [] {
        DecodedAt(init, 0);
      }
    }
  }

  lemma {:induction false} ShownAt(items: seq<Item>, dirs: seq<Path>, fs: Listing, j: nat)
    requires j < |items|
    ensures |Shown(items, dirs, fs)| == |items|
    ensures Shown(items, dirs, fs)[j] == (items[j].name, FoundIcon(items[j].icon, dirs, fs))
  {
    var init := items[..|items| - 1];
    if j < |init| {
      ShownAt(init, dirs, fs, j);
    } else if init != [] {
      ShownAt(init, dirs, fs, 0);
    }
  }

  lemma DecodedSnoc(rs: seq<string>, row: string)
    ensures Decoded(rs + [row]) == Decoded(rs) + [DecodeRow(row)]
  {
    assert (rs + [row])[..|rs|] == rs;
  }

  /** The row each item should give: its name, then its icon part. */
  function RowTexts(items: seq<Item>, dirs: seq<Path>, fs: Listing): seq<string>
  {
    if items == [] then []
    else RowTexts(items[..|items| - 1], dirs, fs) + [items[|items| - 1].name + IconSuffix(items[|items| - 1].icon, dirs, fs)]
  }

  lemma {:induction false} RowTextsAt(items: seq<Item>, dirs: seq<Path>, fs: Listing, j: nat)
    requires j < |items|
    ensures |RowTexts(items, dirs, fs)| == |items|
    ensures RowTexts(items, dirs, fs)[j] == items[j].name + IconSuffix(items[j].icon, dirs, fs)
  {
    var init := items[..|items| - 1];
    if j < |init| {
      RowTextsAt(init, dirs, fs, j);
    } else if init != [] {
      RowTextsAt(init, dirs, fs, 0);
    }
  }

  /** The rows of a menu's input are the items' row texts, in order. */
  lemma {:induction false} InputRowTexts(items: seq<Item>, dirs: seq<Path>, fs: Listing)
    requires forall j :: 0 <= j < |items| ==> '\n' !in items[j].name
    requires forall k :: 0 <= k < |Candidates(fs, dirs)| ==> '\n' !in Candidates(fs, dirs)[k]
    ensures Rows(Input(items, dirs, fs)) == RowTexts(items, dirs, fs)
  {
    if items != [] {
      var init := items[..|items| - 1];
      var last := items[|items| - 1];
      assert forall j :: 0 <= j < |init| ==> init[j] == items[j];
      InputRowTexts(init, dirs, fs);
      LineIsRow(last, dirs, fs);
      InputComplete(init, dirs, fs);
      RowsConcat(Input(init, dirs, fs), Line(last, dirs, fs));
    }
  }

  /** The selector input of a menu holds exactly one row per item, in
      order: row `j` is item `j`'s name followed by its icon part. Only
      newlines matter here: names and searched entries must hold none. */
  lemma InputRowCount(items: seq<Item>, dirs: seq<Path>, fs: Listing)
    requires forall j :: 0 <= j < |items| ==> '\n' !in items[j].name
    requires forall k :: 0 <= k < |Candidates(fs, dirs)| ==> '\n' !in Candidates(fs, dirs)[k]
    ensures |Rows(Input(items, dirs, fs))| == |items|
    ensures forall j :: 0 <= j < |items| ==>
              Rows(Input(items, dirs, fs))[j] == items[j].name + IconSuffix(items[j].icon, dirs, fs)
  {
    InputRowTexts(items, dirs, fs);
    if items != [] {
      RowTextsAt(items, dirs, fs, 0);
    }
    forall j | 0 <= j < |items|
      ensures RowTexts(items, dirs, fs)[j] == items[j].name + IconSuffix(items[j].icon, dirs, fs)
    {
      RowTextsAt(items, dirs, fs, j);
    }
  }

  /** The rows of a menu's input decode, in order, to what its items should
      show. */
  lemma {:induction false} InputDecodes(items: seq<Item>, dirs: seq<Path>, fs: Listing)
    requires forall j :: 0 <= j < |items| ==> '\n' !in items[j].name && '\0' !in items[j].name
    requires forall k :: 0 <= k < |Candidates(fs, dirs)| ==> '\n' !in Candidates(fs, dirs)[k]
    ensures Decoded(Rows(Input(items, dirs, fs))) == Shown(items, dirs, fs)
  {
    if items != [] {
      var init := items[..|items| - 1];
      var last := items[|items| - 1];
      assert forall j :: 0 <= j < |init| ==> init[j] == items[j];
      InputDecodes(init, dirs, fs);
      LineRow(last, dirs, fs);
      var prefix := Input(init, dirs, fs);
      var row := last.name + IconSuffix(last.icon, dirs, fs);
      InputComplete(init, dirs, fs);
      RowsConcat(prefix, Line(last, dirs, fs));
      DecodedSnoc(Rows(prefix), row);
    }
  }

  /** The selector input of a menu holds exactly one row per item, in
      order, and row `j` decodes to item `j`'s name and the icon found for
      it (no icon marker at all when the item names no icon or none is
      found), provided names hold no newline and the searched entries hold
      no newline, which keeps one row per item, and names hold no NUL,
      which would otherwise cut the shown name short. */
  lemma InputRows(items: seq<Item>, dirs: seq<Path>, fs: Listing)
    requires forall j :: 0 <= j < |items| ==> '\n' !in items[j].name && '\0' !in items[j].name
    requires forall k :: 0 <= k < |Candidates(fs, dirs)| ==> '\n' !in Candidates(fs, dirs)[k]
    ensures |Rows(Input(items, dirs, fs))| == |items|
    ensures forall j :: 0 <= j < |items| ==>
              DecodeRow(Rows(Input(items, dirs, fs))[j]) == (items[j].name, FoundIcon(items[j].icon, dirs, fs))
  {
    var rs := Rows(Input(items, dirs, fs));
    InputDecodes(items, dirs, fs);
    if items != [] {
      ShownAt(items, dirs, fs, 0);
      if rs != [] {
        DecodedAt(rs, 0);
      }
    }
    forall j | 0 <= j < |items|
      ensures DecodeRow(rs[j]) == (items[j].name, FoundIcon(items[j].icon, dirs, fs))
    {
      ShownAt(items, dirs, fs, j);
      DecodedAt(rs, j);
    }
  }

  /*************************************************************************
   * Icon directory order
   *************************************************************************/

  /** Frames pushed later are searched first: the directories of an inner
      part of the stack come before those of the outer part. */
  lemma {:induction false} StackDirsAppend(outer: seq<Frame>, inner: seq<Frame>)
    ensures StackDirs(outer + inner) == StackDirs(inner) + StackDirs(outer)
    decreases |inner|
  {
    if inner == [] {
      assert outer + inner == outer;
    } else {
      var init := inner[..|inner| - 1];
      assert (outer + inner)[..|outer + inner| - 1] == outer + init;
      StackDirsAppend(outer, init);
    }
  }

  /** A menu's own directories are searched before any inherited one: an
      icon found there is the answer, and only when none is found there do
      the inherited directories count. */
  lemma OwnDirsFirst(menu: Menu, stack: seq<Frame>, fs: Listing, name: string)
    ensures FirstIcon(Candidates(fs, SearchDirs(menu, stack)), name) ==
            if FirstIcon(Candidates(fs, menu.iconDirs), name).Some? then FirstIcon(Candidates(fs, menu.iconDirs), name)
            else FirstIcon(Candidates(fs, StackDirs(stack)), name)
  {
    CandidatesAppend(fs, menu.iconDirs, StackDirs(stack));
    FirstWhereAppend(Candidates(fs, menu.iconDirs), Candidates(fs, StackDirs(stack)), IconTest(name));
  }
}
