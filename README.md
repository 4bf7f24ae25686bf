# uff menu compiler — a Dafny model

uff is a launcher front end. It reads a KDL file that describes a tree of
menus and programs. It compiles that tree into a flat vector of entries. It
caches the result in a file named after the configuration file, tagged with
the first 8 bytes of its SHA-256 digest, and reuses it only while those
bytes match. It
then drives `fuzzel` one menu at a time. The selector sees each menu as a
text buffer with one line per item. When the user picks item `i` of a menu,
the launcher opens `items[items_offset + i]` (src/main.rs:58).

This project models the compiler core and proves what the launcher relies
on:

- **Node-tree parsers.** Both revisions are modelled, each from an already
  parsed node tree:
  - `Parser` (src/parser.rs): `fuzzel-config` is an ordered list of pairs,
    and there is a `no-sort` flag.
  - `ConfigParse` (the older copy inside src/config.rs): `fuzzel-config` is
    a hash map, `no-sort` is unknown, and the home directory is looked up at
    each `icon-dir` node.

  Each parser is written twice:
  - as specification functions: one `Directive` per node, folded in order;
  - as the imperative loops of the source, proved equal to those functions.

  `ParserProps` and `ConfigParseProps` prove the rules the parsers enforce.
- **Flattener.** `compute_config`, `compute_menu_deep` and
  `compute_item_shallow` are methods that thread the item vector and the
  inheritance stack. The vector they produce is proved equal to a
  closed-form `Flatten`. `Layout` then proves that every menu's children sit
  side by side at that menu's `items_offset`.
- **Menu input builder.** `compute_menu_shallow` is a loop over the items,
  proved equal to `Input`. `MenuInput` proves three things:
  - the text has one row per item, in order;
  - each row decodes back to the item's name and the icon found for it;
  - the icon directories are searched in the order the source sets.
- **Icon search.** `search_for_icon` runs over an abstract listing: for each
  directory, the paths a recursive walk yields. The search is proved to
  return the first `NAME.png` / `NAME.svg` in directory order.
- **Cache gate.** The decision in `get_computed_config` is modelled, with
  the file read, the digest and the decoded cache given as inputs.

Files:

| file | contents |
|---|---|
| `wrappers.dfy` | `Option`, `Result` |
| `kdl.dfy` | the node tree the KDL library hands over |
| `common.dfy` | errors, and the checks both parser revisions share |
| `parser.dfy` | the src/parser.rs parser |
| `config_parse.dfy` | the src/config.rs parser |
| `parser_props.dfy` | properties of the src/parser.rs parser |
| `config_parse_props.dfy` | properties of the src/config.rs parser |
| `parser_examples.dfy` | the unit-test documents of src/parser.rs |
| `paths.dfy` | the `file_name` / `file_stem` / `extension` logic |
| `icons.dfy` | the icon search |
| `compute.dfy` | the flattener, the menu input builder and the cache gate |
| `layout.dfy` | what the flat vector promises the launcher |
| `menu_input.dfy` | what the selector reads back from a menu's input |
| `cache.dfy` | cache gate properties |

Behaviour of the code worth noting:

- A program with no `command` child gets an empty command.
- An `icon-dir` path that is not absolute after `~` expansion fails the
  parse.
- An item whose icon is not found gets no icon marker at all.
- In a menu body, an `icon` node is skipped without any check, so at the
  root an `icon` node is never examined.
- The children of a `fuzzel-config` key are never examined.

## Model

| member | source | states |
|---|---|---|
| Parser.ParseConfig | src/parser.rs:33-38 | equals `ParseConfigSpec`; a document the KDL library rejects gives the "failed to parse" error |
| Parser.ParseMenuFromNodes | src/parser.rs:40-151 | the loop that updates args, config, icon dirs, items and `sort` in place returns exactly `ParseMenuSpec`; that is the fold of the node directives, and the first failing node aborts |
| Parser.ParseMenuNode | src/parser.rs:48-141 | the per-node checks, in the source's order, give `NodeDirective`: the node's effect or its error |
| Parser.CollectConfigPairs | src/parser.rs:67-92 | the `fuzzel-config` children loop returns `ConfigPairs`, stopping at the first bad key |
| Parser.ParseItemFromNodes | src/parser.rs:181-214 | the icon scan runs first, then the same children are parsed as a menu or a program; equals `ParseItemSpec` |
| Parser.DirectivesOk | src/parser.rs:47-141 | a menu body is accepted iff every node is accepted |
| Parser.DirectivesValues | src/parser.rs:47-141 | an accepted body gives one directive per node, in node order |
| Parser.DirectivesStopsAt | src/parser.rs:47-141 | after an accepted prefix, the first rejected node's error is the parse's error |
| Common.ParseProgramFromNodes | src/parser.rs:153-179 | the program loop equals `ProgramSpec`; a `command` clears the list before its checks run |
| Common.ProgramSpecMeaning | src/parser.rs:153-179 | accepted iff every child is a well-formed `command` or an `icon`; the command is empty when there is no `command` child, otherwise the last one's arguments |
| Common.ScanIcon | src/parser.rs:184-201 | the icon loop equals `IconSpec` |
| Common.IconSpecMeaning | src/parser.rs:184-201 | accepted iff every `icon` child has no children and one unnamed string; the icon is `None` iff there is no `icon` child, otherwise the last one's string |
| Common.CollectStrings | src/parser.rs:55-64 | the argument loop equals `StringArgs` and returns early on the first named or non-string entry |
| Common.StringArgsOk | src/parser.rs:55-64 | an argument list is accepted iff every entry is an unnamed string, and then gives those strings in order |
| Common.StringArgsStops | src/parser.rs:55-64 | the first bad entry decides the error: "named" if it has a name, otherwise "not a string" |
| Common.SingleString | src/parser.rs:118-129 | accepted iff there is exactly one entry and it is an unnamed string; the errors are checked in the order count, then name, then type |
| Common.ConfigPairsMeaning | src/parser.rs:76-92 | accepted iff every key has exactly one unnamed string value; then gives every (key, value) in declaration order |
| Common.ExpandTilde | src/parser.rs:108-112 | every `~` is replaced by the home string: a path with no `~` is unchanged, a leading `~` puts home at the front, other first characters stay, and no `~` remains when home has none |
| ParserProps.ParseMenuSnoc | src/parser.rs:47-141 | parsing `nodes + [n]` is one more `Step` on the result for `nodes`: an earlier error stands, otherwise `n`'s error, otherwise `n`'s directive applied |
| ParserProps.SortFlag | src/parser.rs:134-138 | in an accepted body, `sort` is true iff no node is named `no-sort` |
| ParserProps.NoSortShape | src/parser.rs:134-138 | `no-sort` with children fails first; then with arguments it fails; otherwise it clears `sort` |
| ParserProps.FuzzelArgsLastWins | src/parser.rs:49-65 | no `fuzzel-args` node gives `[]`; otherwise the args are the strings of the last `fuzzel-args` node; no `fuzzel-args` node of an accepted body has children |
| ParserProps.DirectiveOf | src/parser.rs:48-141 | what an accepted node contributes, by its name: `fuzzel-args` has no children and gives its strings; `fuzzel-config` has no arguments and a block of pairs; `icon-dir` gives its absolute expanded path; `menu`/`program` give their item; `no-sort` has neither arguments nor children; `icon` does nothing |
| ParserProps.ValidMenuNode | src/parser.rs:48-141 | a node is accepted iff it follows the per-name rules stated directly in `IsValidMenuNode` |
| ParserProps.BodyValid | src/parser.rs:47-141 | a menu body is accepted iff every node follows those rules |
| ParserProps.FuzzelConfigLastWins | src/parser.rs:67-92 | no block gives `[]`; otherwise the pairs are those of the last block, which has no arguments and a children block |
| ParserProps.IconDirsInOrder | src/parser.rs:94-115 | one path per `icon-dir` node, in order: its single string with `~` replaced by home, and absolute |
| ParserProps.ItemsInOrder | src/parser.rs:117-132 | one item per `menu`/`program` node, in order: named by its one unnamed string, of the node's kind, parsed from its children block |
| ParserProps.KnownNamesOnly | src/parser.rs:139-140 | every node of an accepted body has one of the seven known names |
| ParserProps.UnknownNameFails | src/parser.rs:140 | the first unknown node after an accepted prefix fails the whole parse with its name |
| ParserProps.NestedErrorAborts | src/parser.rs:131 | an error inside a nested item is the whole parse's error |
| ParserProps.MenuIconIgnored | src/parser.rs:139 | deleting an `icon` node from a menu body changes neither the menu nor the error |
| ParserExamples.SimpleProgram | src/parser.rs:222-234 | the first test document parses to one program item with command `["cmd1"]` |
| ParserExamples.ArgsConfigAndIcon | src/parser.rs:236-258 | the second test document gives those args, both pairs in order, and an item with icon `icon1` |
| ParserExamples.NestedMenu | src/parser.rs:260-292 | the third test document gives a program `Item1` and a submenu `Submenu1` whose own config is the pair (`subkey`, `subvalue`) and whose one program `Item2` has command `["cmd2", "arg2"]` |
| ConfigParse.ParseConfig | src/config.rs:257-262 | equals `ParseConfigSpec` |
| ConfigParse.ParseMenuFromNodes | src/config.rs:264-369 | the menu loop equals `ParseMenuSpec`, the fold of node directives |
| ConfigParse.ParseMenuNode | src/config.rs:271-360 | the per-node checks, in order, give `NodeDirective`; `no-sort` is an unexpected node |
| ConfigParse.CollectConfigMap | src/config.rs:290-316 | the `fuzzel-config` loop that inserts each pair into the map returns `ConfigMap` |
| ConfigParse.ParseItemFromNodes | src/config.rs:399-432 | equals `ParseItemSpec` |
| ConfigParse.DirectivesOk | src/config.rs:270-360 | a body is accepted iff every node is |
| ConfigParse.DirectivesStopsAt | src/config.rs:270-360 | the first rejected node after an accepted prefix gives the error |
| ConfigParseProps.ToMapKeys | src/config.rs:305-314 | the map's keys are exactly the keys inserted |
| ConfigParseProps.ToMapLastWins | src/config.rs:305-314 | a key holds the value of its last insertion |
| ConfigParseProps.ConfigMapMeaning | src/config.rs:290-316 | a block is accepted iff every key has one unnamed string; the map's keys are then exactly the block's key names |
| ConfigParseProps.ConfigMapLastWins | src/config.rs:290-316 | a key written several times keeps the value of its last line |
| ConfigParseProps.FuzzelArgsLastWins | src/config.rs:272-289 | no `fuzzel-args` node gives `[]`; otherwise the last node's strings; no `fuzzel-args` node of an accepted body has children |
| ConfigParseProps.DirectiveOf | src/config.rs:271-360 | what an accepted node contributes, by its name, as in src/parser.rs without `no-sort`, with `icon-dir` needing a usable home directory |
| ConfigParseProps.ValidMenuNode | src/config.rs:271-360 | a node is accepted iff it follows the per-name rules of `IsValidMenuNode`; `icon-dir` also needs a UTF-8 home directory |
| ConfigParseProps.BodyValid | src/config.rs:270-360 | a menu body is accepted iff every node follows those rules |
| ConfigParseProps.FuzzelConfigLastWins | src/config.rs:290-316 | no block gives the empty map; otherwise the last block's map replaces earlier ones |
| ConfigParseProps.IconDirsInOrder | src/config.rs:317-340 | one absolute path per `icon-dir` node, in order, with `~` expanded; an accepted body with an `icon-dir` had a usable home directory |
| ConfigParseProps.IconDirHome | src/config.rs:331-338 | after the argument checks pass: no home gives "unable to get home directory"; a non-UTF-8 home gives its own error; otherwise the expanded path must be absolute |
| ConfigParseProps.ItemsInOrder | src/config.rs:341-357 | one item per `menu`/`program` node, in order, named and parsed as in src/parser.rs |
| ConfigParseProps.KnownNamesOnly | src/config.rs:358-359 | an accepted body holds only the six known names, so never `no-sort` |
| ConfigParseProps.UnknownNameFails | src/config.rs:359 | the first unknown node after an accepted prefix, including `no-sort`, fails the parse with its name |
| ConfigParseProps.NestedErrorAborts | src/config.rs:356 | an error inside a nested item, after an accepted prefix, is the whole parse's error |
| ConfigParseProps.MenuIconIgnored | src/config.rs:358 | deleting an `icon` node from a menu body changes neither the menu nor the error |
| Icons.SearchWalk | src/config.rs:154-161 | the inner loop returns the first walked entry that is an icon for the name, or `None` |
| Icons.SearchForIcon | src/config.rs:152-164 | the nested loop returns `FirstIcon` over all walked entries of all directories, in directory order |
| Icons.FirstIconMeaning | src/config.rs:152-164 | nothing is found iff no entry is an icon for the name; otherwise the result is an icon, and none comes before it |
| Icons.FoundInDirectory | src/config.rs:153-163 | if the earlier directories hold no icon and directory `d` holds one, the result is the first in `d`, whatever later directories hold |
| Icons.CandidatesAppend | src/config.rs:153-154 | searching `a + b` sees all of `a`'s entries before `b`'s |
| Paths.IconForIff | src/config.rs:155-158 | an entry is an icon for `name` iff `name` is non-empty and the entry's file name is `name.png` or `name.svg` |
| Paths.SplitExtensionMeaning | src/config.rs:155-158 | stem + "." + extension is the file name; the stem is non-empty; the extension has no dot |
| Paths.SplitExtensionJoin | src/config.rs:155-158 | splitting `stem.ext` gives `(stem, ext)` back when the stem is non-empty and `ext` has no dot |
| Paths.FileNameShape | src/config.rs:155 | a file name is non-empty, not `..`, and has no `/` |
| Paths.FileNameJoin | src/config.rs:155 | the file name of `dir/f` is `f` for a plain component `f` |
| Compute.ComputeMenuShallow | src/config.rs:166-200 | returns the menu's args, offset 0, and `Input` over the dirs `menu.iconDirs` followed by the stack's dirs, newest frame first |
| Compute.ComputeItemShallow | src/config.rs:141-150 | a submenu gives its shallow menu; a program gives its command unchanged |
| Compute.PushShallow | src/config.rs:213-215 | the first loop appends the shallow entries of the children, in order, after the existing vector |
| Compute.ComputeMenuDeep | src/config.rs:202-229 | the new vector is the old one followed by `Flatten`, so earlier entries are untouched; the stack comes back unchanged |
| Compute.FlattenLength | src/config.rs:211-226 | a menu appends exactly `Count` entries: one per item of its whole subtree |
| Compute.ComputeConfig | src/config.rs:126-139 | equals `ConfigSpec`: the parse error, or the root's input over the default frame with offset 0, the flat vector and the digest's first 8 bytes |
| Compute.GetComputedConfig | src/config.rs:76-92 | equals `Gate`: a read failure is an error; a cached value whose hash matches is returned; otherwise the config is compiled afresh |
| Layout.FlattenLays | src/config.rs:211-226 | within any surrounding vector, the children of the menu sit at its base offset, in order; each submenu entry carries its args, its input and an offset where its own children lie, recursively |
| Layout.SiblingBlocks | src/config.rs:217-224 | sibling submenus' child blocks come after the parent's block, in sibling order, do not overlap, and stay within the parent's subtree |
| Layout.ChildOffset | src/config.rs:218-222 | a submenu child's offset is the vector length when it is visited: after the parent's block and the earlier siblings' subtrees |
| Layout.ConfigLayout | src/config.rs:126-139 | succeeds iff the parse does, with the same error; the hash is the first 8 bytes; the root has offset 0 and is not in the vector; `items[0..n)` are its children; every menu below is laid out; there are `Count` entries |
| MenuInput.LineRow | src/config.rs:184-193 | one item's line is one row, and it decodes to the item's name and its found icon |
| MenuInput.InputDecodes | src/config.rs:183-193 | the rows of a menu's input decode, in order, to what its items should show |
| MenuInput.InputRowCount | src/config.rs:182-193 | with newline-free names and entries: one row per item, row `j` being item `j`'s name followed by its icon part |
| MenuInput.InputRows | src/config.rs:182-193 | with names free of newline and NUL and newline-free entries: one row per item; row `j` decodes to item `j`'s name and its found icon; no marker when there is no icon or no match |
| MenuInput.RowsConcat | src/config.rs:184-193 | the rows of consecutive newline-terminated texts concatenate |
| MenuInput.OwnDirsFirst | src/config.rs:170-180 | a menu's own dirs are searched first; the inherited dirs count only when the own dirs have no match |
| MenuInput.StackDirsAppend | src/config.rs:174-178 | frames pushed later are searched before earlier ones |
| Cache.ResultHash | src/config.rs:83-89 | any successful result, cached or fresh, carries the first 8 bytes of the digest |
| Cache.HitReturned | src/config.rs:82-86 | a cached value whose hash matches is returned unchanged, whatever the document, home or file system |
| Cache.StaleIgnored | src/config.rs:82-89 | a cached value with another hash is ignored: the outcome is that of a fresh compile |
| Cache.StoredIsReused | src/config.rs:83-90 | storing the result and reading the same text again hits the cache, even if home, defaults or files changed |
| Cache.UnreadableFails | src/config.rs:77-78 | an unreadable file fails whatever the cache holds |

## Left out

- Turning KDL text into nodes is the KDL library's job. The model starts
  from the node tree; `None` stands for a document the library rejects.
- SHA-256 and bitcode are foreign code. The digest and the decoded cache
  value are inputs of `GetComputedConfig`. Writing the cache file
  (src/config.rs:120-124) and the cache path are not modelled.
- Filesystem and environment access are parameters:
  - the `WalkDir` traversal is the listing `fs`;
  - `InheritanceFrame::default` (environment variables) is the `defaults`
    frame;
  - `home()` is a string in src/parser.rs;
  - `home_dir()` / `to_str` is the `HomeDir` value in src/config.rs.

  The source looks the home directory up again at each `icon-dir` node
  (src/parser.rs:108-112, src/config.rs:331-338). The model takes it as one
  value, constant for the whole parse.
- A walk entry that errors is taken as absent from the listing, since
  `filter_map(Result::ok)` drops it. Symlink and ordering behaviour of the
  walk are whatever the listing says.
- Strings are sequences of characters. The input buffer's UTF-8 encoding
  and `Path::display` of non-UTF-8 paths are not modelled. Paths follow
  Unix rules: absolute means a leading `/`.
- `usize` is modelled as an unbounded `nat`. The offsets cannot overflow
  for any vector that fits in memory.
- Helper methods are loop bodies or loops moved out so that each proof stays
  small. They are not extra operations:
  - `Compute.PushShallow` is the first loop of `compute_menu_deep`;
  - `ParseMenuNode` is the body of the menu loop;
  - `Icons.SearchWalk` is the inner loop of `search_for_icon`.
- src/main.rs (spawning `fuzzel`, pipes, reading its output) is process
  I/O. Only its indexing rule is used, as the statement of
  `Layout.FlattenLays`.
- Layout.SiblingBlocks: sibling offsets are only non-decreasing. A submenu
  with an empty children block adds no entries, so the next sibling's block
  starts at the same offset. The blocks are strictly increasing only after
  submenus with at least one item.
- MenuInput.InputRowCount: the one-row-per-item statement needs names and
  walked paths without newline. The source does not check for these, and a
  name holding a newline would split its row. The icon marker holds none.
- MenuInput.InputRows: decoding a row back to its item also needs names
  without NUL, since the selector cuts the shown name at the first NUL.
