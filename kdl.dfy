/**
 * The parsed form of a KDL configuration document, as the KDL library hands
 * it to the menu parsers: a sequence of nodes, each with a name, a list of
 * entries (positional or `key=value` arguments) and an optional `{ ... }`
 * block of child nodes. Turning text into this tree is the library's job and
 * is not part of this model.
 */
module Kdl {
  import opened Wrappers

  /** An entry's value. Only whether it is a string matters to the parsers,
      so integers and floats are folded into `Number`. */
  datatype Value = Str(s: string) | Number(n: int) | Bool(b: bool) | Null

  /** A node entry: `name` is present for a property (`key=value`). */
  datatype Entry = Entry(name: Option<string>, value: Value)

  /** A node's children block: absent, or present (possibly empty). */
  datatype Children = NoChildren | Block(nodes: seq<Node>)

  datatype Node = Node(name: string, entries: seq<Entry>, children: Children)

  /** An unnamed entry whose value is a string: the only kind of argument
      the menu grammar accepts. */
  predicate IsPlainString(e: Entry)
  {
    e.name.None? && e.value.Str?
  }

  /** No node of `nodes` is called `name`. */
  predicate NoneNamed(nodes: seq<Node>, name: string)
  {
    forall i :: 0 <= i < |nodes| ==> nodes[i].name != name
  }

  /** `nodes[k]` is the last node called `name` ("last definition wins"). */
  predicate IsLastNamed(nodes: seq<Node>, k: int, name: string)
  {
    0 <= k < |nodes| && nodes[k].name == name &&
    forall j :: k < j < |nodes| ==> nodes[j].name != name
  }

  /** Index of the last node called `name`, if any. */
  function LastNamed(nodes: seq<Node>, name: string): Option<nat>
  {
    if nodes == [] then None
    else if nodes[|nodes| - 1].name == name then Some(|nodes| - 1)
    else LastNamed(nodes[..|nodes| - 1], name)
  }

  /** `LastNamed` finds nothing exactly when no node has the name, and
      otherwise the one node that is the last with it. */
  lemma {:induction false} LastNamedMeaning(nodes: seq<Node>, name: string)
    ensures LastNamed(nodes, name).None? <==> NoneNamed(nodes, name)
    ensures LastNamed(nodes, name).Some? ==> IsLastNamed(nodes, LastNamed(nodes, name).value, name)
    ensures forall k :: IsLastNamed(nodes, k, name) ==> LastNamed(nodes, name) == Some(k)
  {
    if nodes != [] && nodes[|nodes| - 1].name != name {
      var init := nodes[..|nodes| - 1];
      LastNamedMeaning(init, name);
      assert forall i :: 0 <= i < |init| ==> init[i] == nodes[i];
    }
  }

  /** The nodes whose name is one of `names`, in their original order. */
  function Select(nodes: seq<Node>, names: set<string>): seq<Node>
  {
    if nodes == [] then []
    else
      var init := Select(nodes[..|nodes| - 1], names);
      if nodes[|nodes| - 1].name in names then init + [nodes[|nodes| - 1]] else init
  }
}
