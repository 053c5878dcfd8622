/** Counting cells: content that is a tree, in which no two pointers or slices lead to the same cell. */
module Sharing {
  import opened Json

  /** The pointers and slices in a value that are not nil. */
  ghost function Nodes(v: Value): nat
    decreases v
  {
    match v
    case VPointer(target) => 1 + Nodes(target)
    case VSlice(items) => 1 + NodesOf(items)
    case VStruct(fields) => NodesOf(fields)
    case _ => 0
  }

  ghost function NodesOf(vs: seq<Value>): nat
    decreases vs
  {
    if vs == [] then 0 else NodesOf(vs[..|vs| - 1]) + Nodes(vs[|vs| - 1])
  }

  /** There are as many cells as pointers and slices lead to one: no two of them share a cell. */
  ghost predicate Unshared(cells: set<object>, v: Value) {
    |cells| == Nodes(v)
  }

  ghost predicate UnsharedAll(cells: set<object>, vs: seq<Value>) {
    |cells| == NodesOf(vs)
  }

  lemma NodesGrow(vs: seq<Value>, v: Value)
    ensures NodesOf(vs + [v]) == NodesOf(vs) + Nodes(v)
  {
    assert (vs + [v])[..|vs|] == vs;
  }

  lemma {:induction false} NoNodes(vs: seq<Value>)
    requires forall v | v in vs :: Nodes(v) == 0
    ensures NodesOf(vs) == 0
  {
    if vs != [] {
      NoNodes(vs[..|vs| - 1]);
    }
  }

  lemma NoCells(v: Value)
    requires Nodes(v) == 0
    ensures Unshared({}, v)
  {
  }

  lemma AtomsHaveNoNodes()
    ensures forall s :: Nodes(VString(s)) == 0
    ensures forall n :: Nodes(VInt(n)) == 0
    ensures forall x :: Nodes(VOpaque(x)) == 0
    ensures Nodes(VNil) == 0
  {
  }

  /** A struct or a slice is put together from parts: none, a first one, and one more. */
  lemma NoParts()
    ensures UnsharedAll({}, [])
  {
  }

  lemma OnePart(cells: set<object>, v: Value) returns (same: set<object>, vs: seq<Value>)
    requires Unshared(cells, v)
    ensures same == cells && vs == [v] && UnsharedAll(cells, vs)
  {
    NodesGrow([], v);
    same, vs := cells, [] + [v];
  }

  lemma OneMore(cells: set<object>, vs: seq<Value>, more: set<object>, v: Value)
      returns (allCells: set<object>, all: seq<Value>)
    requires UnsharedAll(cells, vs) && Unshared(more, v) && cells !! more
    ensures allCells == cells + more && all == vs + [v] && UnsharedAll(allCells, all)
  {
    NodesGrow(vs, v);
    allCells, all := cells + more, vs + [v];
  }

  lemma NilUnshared()
    ensures Unshared({}, VNil)
  {
  }

  /** A field in front of others. */
  lemma Prepended(cells: set<object>, v: Value, more: set<object>, vs: seq<Value>)
    requires Unshared(cells, v) && Unshared(more, VStruct(vs)) && cells !! more
    ensures Unshared(cells + more, VStruct([v] + vs))
  {
    NodesPrepended(v, vs);
  }

  lemma {:induction false} NodesPrepended(v: Value, vs: seq<Value>)
    ensures NodesOf([v] + vs) == Nodes(v) + NodesOf(vs)
    decreases |vs|
  {
    if vs == [] {
      assert [v] + vs == [] + [v];
      NodesGrow([], v);
    } else {
      var front, last := vs[..|vs| - 1], vs[|vs| - 1];
      assert [v] + vs == ([v] + front) + [last] && vs == front + [last];
      NodesGrow([v] + front, last);
      NodesGrow(front, last);
      NodesPrepended(v, front);
    }
  }

  lemma AsStruct(cells: set<object>, vs: seq<Value>)
    ensures UnsharedAll(cells, vs) <==> Unshared(cells, VStruct(vs))
  {
  }

  lemma BehindSlice(o: object, cells: set<object>, vs: seq<Value>)
    requires UnsharedAll(cells, vs) && o !in cells
    ensures Unshared({o} + cells, VSlice(vs))
  {
  }

  lemma BehindPointer(o: object, cells: set<object>, v: Value)
    requires Unshared(cells, v) && o !in cells
    ensures Unshared({o} + cells, VPointer(v))
  {
  }

  ghost predicate NotIn(x: object?, cells: set<object>) {
    x == null || x !in cells
  }

  ghost predicate Differ(x: object?, y: object?) {
    x == null || x != y
  }
}
