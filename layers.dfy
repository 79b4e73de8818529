/** Collision layers over a transform hierarchy.  A hierarchy is a tree of node
    ids; the layer of every game object is an entry of a layer table indexed by
    node id.  `Relayer` is the specification of the conditional rewrite that a
    grabbable applies to itself when it is grabbed, released and reset. */
module Layers {

  datatype Tree = Node(id: nat, children: seq<Tree>)

  /** Every node id of the tree indexes a table of n layers. */
  predicate Within(t: Tree, n: nat)
    decreases t
  {
    t.id < n && forall i :: 0 <= i < |t.children| ==> Within(t.children[i], n)
  }

  /** The ids of all nodes of a tree: the root and all its descendants. */
  function Ids(t: Tree): set<nat>
    decreases t
  {
    {t.id} + ForestIds(t.children)
  }

  function ForestIds(ts: seq<Tree>): set<nat>
    decreases ts
  {
    if ts == [] then {} else ForestIds(ts[..|ts| - 1]) + Ids(ts[|ts| - 1])
  }

  /** The layer table after every node of `nodes` whose layer is `from` moved to `to`. */
  function Relayer(layers: seq<int>, nodes: set<nat>, from: int, to: int): (r: seq<int>)
    ensures |r| == |layers|
  {
    seq(|layers|, i requires 0 <= i < |layers| => if i in nodes && layers[i] == from then to else layers[i])
  }

  /** Rewriting one set of nodes and then another is rewriting their union:
      the order in which a walk visits the nodes does not matter. */
  lemma RelayerUnion(layers: seq<int>, a: set<nat>, b: set<nat>, from: int, to: int)
    ensures Relayer(Relayer(layers, a, from, to), b, from, to) == Relayer(layers, a + b, from, to)
  {
    var l1 := Relayer(layers, a, from, to);
    var l2 := Relayer(l1, b, from, to);
    var r := Relayer(layers, a + b, from, to);
    forall i | 0 <= i < |layers| ensures l2[i] == r[i] {
      assert l1[i] == (if i in a && layers[i] == from then to else layers[i]);
      assert l2[i] == (if i in b && l1[i] == from then to else l1[i]);
    }
  }

  /** Only nodes of the set that were on `from` change, and they all end on `to`. */
  lemma RelayerExactly(layers: seq<int>, nodes: set<nat>, from: int, to: int, i: nat)
    requires i < |layers|
    ensures Relayer(layers, nodes, from, to)[i] != layers[i] ==> i in nodes && layers[i] == from
    ensures i in nodes && layers[i] == from ==> Relayer(layers, nodes, from, to)[i] == to
  {
  }

  /** Moving nodes from a to b and then back from b to a restores the table,
      provided no node of the set was already on b. */
  lemma RelayerRevert(layers: seq<int>, nodes: set<nat>, a: int, b: int)
    requires forall i :: 0 <= i < |layers| && i in nodes ==> layers[i] != b
    ensures Relayer(Relayer(layers, nodes, a, b), nodes, b, a) == layers
  {
    var l1 := Relayer(layers, nodes, a, b);
    var l2 := Relayer(l1, nodes, b, a);
    forall i | 0 <= i < |layers| ensures l2[i] == layers[i] {
      assert l1[i] == (if i in nodes && layers[i] == a then b else layers[i]);
    }
  }

  /** The ids of a forest grow by the ids of each further tree. */
  lemma ForestIdsSnoc(ts: seq<Tree>, i: nat)
    requires i < |ts|
    ensures ForestIds(ts[..i + 1]) == ForestIds(ts[..i]) + Ids(ts[i])
  {
    assert ts[..i + 1][..i] == ts[..i];
  }

  // The static hand helper that flips its two layers at every level of the walk.

  function SetIf(layers: seq<int>, id: nat, from: int, to: int): (r: seq<int>)
    requires id < |layers|
    ensures |r| == |layers|
  {
    if layers[id] == from then layers[id := to] else layers
  }

  /** The walk of the static hand helper: the root is rewritten from `from` to
      `to`, and each child is walked with the two layers exchanged. */
  function SwapWalk(layers: seq<int>, t: Tree, from: int, to: int): (r: seq<int>)
    requires Within(t, |layers|)
    ensures |r| == |layers|
    decreases t, 1
  {
    SwapForest(SetIf(layers, t.id, from, to), t, |t.children|, to, from)
  }

  /** The first k children of t walked in order. */
  function SwapForest(layers: seq<int>, t: Tree, k: nat, from: int, to: int): (r: seq<int>)
    requires Within(t, |layers|) && k <= |t.children|
    ensures |r| == |layers|
    decreases t, 0, k
  {
    if k == 0 then layers
    else SwapWalk(SwapForest(layers, t, k - 1, from, to), t.children[k - 1], from, to)
  }

  /** A child whose layer is `from` keeps it: the walk looks for `to` one level
      down, so unlike `Relayer` over the whole tree the child does not move. */
  lemma SwapWalkSkipsChildOnFrom(layers: seq<int>, r: nat, c: nat, from: int, to: int)
    requires r < |layers| && c < |layers| && r != c && from != to
    requires layers[r] == from && layers[c] == from
    ensures SwapWalk(layers, Node(r, [Node(c, [])]), from, to)[r] == to
    ensures SwapWalk(layers, Node(r, [Node(c, [])]), from, to)[c] == from
    ensures Relayer(layers, Ids(Node(r, [Node(c, [])])), from, to)[c] == to
  {
    var t := Node(r, [Node(c, [])]);
    assert Within(t.children[0], |layers|);
    var l1 := SetIf(layers, r, from, to);
    assert l1[c] == from && l1[r] == to;
    assert SwapForest(l1, t, 0, to, from) == l1;
    var l2 := SwapWalk(l1, Node(c, []), to, from);
    assert l2 == SwapForest(SetIf(l1, c, to, from), Node(c, []), 0, from, to);
    assert ForestIds(t.children) == ForestIds([]) + Ids(Node(c, [])) by {
      assert t.children[..0] == [];
    }
  }

  /** Hand.SetLayerRecursive(obj, fromLayer, toLayer), in place on the layer table. */
  method SetLayerRecursive(layers: array<int>, t: Tree, from: int, to: int)
    requires Within(t, layers.Length)
    modifies layers
    ensures layers[..] == SwapWalk(old(layers[..]), t, from, to)
    decreases t
  {
    if layers[t.id] == from {
      layers[t.id] := to;
    }
    ghost var start := layers[..];
    assert start == SetIf(old(layers[..]), t.id, from, to);
    for i := 0 to |t.children|
      invariant layers[..] == SwapForest(start, t, i, to, from)
    {
      assert Within(t.children[i], layers.Length);
      SetLayerRecursive(layers, t.children[i], to, from);
    }
  }
}
