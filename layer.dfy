/** One resolution level of the pyramid (`Layer` in src/layer.rs; src/pyramid.rs holds an identical
    copy): the level's bins as arena indices in construction order, the level's per-axis extent, and
    the grid size `[2^level, 2^level]` that an image export would use. */
module Layers {
  import opened Nodes
  import opened Powers

  datatype Layer = Layer(node: seq<nat>, extent: seq<real>, bins: seq<nat>)
  {
    /** Every listed bin exists in the arena. */
    predicate In(arena: seq<Node>)
    {
      forall i :: 0 <= i < |node| ==> node[i] < |arena|
    }

    /** `push_node`: one more bin at the end; the earlier bins keep their order. */
    function PushNode(n: nat): (l: Layer)
      ensures l.node == node + [n]
      ensures l.extent == extent && l.bins == bins
    {
      this.(node := node + [n])
    }

    /** `values`: the bins' values, in layer order. */
    function Values(arena: seq<Node>): (vs: seq<real>)
      requires In(arena)
      ensures |vs| == |node| && forall i :: 0 <= i < |node| ==> vs[i] == arena[node[i]].val
    {
      ValuesOf(arena, node)
    }
  }

  /** `Layer::new`: no bins yet, the given extent, and `[2^level, 2^level]` as grid size
      (always two entries, whatever the number of axes). */
  function NewLayer(level: nat, extent: seq<real>): (l: Layer)
    ensures l.node == [] && l.extent == extent
    ensures l.bins == [Pow2(level), Pow2(level)]
  {
    Layer([], extent, [Pow2(level), Pow2(level)])
  }

  /** The `map(val).collect()` over a list of bins. */
  function ValuesOf(arena: seq<Node>, ns: seq<nat>): (vs: seq<real>)
    requires forall i :: 0 <= i < |ns| ==> ns[i] < |arena|
    ensures |vs| == |ns|
    ensures forall i :: 0 <= i < |ns| ==> vs[i] == arena[ns[i]].val
  {
    if ns == [] then [] else [arena[ns[0]].val] + ValuesOf(arena, ns[1..])
  }

  function MinNat(a: nat, b: nat): nat
  {
    if a <= b then a else b
  }

  /** `diff_layer`: the bins of two layers zipped pairwise, first value minus second. */
  function DiffLayer(a1: seq<Node>, l1: Layer, a2: seq<Node>, l2: Layer): (d: seq<real>)
    requires l1.In(a1) && l2.In(a2)
    ensures |d| == MinNat(|l1.node|, |l2.node|)
    ensures forall i :: 0 <= i < |d| ==> d[i] == l1.Values(a1)[i] - l2.Values(a2)[i]
  {
    DiffOf(a1, l1.node, a2, l2.node)
  }

  function DiffOf(a1: seq<Node>, n1: seq<nat>, a2: seq<Node>, n2: seq<nat>): (d: seq<real>)
    requires forall i :: 0 <= i < |n1| ==> n1[i] < |a1|
    requires forall i :: 0 <= i < |n2| ==> n2[i] < |a2|
    ensures |d| == MinNat(|n1|, |n2|)
    ensures forall i :: 0 <= i < |d| ==> d[i] == a1[n1[i]].val - a2[n2[i]].val
  {
    if n1 == [] || n2 == [] then []
    else [a1[n1[0]].val - a2[n2[0]].val] + DiffOf(a1, n1[1..], a2, n2[1..])
  }

  /** A layer compared with itself differs by zero everywhere. */
  lemma {:induction false} DiffLayerSelf(a: seq<Node>, l: Layer)
    requires l.In(a)
    ensures DiffLayer(a, l, a, l) == seq(|l.node|, i => 0.0)
  {
  }

  /** Swapping the two layers negates every entry. */
  lemma {:induction false} DiffLayerAntisymmetric(a1: seq<Node>, l1: Layer, a2: seq<Node>, l2: Layer)
    requires l1.In(a1) && l2.In(a2)
    ensures |DiffLayer(a1, l1, a2, l2)| == |DiffLayer(a2, l2, a1, l1)|
    ensures forall i :: 0 <= i < |DiffLayer(a1, l1, a2, l2)| ==>
      DiffLayer(a1, l1, a2, l2)[i] == -DiffLayer(a2, l2, a1, l1)[i]
  {
  }
}
