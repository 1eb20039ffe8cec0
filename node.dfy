/** A bin of the density pyramid (`Node` in src/node.rs; src/pyramid.rs holds an identical copy).
    Children are indices into the arena that the pyramid owns, in place of shared `Arc<RwLock<Node>>`
    references. */
module Nodes {

  /** A bin: its id (unique within its layer), its position, the accumulated density value, and the
      finer bins attached under it, in attachment order. */
  datatype Node = Node(id: nat, pos: seq<real>, val: real, children: seq<nat>)
  {
    /** `push_child`: one more child reference at the end; no deduplication. */
    function PushChild(c: nat): (n: Node)
      ensures n.children == children + [c]
      ensures n.id == id && n.pos == pos && n.val == val
    {
      this.(children := children + [c])
    }

    /** `add`: accumulate the min-kernel weight of the point `p` under the support `ext`. */
    function Add(p: seq<real>, ext: seq<real>): (n: Node)
      requires KernelDefined(pos, p, ext)
      ensures n.val == val + Kernel(pos, p, ext)
      ensures n.id == id && n.pos == pos && n.children == children
    {
      this.(val := val + Kernel(pos, p, ext))
    }

    /** `clear`: the value goes back to 0; nothing else changes. */
    function Clear(): (n: Node)
      ensures n.val == 0.0
      ensures n.id == id && n.pos == pos && n.children == children
    {
      this.(val := 0.0)
    }
  }

  /** `Node::new`: no value yet and no children. */
  function NewNode(pos: seq<real>, id: nat): (n: Node)
    ensures n.id == id && n.pos == pos
    ensures n.val == 0.0 && n.children == []
  {
    Node(id, pos, 0.0, [])
  }

  /** `PartialEq for Node`: two bins are the same bin when their ids agree. */
  predicate SameBin(a: Node, b: Node)
    ensures a == b ==> SameBin(a, b)
  {
    a.id == b.id
  }

  function Min(a: real, b: real): real
  {
    if a <= b then a else b
  }

  function Abs(x: real): real
  {
    if x < 0.0 then -x else x
  }

  /** Number of axes the iterator `zip` visits: the shortest of the three sequences. */
  function ZipLen(a: seq<real>, b: seq<real>, c: seq<real>): nat
  {
    if |a| <= |b| && |a| <= |c| then |a| else if |b| <= |c| then |b| else |c|
  }

  /** Number of zipped axes on which the point `p` falls outside `pos ± ext`
      (the `filter(|x| !x).count()` of `inside`). */
  function Misses(pos: seq<real>, p: seq<real>, ext: seq<real>): nat
    decreases |p|
  {
    if |pos| == 0 || |p| == 0 || |ext| == 0 then 0
    else
      (if pos[0] - ext[0] <= p[0] <= pos[0] + ext[0] then 0 else 1)
      + Misses(pos[1..], p[1..], ext[1..])
  }

  /** `inside`: no zipped axis misses. `InsideIff` restates it axis by axis. */
  predicate Inside(pos: seq<real>, p: seq<real>, ext: seq<real>)
  {
    Misses(pos, p, ext) == 0
  }

  /** `inside` holds exactly when every zipped axis holds the point, bounds included. */
  lemma {:induction false} InsideIff(pos: seq<real>, p: seq<real>, ext: seq<real>)
    ensures Inside(pos, p, ext) <==>
      forall i :: 0 <= i < ZipLen(pos, p, ext) ==> pos[i] - ext[i] <= p[i] <= pos[i] + ext[i]
  {
    if |pos| == 0 || |p| == 0 || |ext| == 0 {
    } else {
      InsideIff(pos[1..], p[1..], ext[1..]);
      assert ZipLen(pos, p, ext) == ZipLen(pos[1..], p[1..], ext[1..]) + 1;
      if Misses(pos, p, ext) == 0 {
        forall i | 0 <= i < ZipLen(pos, p, ext)
          ensures pos[i] - ext[i] <= p[i] <= pos[i] + ext[i]
        {
          if i > 0 {
            assert pos[1..][i - 1] == pos[i] && p[1..][i - 1] == p[i] && ext[1..][i - 1] == ext[i];
          }
        }
      }
      if forall i :: 0 <= i < ZipLen(pos, p, ext) ==> pos[i] - ext[i] <= p[i] <= pos[i] + ext[i] {
        forall i | 0 <= i < ZipLen(pos[1..], p[1..], ext[1..])
          ensures pos[1..][i] - ext[1..][i] <= p[1..][i] <= pos[1..][i] + ext[1..][i]
        {
          assert pos[1..][i] == pos[i + 1] && p[1..][i] == p[i + 1] && ext[1..][i] == ext[i + 1];
        }
        assert pos[0] - ext[0] <= p[0] <= pos[0] + ext[0];
      }
    }
  }

  /** The kernel is defined when at least one axis is zipped (the source would otherwise return the
      `f64::INFINITY` seed of its fold) and no zipped extent is zero. */
  predicate KernelDefined(pos: seq<real>, p: seq<real>, ext: seq<real>)
  {
    ZipLen(pos, p, ext) >= 1 && forall i :: 0 <= i < ZipLen(pos, p, ext) ==> ext[i] != 0.0
  }

  /** Linear falloff on one axis: 1 at the bin's position, 0 at distance `e`. */
  function Weight(a: real, b: real, e: real): real
    requires e != 0.0
  {
    1.0 - Abs(a - b) / e
  }

  /** The per-axis weights folded with `min` (the fold in `add`): no zipped axis weighs less, and
      some zipped axis attains it. */
  function Kernel(pos: seq<real>, p: seq<real>, ext: seq<real>): (k: real)
    requires KernelDefined(pos, p, ext)
    ensures forall i :: 0 <= i < ZipLen(pos, p, ext) ==> k <= Weight(pos[i], p[i], ext[i])
    ensures exists i :: 0 <= i < ZipLen(pos, p, ext) && k == Weight(pos[i], p[i], ext[i])
    decreases |pos|
  {
    var w := Weight(pos[0], p[0], ext[0]);
    if ZipLen(pos, p, ext) == 1 then w
    else
      var pos', p', ext' := pos[1..], p[1..], ext[1..];
      assert ZipLen(pos', p', ext') == ZipLen(pos, p, ext) - 1;
      assert forall i :: 0 <= i < ZipLen(pos', p', ext') ==>
        pos'[i] == pos[i + 1] && p'[i] == p[i + 1] && ext'[i] == ext[i + 1];
      Min(w, Kernel(pos', p', ext'))
  }

  /** For a point inside the support with positive extents, the contribution lies in [0, 1]. */
  lemma {:induction false} KernelInUnitRange(pos: seq<real>, p: seq<real>, ext: seq<real>)
    requires KernelDefined(pos, p, ext) && Inside(pos, p, ext)
    requires forall i :: 0 <= i < ZipLen(pos, p, ext) ==> ext[i] > 0.0
    ensures 0.0 <= Kernel(pos, p, ext) <= 1.0
  {
    InsideIff(pos, p, ext);
    var j :| 0 <= j < ZipLen(pos, p, ext) && Kernel(pos, p, ext) == Weight(pos[j], p[j], ext[j]);
    WeightInUnitRange(pos[j], p[j], ext[j]);
  }

  lemma {:induction false} WeightInUnitRange(a: real, b: real, e: real)
    requires e > 0.0 && a - e <= b <= a + e
    ensures 0.0 <= Weight(a, b, e) <= 1.0
  {
    assert Abs(a - b) <= e;
    assert Abs(a - b) / e <= 1.0;
  }

  /** A point at the bin's own position (on every zipped axis) contributes exactly 1. */
  lemma {:induction false} KernelAtPosition(pos: seq<real>, p: seq<real>, ext: seq<real>)
    requires KernelDefined(pos, p, ext)
    requires forall i :: 0 <= i < ZipLen(pos, p, ext) ==> p[i] == pos[i]
    ensures Kernel(pos, p, ext) == 1.0
  {
  }

  /** Clearing twice is clearing once. */
  lemma {:induction false} ClearIdempotent(n: Node)
    ensures n.Clear().Clear() == n.Clear()
  {
  }

  /** Bin equality is symmetric and looks only at ids: value, position and children do not take part. */
  lemma {:induction false} SameBinIgnoresContents(a: Node, b: Node)
    ensures SameBin(a, b) <==> SameBin(b, a)
    ensures SameBin(a, b) <==> SameBin(a.Clear().PushChild(0), b)
  {
  }
}
