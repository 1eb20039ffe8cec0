/** The density pyramid (`Pyramid` in src/pyramid.rs): a root bin covering the whole domain, then one
    layer per level `l = 1 .. L` holding a regular grid of `2^l` bins per axis, each bin attached as a
    child of every bin one level up whose support contains it. Points are deposited by walking the
    same lattice from the root.

    The bins live in an arena (`nodes`) owned by the pyramid; layers and child lists hold indices
    into it. The shared, lock-guarded `NodeRef` handles of the source become those indices, and an
    update through a handle becomes an update of the arena slot. */
module Pyramids {
  import opened Wrappers
  import opened Powers
  import opened Nodes
  import opened Layers
  import opened Grid
  import opened Lattice

  // ---------------------------------------------------------------------------------------------
  // Shape of the arena

  /** Entry `j` of layer `k` is a bin of level `k` whose id is `j`. */
  ghost predicate Listed(nodes: seq<Node>, level: seq<nat>, layers: seq<Layer>)
    requires |level| == |nodes|
  {
    forall k, j :: 0 <= k < |layers| && 0 <= j < |layers[k].node| ==>
      layers[k].node[j] < |nodes| && level[layers[k].node[j]] == k && nodes[layers[k].node[j]].id == j
  }

  /** Every bin is listed in the layer of its level, at the position given by its id. */
  ghost predicate Covered(nodes: seq<Node>, level: seq<nat>, layers: seq<Layer>)
    requires |level| == |nodes|
  {
    forall i :: 0 <= i < |nodes| ==>
      level[i] < |layers| && nodes[i].id < |layers[level[i]].node| && layers[level[i]].node[nodes[i].id] == i
  }

  /** The invariant that holds at every step of construction: a layered lattice with ids unique per
      level, the root in slot 0 alone on level 0, every listed bin where its layer says, and every
      bin either in a finished layer or on the level under construction. */
  ghost predicate Shaped(nodes: seq<Node>, level: seq<nat>, layers: seq<Layer>, dims: nat)
  {
    Layered(nodes, level) && UniqueIds(nodes, level) && Listed(nodes, level, layers) &&
    |layers| >= 1 && |nodes| >= 1 && level[0] == 0 && layers[0].node == [0] &&
    forall i :: 0 <= i < |nodes| ==> level[i] <= |layers| && |nodes[i].pos| == dims
  }

  /** Attaching `n` under every bin of `w`, one level up from it, keeps the shape. */
  lemma {:induction false} AttachKeepsShape(a: seq<Node>, b: seq<Node>, level: seq<nat>, layers: seq<Layer>, dims: nat,
                         w: seq<nat>, n: nat)
    requires Shaped(a, level, layers, dims) && n < |a|
    requires forall x :: x in w ==> x < |a| && level[n] == level[x] + 1
    requires |b| == |a| && forall i :: 0 <= i < |a| ==> b[i] == if i in w then a[i].PushChild(n) else a[i]
    ensures Shaped(b, level, layers, dims)
    ensures Covered(a, level, layers) ==> Covered(b, level, layers)
  {
    forall i, j | 0 <= i < |b| && 0 <= j < |b[i].children|
      ensures b[i].children[j] < |b| && level[b[i].children[j]] == level[i] + 1
    {
      if i in w && j == |a[i].children| {
      } else {
        assert b[i].children[j] == a[i].children[j];
      }
    }
  }

  /** The attach loop of `push_node`: `n` becomes the last child of every bin of `w`. */
  method Attach(a: seq<Node>, w: seq<nat>, n: nat) returns (b: seq<Node>)
    requires AllIn(a, w) && forall i, j :: 0 <= i < j < |w| ==> w[i] != w[j]
    ensures |b| == |a| && forall x :: 0 <= x < |b| ==> b[x] == if x in w then a[x].PushChild(n) else a[x]
  {
    b := a;
    for i := 0 to |w|
      invariant |b| == |a|
      invariant forall x :: 0 <= x < |b| ==> b[x] == if x in w[..i] then a[x].PushChild(n) else a[x]
    {
      assert w[..i + 1] == w[..i] + [w[i]];
      assert w[i] !in w[..i];
      b := b[w[i] := b[w[i]].PushChild(n)];
    }
    assert w[..|w|] == w;
  }

  /** `a` and `b` hold the same bins with the same children; only values may differ. */
  ghost predicate SameShape(a: seq<Node>, b: seq<Node>)
  {
    |a| == |b| &&
    forall i :: 0 <= i < |a| ==> b[i].id == a[i].id && b[i].pos == a[i].pos && b[i].children == a[i].children
  }

  /** The shape invariants do not look at values. */
  lemma {:induction false} ShapeIgnoresValues(a: seq<Node>, b: seq<Node>, level: seq<nat>, layers: seq<Layer>, dims: nat)
    requires SameShape(a, b) && Shaped(a, level, layers, dims)
    ensures Shaped(b, level, layers, dims)
    ensures Covered(a, level, layers) ==> Covered(b, level, layers)
  {
  }

  /** The deposit loop of `add_point`: every bin of `w` accumulates the kernel of `p` under `ext`. */
  method AddAll(a: seq<Node>, w: seq<nat>, p: seq<real>, ext: seq<real>) returns (b: seq<Node>)
    requires AllIn(a, w) && forall i, j :: 0 <= i < j < |w| ==> w[i] != w[j]
    requires forall x :: x in w ==> KernelDefined(a[x].pos, p, ext)
    ensures |b| == |a| && forall x :: 0 <= x < |b| ==> b[x] == if x in w then a[x].Add(p, ext) else a[x]
  {
    b := a;
    for i := 0 to |w|
      invariant |b| == |a|
      invariant forall x :: 0 <= x < |b| ==> b[x] == if x in w[..i] then a[x].Add(p, ext) else a[x]
    {
      assert w[..i + 1] == w[..i] + [w[i]];
      assert w[i] !in w[..i];
      b := b[w[i] := b[w[i]].Add(p, ext)];
    }
    assert w[..|w|] == w;
  }

  /** `b` is `a` after the first `k` steps of depositing `p`. */
  ghost predicate Deposited(a: seq<Node>, b: seq<Node>, root: nat, p: seq<real>, limits: seq<(real, real)>, k: nat)
    requires Closed(a) && root < |a| && Measurable(a, p, limits)
  {
    |b| == |a| &&
    forall i :: 0 <= i < |a| ==> b[i] == a[i].(val := a[i].val + Gain(a, root, p, limits, i, k))
  }

  /** One more step of `add_point` extends the deposit by the next frontier. */
  lemma {:induction false} DepositStep(a: seq<Node>, b: seq<Node>, c: seq<Node>, root: nat, p: seq<real>, limits: seq<(real, real)>, k: nat)
    requires Closed(a) && root < |a| && Measurable(a, p, limits)
    requires Deposited(a, b, root, p, limits, k)
    requires var w, ext := Walk(a, root, p, limits, k + 1), ExtentOfLayer(limits, k + 1);
      |c| == |b| && forall x :: 0 <= x < |c| ==> c[x] == if x in w then (KernelDefinedAt(a, p, limits, x, k + 1); b[x].Add(p, ext)) else b[x]
    ensures Deposited(a, c, root, p, limits, k + 1)
  {
    forall i | 0 <= i < |a|
      ensures c[i] == a[i].(val := a[i].val + Gain(a, root, p, limits, i, k + 1))
    {
      KernelDefinedAt(a, p, limits, i, k + 1);
      DepositStepAt(a, root, p, limits, i, k, b[i], c[i]);
    }
  }

  /** Step `k + 1` at one node: it gains the kernel weight exactly when it is on that frontier. */
  lemma {:induction false} DepositStepAt(a: seq<Node>, root: nat, p: seq<real>, limits: seq<(real, real)>, i: nat, k: nat, before: Node, after: Node)
    requires Closed(a) && root < |a| && i < |a| && Measurable(a, p, limits)
    requires KernelDefined(a[i].pos, p, ExtentOfLayer(limits, k + 1))
    requires before == a[i].(val := a[i].val + Gain(a, root, p, limits, i, k))
    requires after == if i in Walk(a, root, p, limits, k + 1) then before.Add(p, ExtentOfLayer(limits, k + 1)) else before
    ensures after == a[i].(val := a[i].val + Gain(a, root, p, limits, i, k + 1))
  {
  }

  lemma {:induction false} DepositedSameShape(a: seq<Node>, b: seq<Node>, root: nat, p: seq<real>, limits: seq<(real, real)>, k: nat)
    requires Closed(a) && root < |a| && Measurable(a, p, limits) && Deposited(a, b, root, p, limits, k)
    ensures SameShape(a, b)
  {
  }

  /** What step `k + 1` of `add_point` relies on: on the partly deposited arena `b`, the frontier
      loop computes the next frontier of the walk on `a`. */
  lemma {:induction false} FrontierAgrees(a: seq<Node>, b: seq<Node>, root: nat, p: seq<real>, limits: seq<(real, real)>, k: nat)
    requires Closed(a) && root < |a| && |limits| >= 2 && SameShape(a, b)
    ensures var w, ext := Walk(a, root, p, limits, k), ExtentOfLayer(limits, k + 1);
      Closed(b) && AllIn(b, w) && Collect(b, w, p, ext) == Walk(a, root, p, limits, k + 1)
  {
    CollectAgree(a, b, Walk(a, root, p, limits, k), p, ExtentOfLayer(limits, k + 1));
  }

  /** The bins of that next frontier are distinct and each has a kernel. */
  lemma {:induction false} FrontierDepositable(a: seq<Node>, b: seq<Node>, root: nat, p: seq<real>, limits: seq<(real, real)>, k: nat)
    requires Closed(a) && root < |a| && Measurable(a, p, limits) && SameShape(a, b)
    ensures var w := Walk(a, root, p, limits, k + 1);
      forall i, j :: 0 <= i < j < |w| ==> w[i] != w[j]
    ensures forall x :: x in Walk(a, root, p, limits, k + 1) ==>
      KernelDefined(b[x].pos, p, ExtentOfLayer(limits, k + 1))
  {
    WalkDistinct(a, root, p, limits, k + 1);
    forall x | x in Walk(a, root, p, limits, k + 1)
      ensures KernelDefined(b[x].pos, p, ExtentOfLayer(limits, k + 1))
    {
      KernelDefinedAt(a, p, limits, x, k + 1);
      assert b[x].pos == a[x].pos;
    }
  }

  /** Every bin with its value reset. */
  function Cleared(a: seq<Node>): (r: seq<Node>)
    ensures |r| == |a| && forall i :: 0 <= i < |a| ==> r[i].val == 0.0
    ensures SameShape(a, r)
  {
    seq(|a|, i requires 0 <= i < |a| => a[i].Clear())
  }

  /** Clearing twice is clearing once. */
  lemma {:induction false} ClearTwice(a: seq<Node>)
    ensures Cleared(Cleared(a)) == Cleared(a)
  {
    forall i | 0 <= i < |a|
      ensures Cleared(Cleared(a))[i] == Cleared(a)[i]
    {
      ClearIdempotent(a[i]);
    }
  }

  // ---------------------------------------------------------------------------------------------
  // Construction

  /** `n` copies of `x`. */
  function Repeat(x: nat, n: nat): (r: seq<nat>)
    ensures |r| == n && forall i :: 0 <= i < n ==> r[i] == x
  {
    if n == 0 then [] else Repeat(x, n - 1) + [x]
  }

  /** The `n` consecutive slots from `base`. */
  function Slots(base: nat, n: nat): (r: seq<nat>)
    ensures |r| == n && forall i :: 0 <= i < n ==> r[i] == base + i
  {
    if n == 0 then [] else Slots(base, n - 1) + [base + n - 1]
  }

  lemma {:induction false} SlotsStep(base: nat, n: nat)
    ensures Slots(base, n + 1) == Slots(base, n) + [base + n]
  {
  }

  /** The children that bin `x` of `arena` gains while the bins at positions `ps` (arena slots
      `base`, `base + 1`, ...) are pushed, one after the other, with target level `t`. */
  ghost function Attached(arena: seq<Node>, root: nat, limits: seq<(real, real)>, x: nat,
                          ps: seq<seq<real>>, base: nat, t: nat): seq<nat>
    requires Closed(arena) && root < |arena| && (t == 0 || |limits| >= 2)
  {
    if ps == [] then []
    else
      Attached(arena, root, limits, x, ps[..|ps| - 1], base, t) +
      (if x in Walk(arena, root, ps[|ps| - 1], limits, t) then [base + |ps| - 1] else [])
  }

  /** Slot `base + q` is attached under `x` exactly when the walk towards `ps[q]` ends at `x`;
      nothing else is. */
  lemma {:induction false} AttachedIff(arena: seq<Node>, root: nat, limits: seq<(real, real)>, x: nat,
                                       ps: seq<seq<real>>, base: nat, t: nat, c: nat)
    requires Closed(arena) && root < |arena| && (t == 0 || |limits| >= 2)
    ensures c in Attached(arena, root, limits, x, ps, base, t) <==>
      base <= c < base + |ps| && x in Walk(arena, root, ps[c - base], limits, t)
  {
    if ps != [] {
      var ps' := ps[..|ps| - 1];
      AttachedIff(arena, root, limits, x, ps', base, t, c);
      if base <= c < base + |ps'| {
        assert ps'[c - base] == ps[c - base];
      }
    }
  }

  /** Only bins of the target level gain children. */
  lemma {:induction false} AttachedOnlyLevel(arena: seq<Node>, level: seq<nat>, root: nat, limits: seq<(real, real)>,
                                             x: nat, ps: seq<seq<real>>, base: nat, t: nat)
    requires Layered(arena, level) && root < |arena| && level[root] == 0 && (t == 0 || |limits| >= 2)
    requires x < |arena| && level[x] != t
    ensures Attached(arena, root, limits, x, ps, base, t) == []
  {
    if ps != [] {
      AttachedOnlyLevel(arena, level, root, limits, x, ps[..|ps| - 1], base, t);
      WalkLevel(arena, level, root, ps[|ps| - 1], limits, t);
    }
  }

  /** With target level 0 the root gains every pushed slot, in order. */
  lemma {:induction false} AttachedToRoot(arena: seq<Node>, root: nat, limits: seq<(real, real)>,
                                          ps: seq<seq<real>>, base: nat)
    requires Closed(arena) && root < |arena|
    ensures Attached(arena, root, limits, root, ps, base, 0) == Slots(base, |ps|)
  {
    if ps != [] {
      AttachedToRoot(arena, root, limits, ps[..|ps| - 1], base);
    }
  }

  /** Appending a fresh childless bin on the level under construction keeps the shape. */
  lemma {:induction false} AppendKeepsShape(a: seq<Node>, level: seq<nat>, layers: seq<Layer>, dims: nat, b: seq<real>, id: nat)
    requires Shaped(a, level, layers, dims) && |b| == dims
    requires forall i :: 0 <= i < |a| && level[i] == |layers| ==> a[i].id < id
    ensures Shaped(a + [NewNode(b, id)], level + [|layers|], layers, dims)
  {
    var a', level' := a + [NewNode(b, id)], level + [|layers|];
    assert forall i :: 0 <= i < |a| ==> a'[i] == a[i] && level'[i] == level[i];
    assert Closed(a');
  }

  /** `c` is `a` with a fresh bin appended and attached as `push_node` does: in terms of `a`, the
      fresh bin is last and untouched, and it is attached under the end of the walk on `a`. */
  lemma {:induction false} PlacedBin(a: seq<Node>, b: seq<real>, id: nat, root: nat, limits: seq<(real, real)>, t: nat, c: seq<Node>)
    requires Closed(a) && root < |a| && (t == 0 || |limits| >= 2)
    requires var a' := a + [NewNode(b, id)];
      Closed(a') && Walk(a', root, b, limits, t) == Walk(a, root, b, limits, t) &&
      |a| !in Walk(a, root, b, limits, t) && |c| == |a'| &&
      forall i :: 0 <= i < |c| ==>
        c[i] == if i in Walk(a', root, a'[|a|].pos, limits, t) then a'[i].PushChild(|a|) else a'[i]
    ensures PlacedOne(a, c, root, limits, b, id, t)
  {
    var a' := a + [NewNode(b, id)];
    assert a'[|a|].pos == b;
    assert forall i :: 0 <= i < |a| ==> a'[i] == a[i];
  }

  /** `nxt` is `cur` after `push_node` placed a fresh bin at `b` with id `id` and target level `t`:
      the fresh bin comes last and is attached under the end of the walk towards `b`. */
  ghost predicate PlacedOne(cur: seq<Node>, nxt: seq<Node>, root: nat, limits: seq<(real, real)>,
                            b: seq<real>, id: nat, t: nat)
  {
    Closed(cur) && root < |cur| && (t == 0 || |limits| >= 2) &&
    |nxt| == |cur| + 1 && nxt[|cur|] == NewNode(b, id) &&
    forall i :: 0 <= i < |cur| ==>
      nxt[i] == if i in Walk(cur, root, b, limits, t) then cur[i].PushChild(|cur|) else cur[i]
  }

  /** The children of the earlier bins after the first `q` bins of a level were placed. */
  ghost predicate Placed(a: seq<Node>, cur: seq<Node>, root: nat, limits: seq<(real, real)>,
                         ps: seq<seq<real>>, q: nat, t: nat)
    requires Closed(a) && root < |a| && (t == 0 || |limits| >= 2) && q <= |ps|
  {
    |cur| == |a| + q &&
    (forall i :: 0 <= i < |a| ==>
      cur[i] == a[i].(children := a[i].children + Attached(a, root, limits, i, ps[..q], |a|, t))) &&
    (forall j :: 0 <= j < q ==> cur[|a| + j] == NewNode(ps[j], j))
  }

  /** Placing bin `q` extends `Placed` by one: the walk it takes on the partly built arena is the
      walk on the arena before the level was started. */
  lemma {:induction false} PlaceStep(a: seq<Node>, level: seq<nat>, cur: seq<Node>, nxt: seq<Node>, root: nat,
                  limits: seq<(real, real)>, ps: seq<seq<real>>, q: nat, t: nat)
    requires Layered(a, level) && root < |a| && level[root] == 0 && (t == 0 || |limits| >= 2)
    requires q < |ps| && Placed(a, cur, root, limits, ps, q, t) && Closed(cur)
    requires |nxt| == |cur| + 1 && nxt[|cur|] == NewNode(ps[q], q)
    requires forall i :: 0 <= i < |cur| ==>
      nxt[i] == if i in Walk(cur, root, ps[q], limits, t) then cur[i].PushChild(|cur|) else cur[i]
    ensures Placed(a, nxt, root, limits, ps, q + 1, t)
  {
    CurrentWalk(a, level, cur, root, limits, ps, q, t);
    var w := Walk(a, root, ps[q], limits, t);
    assert AllIn(a, w);
    PlaceStepEarlier(a, cur, nxt, root, limits, ps, q, t, w);
    PlaceStepFresh(a, cur, nxt, root, limits, ps, q, t, w);
  }

  /** The earlier bins gain the new slot exactly when the walk `w` ends at them. */
  lemma {:induction false} PlaceStepEarlier(a: seq<Node>, cur: seq<Node>, nxt: seq<Node>, root: nat,
                         limits: seq<(real, real)>, ps: seq<seq<real>>, q: nat, t: nat, w: seq<nat>)
    requires Closed(a) && root < |a| && (t == 0 || |limits| >= 2)
    requires q < |ps| && Placed(a, cur, root, limits, ps, q, t) && w == Walk(a, root, ps[q], limits, t)
    requires |nxt| == |cur| + 1
    requires forall i :: 0 <= i < |cur| ==> nxt[i] == if i in w then cur[i].PushChild(|cur|) else cur[i]
    ensures forall i :: 0 <= i < |a| ==>
      nxt[i] == a[i].(children := a[i].children + Attached(a, root, limits, i, ps[..q + 1], |a|, t))
  {
    forall i | 0 <= i < |a|
      ensures nxt[i] == a[i].(children := a[i].children + Attached(a, root, limits, i, ps[..q + 1], |a|, t))
    {
      AttachedStep(a, root, limits, i, ps, q, t);
      var before := Attached(a, root, limits, i, ps[..q], |a|, t);
      if i in w {
        assert a[i].children + before + [|a| + q] == a[i].children + (before + [|a| + q]);
      } else {
        assert before + [] == before;
      }
    }
  }

  /** Pushing the bin at `ps[q]` adds slot `base + q` to what `x` gains exactly when the walk
      towards `ps[q]` ends at `x`. */
  lemma {:induction false} AttachedStep(arena: seq<Node>, root: nat, limits: seq<(real, real)>, x: nat,
                                        ps: seq<seq<real>>, q: nat, t: nat)
    requires Closed(arena) && root < |arena| && (t == 0 || |limits| >= 2) && q < |ps|
    ensures Attached(arena, root, limits, x, ps[..q + 1], |arena|, t) ==
      Attached(arena, root, limits, x, ps[..q], |arena|, t) +
      (if x in Walk(arena, root, ps[q], limits, t) then [|arena| + q] else [])
  {
    assert ps[..q + 1][..q] == ps[..q];
  }

  /** The bins already placed on the level, and the new one, are untouched. */
  lemma {:induction false} PlaceStepFresh(a: seq<Node>, cur: seq<Node>, nxt: seq<Node>, root: nat,
                       limits: seq<(real, real)>, ps: seq<seq<real>>, q: nat, t: nat, w: seq<nat>)
    requires Closed(a) && root < |a| && (t == 0 || |limits| >= 2)
    requires q < |ps| && Placed(a, cur, root, limits, ps, q, t) && AllIn(a, w)
    requires |nxt| == |cur| + 1 && nxt[|cur|] == NewNode(ps[q], q)
    requires forall i :: 0 <= i < |cur| ==> nxt[i] == if i in w then cur[i].PushChild(|cur|) else cur[i]
    ensures forall j :: 0 <= j < q + 1 ==> nxt[|a| + j] == NewNode(ps[j], j)
  {
    forall j | 0 <= j < q
      ensures nxt[|a| + j] == NewNode(ps[j], j)
    {
      assert |a| + j !in w;
    }
  }

  /** The walk towards the next bin on the partly built arena is the walk on the arena before the
      level was started: only bins of the target level have gained children so far. */
  lemma {:induction false} CurrentWalk(a: seq<Node>, level: seq<nat>, cur: seq<Node>, root: nat,
                    limits: seq<(real, real)>, ps: seq<seq<real>>, q: nat, t: nat)
    requires Layered(a, level) && root < |a| && level[root] == 0 && (t == 0 || |limits| >= 2)
    requires q < |ps| && Placed(a, cur, root, limits, ps, q, t) && Closed(cur)
    ensures Walk(cur, root, ps[q], limits, t) == Walk(a, root, ps[q], limits, t)
  {
    forall i | 0 <= i < |a| && level[i] < t
      ensures cur[i].children == a[i].children
    {
      AttachedOnlyLevel(a, level, root, limits, i, ps[..q], |a|, t);
    }
    WalkAgree(a, cur, level, root, ps[q], limits, t);
  }

  /** Appending a fresh bin on the level below the target changes no walk with that target,
      and the fresh bin is not on it. */
  lemma {:induction false} AppendKeepsWalk(a: seq<Node>, level: seq<nat>, root: nat, limits: seq<(real, real)>,
                        b: seq<real>, id: nat, p: seq<real>, t: nat)
    requires Layered(a, level) && root < |a| && level[root] == 0 && (t == 0 || |limits| >= 2)
    ensures var a' := a + [NewNode(b, id)];
      Closed(a') && Walk(a', root, p, limits, t) == Walk(a, root, p, limits, t) &&
      |a| !in Walk(a, root, p, limits, t)
  {
    var a' := a + [NewNode(b, id)];
    assert forall i :: 0 <= i < |a| ==> a'[i] == a[i];
    assert Closed(a');
    WalkAgree(a, a', level, root, p, limits, t);
    assert AllIn(a, Walk(a, root, p, limits, t));
  }

  /** Listing the bins of the level under construction as a new layer completes the pyramid. */
  lemma {:induction false} CloseLayer(a: seq<Node>, lv: seq<nat>, nodes: seq<Node>, level: seq<nat>, layers: seq<Layer>,
                   dims: nat, layer: Layer, k: nat)
    requires |lv| == |a| && Covered(a, lv, layers)
    requires Shaped(nodes, level, layers, dims)
    requires |nodes| == |a| + k && level == lv + Repeat(|layers|, k)
    requires forall i :: 0 <= i < |a| ==> nodes[i].id == a[i].id
    requires forall i :: |a| <= i < |nodes| ==> nodes[i].id == i - |a|
    requires layer.node == Slots(|a|, k)
    ensures Shaped(nodes, level, layers + [layer], dims) && Covered(nodes, level, layers + [layer])
  {
    var ls := layers + [layer];
    assert forall x :: 0 <= x < |layers| ==> ls[x] == layers[x];
    forall x, j | 0 <= x < |ls| && 0 <= j < |ls[x].node|
      ensures ls[x].node[j] < |nodes| && level[ls[x].node[j]] == x && nodes[ls[x].node[j]].id == j
    {
      if x == |layers| {
        assert ls[x].node[j] == |a| + j;
        assert level[|a| + j] == |layers|;
      }
    }
    forall i | 0 <= i < |nodes|
      ensures level[i] < |ls| && nodes[i].id < |ls[level[i]].node| && ls[level[i]].node[nodes[i].id] == i
    {
      if i >= |a| {
        assert level[i] == |layers|;
        assert ls[|layers|].node[i - |a|] == i;
      } else {
        assert level[i] == lv[i];
      }
    }
  }

  /** The loop invariant of building level `m`: the first `q` bins are placed on top of the arena
      `a` (with levels `lv`) that held the finished levels `0 .. m - 1`. */
  ghost predicate Building(a: seq<Node>, lv: seq<nat>, cur: seq<Node>, clv: seq<nat>, layers: seq<Layer>,
                           root: nat, limits: seq<(real, real)>, ps: seq<seq<real>>, q: nat, t: nat)
  {
    var m := |layers|;
    root == 0 && Shaped(cur, clv, layers, |limits|) && Layered(a, lv) && root < |a| && lv[root] == 0 &&
    (forall i :: 0 <= i < |a| ==> lv[i] < m) && m == t + 1 && (t == 0 || |limits| >= 2) &&
    clv == lv + Repeat(m, q) && q <= |ps| && Placed(a, cur, root, limits, ps, q, t)
  }

  /** Before the first bin of level `t + 1` is placed, the invariant holds of the finished
      pyramid. */
  lemma {:induction false} BuildStart(a: seq<Node>, lv: seq<nat>, layers: seq<Layer>, root: nat,
                   limits: seq<(real, real)>, ps: seq<seq<real>>, t: nat)
    requires root == 0 && Shaped(a, lv, layers, |limits|) && Covered(a, lv, layers)
    requires t + 1 == |layers| && (t == 0 || |limits| >= 2)
    ensures Building(a, lv, a, lv, layers, root, limits, ps, 0, t)
  {
    assert ps[..0] == [] && lv + Repeat(t + 1, 0) == lv;
    forall i | 0 <= i < |a|
      ensures a[i] == a[i].(children := a[i].children + Attached(a, root, limits, i, ps[..0], |a|, t))
    {
      assert a[i].children + [] == a[i].children;
    }
  }

  /** Before placing bin `q`: every bin already on the level has a smaller id. */
  lemma {:induction false} BuildPre(a: seq<Node>, lv: seq<nat>, cur: seq<Node>, clv: seq<nat>, layers: seq<Layer>,
                 root: nat, limits: seq<(real, real)>, ps: seq<seq<real>>, q: nat, t: nat)
    requires Building(a, lv, cur, clv, layers, root, limits, ps, q, t)
    ensures forall i :: 0 <= i < |cur| && clv[i] == |layers| ==> cur[i].id < q
  {
    PlacedIds(a, cur, root, limits, ps, q, t);
    assert forall i :: 0 <= i < |a| ==> clv[i] == lv[i] < |layers|;
  }

  /** The bins placed so far on the level carry the ids `0, 1, ...` in slot order. */
  lemma {:induction false} PlacedIds(a: seq<Node>, cur: seq<Node>, root: nat, limits: seq<(real, real)>,
                                     ps: seq<seq<real>>, q: nat, t: nat)
    requires Closed(a) && root < |a| && (t == 0 || |limits| >= 2) && q <= |ps|
    requires Placed(a, cur, root, limits, ps, q, t)
    ensures |cur| == |a| + q && forall i :: |a| <= i < |cur| ==> cur[i].id == i - |a|
  {
    forall i | |a| <= i < |cur|
      ensures cur[i].id == i - |a|
    {
      var j := i - |a|;
      assert cur[|a| + j] == NewNode(ps[j], j);
    }
  }

  /** After placing bin `q` as `PlaceBin` does, the invariant holds for `q + 1`. */
  lemma {:induction false} BuildStep(a: seq<Node>, lv: seq<nat>, cur: seq<Node>, clv: seq<nat>, layers: seq<Layer>,
                  root: nat, limits: seq<(real, real)>, ps: seq<seq<real>>, q: nat, t: nat,
                  nxt: seq<Node>, nlv: seq<nat>)
    requires Building(a, lv, cur, clv, layers, root, limits, ps, q, t) && q < |ps|
    requires Shaped(nxt, nlv, layers, |limits|) && nlv == clv + [|layers|]
    requires PlacedOne(cur, nxt, root, limits, ps[q], q, t)
    ensures Building(a, lv, nxt, nlv, layers, root, limits, ps, q + 1, t)
  {
    PlaceStep(a, lv, cur, nxt, root, limits, ps, q, t);
    RepeatStep(lv, clv, nlv, |layers|, q);
  }

  /** When every bin of the level is placed, listing them as a new layer completes the pyramid. */
  lemma {:induction false} BuildDone(a: seq<Node>, lv: seq<nat>, cur: seq<Node>, clv: seq<nat>, layers: seq<Layer>,
                  root: nat, limits: seq<(real, real)>, ps: seq<seq<real>>, t: nat, layer: Layer)
    requires Building(a, lv, cur, clv, layers, root, limits, ps, |ps|, t) && Covered(a, lv, layers)
    requires layer.node == Slots(|a|, |ps|)
    ensures Shaped(cur, clv, layers + [layer], |limits|) && Covered(cur, clv, layers + [layer])
  {
    PlacedIds(a, cur, root, limits, ps, |ps|, t);
    PlacedBins(a, cur, root, limits, ps, t);
    CloseLayer(a, lv, cur, clv, layers, |limits|, layer, |ps|);
  }

  lemma {:induction false} RepeatStep(lv: seq<nat>, clv: seq<nat>, nlv: seq<nat>, m: nat, q: nat)
    requires clv == lv + Repeat(m, q) && nlv == clv + [m]
    ensures nlv == lv + Repeat(m, q + 1)
  {
    assert Repeat(m, q + 1) == Repeat(m, q) + [m];
  }

  // ---------------------------------------------------------------------------------------------
  // What `new` builds

  /** Why `new` panics, in the order its checks run. */
  datatype Abort =
    | NotPowerOfTwo                    // a bin count fails `is_power_of_two`
    | NoBins                           // `max().unwrap()` on an empty list of bin counts
    | BinPositionsFailed(e: GridError) // `bin_positions` aborts on the first grid level
    | MissingAxis                      // `extent_of_layer` reads `limits[1]` from level 2 on

  /** The number of grid levels: the largest `log2` of the bin counts. */
  function MaxLog2(ns: seq<nat>): (m: nat)
    requires |ns| >= 1 && forall i :: 0 <= i < |ns| ==> IsPowerOfTwo(ns[i])
    ensures forall i :: 0 <= i < |ns| ==> Log2(ns[i]) <= m
    ensures exists i :: 0 <= i < |ns| && Log2(ns[i]) == m
  {
    var last := Log2(ns[|ns| - 1]);
    if |ns| == 1 then last
    else
      var init := ns[..|ns| - 1];
      assert forall i :: 0 <= i < |init| ==> init[i] == ns[i];
      var m' := MaxLog2(init);
      if m' < last then last else m'
  }

  /** Whether `new(limits, n_bins)` panics, and at which check. Only the levels it builds look at
      the limits: with every bin count 1 there is no grid level and any limits are accepted. */
  function NewCheck(limits: seq<(real, real)>, nBins: seq<nat>): Option<Abort>
  {
    if exists i :: 0 <= i < |nBins| && !IsPowerOfTwo(nBins[i]) then Some(NotPowerOfTwo)
    else if |nBins| == 0 then Some(NoBins)
    else
      var top := MaxLog2(nBins);
      if top >= 1 && |limits| != |nBins| then Some(BinPositionsFailed(LimitsMismatch))
      else if top >= 1 && |nBins| > 4 then Some(BinPositionsFailed(Unimplemented))
      else if top >= 2 && |limits| < 2 then Some(MissingAxis)
      else None
  }

  /** Whether building grid level `l` panics: `bin_positions` asserts one limit per axis and
      handles 1 to 4 axes, and from level 2 on `extent_of_layer` reads the limits of axes 0 and 1. */
  function LevelCheck(limits: seq<(real, real)>, nBins: seq<nat>, l: nat): Option<Abort>
  {
    if |limits| != |nBins| then Some(BinPositionsFailed(LimitsMismatch))
    else if |nBins| > 4 then Some(BinPositionsFailed(Unimplemented))
    else if l >= 2 && |limits| < 2 then Some(MissingAxis)
    else None
  }

  /** Every grid level below `l` was built without a panic. */
  predicate LevelsPassed(limits: seq<(real, real)>, nBins: seq<nat>, l: nat)
  {
    (l >= 2 ==> |limits| == |nBins| <= 4) && (l >= 3 ==> |limits| >= 2)
  }

  /** The first grid level that panics decides `new`'s abort, and a level that passes extends the
      levels passed. */
  lemma {:induction false} FirstFailingLevel(limits: seq<(real, real)>, nBins: seq<nat>, l: nat)
    requires |nBins| >= 1 && (forall i :: 0 <= i < |nBins| ==> IsPowerOfTwo(nBins[i]))
    requires 1 <= l <= MaxLog2(nBins) && LevelsPassed(limits, nBins, l)
    ensures LevelCheck(limits, nBins, l).Some? ==> NewCheck(limits, nBins) == LevelCheck(limits, nBins, l)
    ensures LevelCheck(limits, nBins, l).None? ==> LevelsPassed(limits, nBins, l + 1)
  {
  }

  /** When every grid level passes, `new` does not abort. */
  lemma {:induction false} AllLevelsPassed(limits: seq<(real, real)>, nBins: seq<nat>)
    requires |nBins| >= 1 && (forall i :: 0 <= i < |nBins| ==> IsPowerOfTwo(nBins[i]))
    requires LevelsPassed(limits, nBins, MaxLog2(nBins) + 1)
    ensures NewCheck(limits, nBins) == None
  {
  }

  /** The root's position: the middle of each axis. */
  function Midpoints(limits: seq<(real, real)>): (m: seq<real>)
    ensures |m| == |limits|
    ensures forall i :: 0 <= i < |limits| ==> m[i] - limits[i].0 == limits[i].1 - m[i]
  {
    seq(|limits|, i requires 0 <= i < |limits| => (limits[i].0 + limits[i].1) / 2.0)
  }

  /** The root layer's extent, twice the distance from the middle to the upper limit: the whole
      width of each axis. */
  function RootExtent(limits: seq<(real, real)>): (e: seq<real>)
    ensures |e| == |limits|
    ensures forall i :: 0 <= i < |limits| ==> e[i] == limits[i].1 - limits[i].0
  {
    var m := Midpoints(limits);
    seq(|limits|, i requires 0 <= i < |limits| => 2.0 * (limits[i].1 - m[i]))
  }

  /** The root's support contains every point within the limits. */
  lemma {:induction false} RootCoversDomain(limits: seq<(real, real)>, p: seq<real>)
    requires |p| == |limits| && forall i :: 0 <= i < |limits| ==> limits[i].0 <= p[i] <= limits[i].1
    ensures Inside(Midpoints(limits), p, RootExtent(limits))
  {
    var m, e := Midpoints(limits), RootExtent(limits);
    assert ZipLen(m, p, e) == |limits|;
    InsideIff(m, p, e);
  }

  /** With every bin count 1 there are no grid levels, so `new` accepts any limits. */
  lemma {:induction false} SingleBinsAccepted(limits: seq<(real, real)>, nBins: seq<nat>)
    requires |nBins| >= 1 && forall i :: 0 <= i < |nBins| ==> nBins[i] == 1
    ensures NewCheck(limits, nBins) == None
  {
    assert forall i :: 0 <= i < |nBins| ==> IsPowerOfTwo(nBins[i]) && Log2(nBins[i]) == 0;
    var i :| 0 <= i < |nBins| && Log2(nBins[i]) == MaxLog2(nBins);
  }

  /** A pyramid over one axis can only have one grid level: from level 2 on, every push needs the
      extent of the second axis. */
  lemma {:induction false} OneAxisAtMostTwoBins(limits: seq<(real, real)>, n: nat)
    requires |limits| == 1 && IsPowerOfTwo(n)
    ensures NewCheck(limits, [n]) == None <==> n <= 2
    ensures n > 2 ==> NewCheck(limits, [n]) == Some(MissingAxis)
  {
    var k := Log2(n);
    assert MaxLog2([n]) == k;
    if k >= 2 {
      Pow2Monotone(1, k);
    } else if k == 1 {
      assert n == 2;
    } else {
      assert n == 1;
    }
  }

  /** Two axes with one limit each and any power-of-two bin counts are accepted. */
  lemma {:induction false} TwoAxesAccepted(limits: seq<(real, real)>, nBins: seq<nat>)
    requires |limits| == |nBins| == 2 && IsPowerOfTwo(nBins[0]) && IsPowerOfTwo(nBins[1])
    ensures NewCheck(limits, nBins) == None
  {
    assert forall i :: 0 <= i < |nBins| ==> IsPowerOfTwo(nBins[i]);
  }

  /** Layer 0 of `new`: the root alone, at the middle of the limits, spanning their whole width,
      with grid size `[1, 1]`. */
  ghost predicate RootLayer(nodes: seq<Node>, layer: Layer, limits: seq<(real, real)>)
    requires |nodes| >= 1
  {
    layer.node == [0] && nodes[0].id == 0 && nodes[0].pos == Midpoints(limits) &&
    layer.extent == RootExtent(limits) && layer.bins == [1, 1]
  }

  /** Layer `l` of `new`: the grid of `ns` bins per axis, its `j`-th bin at the `j`-th grid
      position, the grid step as extent and `[2^l, 2^l]` as grid size. */
  ghost predicate GridLayer(nodes: seq<Node>, layer: Layer, limits: seq<(real, real)>, ns: seq<nat>, l: nat)
    requires |limits| == |ns|
  {
    |layer.node| == Product(ns) && layer.extent == Steps(limits, ns) && layer.bins == [Pow2(l), Pow2(l)] &&
    forall j :: 0 <= j < |layer.node| ==> layer.node[j] < |nodes| && nodes[layer.node[j]].pos == Point(limits, ns, j)
  }

  /** The lattice `push_node` builds: a bin one level below `x` is a child of `x` exactly when the
      walk from the root towards the bin's position ends at `x`. */
  ghost predicate Linked(nodes: seq<Node>, level: seq<nat>, root: nat, limits: seq<(real, real)>)
    requires Layered(nodes, level) && root < |nodes|
  {
    forall c, x ::
      0 <= c < |nodes| && 0 <= x < |nodes| && level[c] == level[x] + 1 && (level[x] == 0 || |limits| >= 2) ==>
        (c in nodes[x].children <==> x in Walk(nodes, root, nodes[c].pos, limits, level[x]))
  }

  /** What `new` has built, beyond the shape invariant, once it finished its first `|layers| - 1`
      grid levels: the root layer, one grid layer per level, every value 0, and the lattice. */
  ghost predicate Grown(nodes: seq<Node>, level: seq<nat>, layers: seq<Layer>,
                        limits: seq<(real, real)>, nBins: seq<nat>)
    requires Layered(nodes, level) && |nodes| >= 1 && |layers| >= 1
  {
    (|layers| >= 2 ==> |limits| == |nBins|) && (|layers| >= 3 ==> |limits| >= 2) &&
    RootLayer(nodes, layers[0], limits) &&
    (forall l :: 1 <= l < |layers| ==> GridLayer(nodes, layers[l], limits, Repeat(Pow2(l), |nBins|), l)) &&
    (forall i :: 0 <= i < |nodes| ==> nodes[i].val == 0.0) &&
    Linked(nodes, level, 0, limits)
  }

  /** A pair of bins of earlier levels keeps its link: neither the parent's children nor the walk
      (which only reads children of levels above the parent) have changed. */
  lemma {:induction false} LinkedEarlier(a: seq<Node>, lv: seq<nat>, cur: seq<Node>, root: nat,
                                         limits: seq<(real, real)>, t: nat, c: nat, x: nat)
    requires Layered(a, lv) && root < |a| && lv[root] == 0 && Closed(cur) && SameBins(a, cur)
    requires c < |a| && x < |a| && lv[c] == lv[x] + 1 && lv[x] < t && (lv[x] == 0 || |limits| >= 2)
    requires forall i :: 0 <= i < |a| && lv[i] < t ==> cur[i].children == a[i].children
    requires c in a[x].children <==> x in Walk(a, root, a[c].pos, limits, lv[x])
    ensures c in cur[x].children <==> x in Walk(cur, root, cur[c].pos, limits, lv[x])
  {
    WalkAgree(a, cur, lv, root, a[c].pos, limits, lv[x]);
  }

  /** The `j`-th new bin hangs under `x` exactly when the walk towards its position ends at `x`. */
  lemma {:induction false} LinkedFresh(a: seq<Node>, lv: seq<nat>, cur: seq<Node>, root: nat,
                                       limits: seq<(real, real)>, p: seq<real>, t: nat, c: nat, x: nat)
    requires Layered(a, lv) && root < |a| && lv[root] == 0 && (t == 0 || |limits| >= 2)
    requires Closed(cur) && SameBins(a, cur) && c < |cur| && cur[c].pos == p && x < |a| && lv[x] == t
    requires c in cur[x].children <==> x in Walk(a, root, p, limits, t)
    requires forall i :: 0 <= i < |a| && lv[i] < t ==> cur[i].children == a[i].children
    ensures c in cur[x].children <==> x in Walk(cur, root, cur[c].pos, limits, t)
  {
    WalkAgree(a, cur, lv, root, p, limits, t);
  }

  /** Whether slot `c` of the level being placed is among the children `x` gains, given whether
      `x` is on the target level (a bin off that level is never reached). */
  lemma {:induction false} AttachedSlot(a: seq<Node>, root: nat, limits: seq<(real, real)>,
                                        ps: seq<seq<real>>, t: nat, x: nat, c: nat, here: bool)
    requires Closed(a) && root < |a| && (t == 0 || |limits| >= 2)
    requires x < |a| && |a| <= c < |a| + |ps|
    requires !here ==> x !in Walk(a, root, ps[c - |a|], limits, t)
    ensures c in a[x].children + Attached(a, root, limits, x, ps, |a|, t) <==>
      here && x in Walk(a, root, ps[c - |a|], limits, t)
  {
    AttachedIff(a, root, limits, x, ps, |a|, t, c);
    NotYetChild(a, x, c);
    InJoin(a[x].children, Attached(a, root, limits, x, ps, |a|, t), c);
  }

  lemma {:induction false} InJoin(cs: seq<nat>, att: seq<nat>, c: nat)
    requires c !in cs
    ensures (c in cs + att) == (c in att)
  {
  }

  /** A bin off level `t` is never on the walk's `t`-th frontier. */
  lemma {:induction false} OffLevel(a: seq<Node>, lv: seq<nat>, root: nat, p: seq<real>, limits: seq<(real, real)>,
                                    t: nat, x: nat)
    requires Layered(a, lv) && root < |a| && lv[root] == 0 && (t == 0 || |limits| >= 2)
    requires x < |a| && lv[x] != t
    ensures x !in Walk(a, root, p, limits, t)
  {
    WalkLevel(a, lv, root, p, limits, t);
  }

  /** A slot past the end of the arena is nobody's child yet. */
  lemma {:induction false} NotYetChild(a: seq<Node>, x: nat, c: nat)
    requires Closed(a) && x < |a| && c >= |a|
    ensures c !in a[x].children
  {
  }

  /** After a whole level is placed, every earlier bin has gained exactly its `Attached` slots. */
  lemma {:induction false} PlacedGains(a: seq<Node>, cur: seq<Node>, root: nat, limits: seq<(real, real)>,
                                       ps: seq<seq<real>>, t: nat)
    requires Closed(a) && root < |a| && (t == 0 || |limits| >= 2) && Placed(a, cur, root, limits, ps, |ps|, t)
    ensures |cur| == |a| + |ps|
    ensures forall i :: 0 <= i < |a| ==> cur[i].children == a[i].children + Attached(a, root, limits, i, ps, |a|, t)
  {
    assert ps[..|ps|] == ps;
  }

  /** Bins above the target level keep their children while a level is placed. */
  lemma {:induction false} PlacedKeeps(a: seq<Node>, lv: seq<nat>, cur: seq<Node>, root: nat,
                                       limits: seq<(real, real)>, ps: seq<seq<real>>, t: nat)
    requires Layered(a, lv) && root < |a| && lv[root] == 0 && (t == 0 || |limits| >= 2) && |a| <= |cur|
    requires forall i :: 0 <= i < |a| ==> cur[i].children == a[i].children + Attached(a, root, limits, i, ps, |a|, t)
    ensures forall i :: 0 <= i < |a| && lv[i] < t ==> cur[i].children == a[i].children
  {
    forall i | 0 <= i < |a| && lv[i] < t
      ensures cur[i].children == a[i].children
    {
      AttachedOnlyLevel(a, lv, root, limits, i, ps, |a|, t);
      assert a[i].children + [] == a[i].children;
    }
  }

  /** The `j`-th new bin is a child of `x` exactly when `x` is on the target level and the walk
      towards the new bin's position ends at `x`. */
  lemma {:induction false} PlacedParents(a: seq<Node>, lv: seq<nat>, cur: seq<Node>, root: nat,
                                         limits: seq<(real, real)>, ps: seq<seq<real>>, t: nat)
    requires Layered(a, lv) && root < |a| && lv[root] == 0 && (t == 0 || |limits| >= 2) && |a| <= |cur|
    requires forall i :: 0 <= i < |a| ==> cur[i].children == a[i].children + Attached(a, root, limits, i, ps, |a|, t)
    ensures forall x, c :: 0 <= x < |a| && |a| <= c < |a| + |ps| ==>
      (c in cur[x].children <==> lv[x] == t && x in Walk(a, root, ps[c - |a|], limits, t))
  {
    forall x, c | 0 <= x < |a| && |a| <= c < |a| + |ps|
      ensures c in cur[x].children <==> lv[x] == t && x in Walk(a, root, ps[c - |a|], limits, t)
    {
      if lv[x] != t {
        OffLevel(a, lv, root, ps[c - |a|], limits, t, x);
      }
      AttachedSlot(a, root, limits, ps, t, x, c, lv[x] == t);
    }
  }

  /** Placing a level keeps the lattice: bins of earlier levels keep their parents and walks, and
      every new bin hangs exactly under the end of the walk towards it. */
  lemma {:induction false} LinkedStep(a: seq<Node>, lv: seq<nat>, cur: seq<Node>, clv: seq<nat>, root: nat,
                                      limits: seq<(real, real)>, ps: seq<seq<real>>, t: nat)
    requires Layered(a, lv) && root < |a| && lv[root] == 0 && (t == 0 || |limits| >= 2)
    requires forall i :: 0 <= i < |a| ==> lv[i] <= t
    requires Layered(cur, clv) && clv == lv + Repeat(t + 1, |ps|) && Linked(a, lv, root, limits)
    requires SameBins(a, cur) && |cur| == |a| + |ps| && forall j :: 0 <= j < |ps| ==> cur[|a| + j].pos == ps[j]
    requires forall i :: 0 <= i < |a| && lv[i] < t ==> cur[i].children == a[i].children
    requires forall x, c :: 0 <= x < |a| && |a| <= c < |a| + |ps| ==>
      (c in cur[x].children <==> lv[x] == t && x in Walk(a, root, ps[c - |a|], limits, t))
    ensures Linked(cur, clv, root, limits)
  {
    forall c, x | 0 <= c < |cur| && 0 <= x < |cur| && clv[c] == clv[x] + 1 && (clv[x] == 0 || |limits| >= 2)
      ensures c in cur[x].children <==> x in Walk(cur, root, cur[c].pos, limits, clv[x])
    {
      if c < |a| {
        assert x < |a| && clv[c] == lv[c] && clv[x] == lv[x];
        LinkedEarlier(a, lv, cur, root, limits, t, c, x);
      } else {
        var j := c - |a|;
        assert x < |a| && lv[x] == t && clv[x] == t;
        LinkedFresh(a, lv, cur, root, limits, ps[j], t, c, x);
      }
    }
  }

  /** What placing a level leaves of each bin: earlier bins keep id, position and value; the new
      bins sit at their grid positions with no value. */
  lemma {:induction false} PlacedBins(a: seq<Node>, cur: seq<Node>, root: nat, limits: seq<(real, real)>,
                                      ps: seq<seq<real>>, t: nat)
    requires Closed(a) && root < |a| && (t == 0 || |limits| >= 2) && Placed(a, cur, root, limits, ps, |ps|, t)
    ensures SameBins(a, cur) && |cur| == |a| + |ps|
    ensures forall i :: 0 <= i < |a| ==> cur[i].val == a[i].val
    ensures forall j :: 0 <= j < |ps| ==> cur[|a| + j].pos == ps[j]
    ensures forall i :: |a| <= i < |cur| ==> cur[i].val == 0.0
  {
    forall i | |a| <= i < |cur|
      ensures cur[i].val == 0.0
    {
      var j := i - |a|;
      assert cur[|a| + j] == NewNode(ps[j], j);
    }
  }

  /** A grid layer is kept when the bins it lists keep their positions. */
  lemma {:induction false} GridKept(a: seq<Node>, cur: seq<Node>, layer: Layer, limits: seq<(real, real)>,
                                    ns: seq<nat>, l: nat)
    requires |limits| == |ns| && GridLayer(a, layer, limits, ns, l) && SameBins(a, cur)
    ensures GridLayer(cur, layer, limits, ns, l)
  {
  }

  /** The bins placed at the grid positions `ps`, listed in slot order, form the grid layer. */
  lemma {:induction false} GridFresh(a: seq<Node>, cur: seq<Node>, limits: seq<(real, real)>, ns: seq<nat>,
                                     ps: seq<seq<real>>, ext: seq<real>, l: nat)
    requires |limits| == |ns| && ext == Steps(limits, ns) && IsGrid(limits, ns, ps)
    requires |cur| == |a| + |ps| && forall j :: 0 <= j < |ps| ==> cur[|a| + j].pos == ps[j]
    ensures GridLayer(cur, Layer(Slots(|a|, |ps|), ext, [Pow2(l), Pow2(l)]), limits, ns, l)
  {
  }

  /** Placing a level keeps every earlier layer's grid and appends the grid of the new level. */
  lemma {:induction false} GrowLayers(a: seq<Node>, layers: seq<Layer>, cur: seq<Node>, limits: seq<(real, real)>,
                                      nBins: seq<nat>, ps: seq<seq<real>>, ext: seq<real>, t: nat)
    requires |a| >= 1 && |layers| >= 1 && RootLayer(a, layers[0], limits) && t + 1 == |layers| && |limits| == |nBins|
    requires forall l :: 1 <= l < |layers| ==> GridLayer(a, layers[l], limits, Repeat(Pow2(l), |nBins|), l)
    requires var ns := Repeat(Pow2(t + 1), |nBins|); ext == Steps(limits, ns) && IsGrid(limits, ns, ps)
    requires SameBins(a, cur) && |cur| == |a| + |ps| && forall j :: 0 <= j < |ps| ==> cur[|a| + j].pos == ps[j]
    ensures var ls := layers + [Layer(Slots(|a|, |ps|), ext, [Pow2(t + 1), Pow2(t + 1)])];
      RootLayer(cur, ls[0], limits) &&
      forall l :: 1 <= l < |ls| ==> GridLayer(cur, ls[l], limits, Repeat(Pow2(l), |nBins|), l)
  {
    var ls := layers + [Layer(Slots(|a|, |ps|), ext, [Pow2(t + 1), Pow2(t + 1)])];
    forall l | 1 <= l < |ls|
      ensures GridLayer(cur, ls[l], limits, Repeat(Pow2(l), |nBins|), l)
    {
      if l < |layers| {
        assert ls[l] == layers[l];
        GridKept(a, cur, layers[l], limits, Repeat(Pow2(l), |nBins|), l);
      } else {
        GridFresh(a, cur, limits, Repeat(Pow2(l), |nBins|), ps, ext, l);
      }
    }
  }

  /** Every value is still 0 after placing a level. */
  lemma {:induction false} ZeroValues(a: seq<Node>, cur: seq<Node>, n: nat)
    requires |cur| == |a| + n && forall i :: 0 <= i < |a| ==> a[i].val == 0.0 && cur[i].val == a[i].val
    requires forall i :: |a| <= i < |cur| ==> cur[i].val == 0.0
    ensures forall i :: 0 <= i < |cur| ==> cur[i].val == 0.0
  {
  }

  /** One grid level of `new`, placed on a pyramid grown to level `t`, grows it to level `t + 1`. */
  lemma {:induction false} GrowStep(a: seq<Node>, lv: seq<nat>, layers: seq<Layer>, cur: seq<Node>, clv: seq<nat>,
                                    limits: seq<(real, real)>, nBins: seq<nat>, ps: seq<seq<real>>, ext: seq<real>, t: nat)
    requires Layered(a, lv) && |a| >= 1 && lv[0] == 0 && t + 1 == |layers| && (t == 0 || |limits| >= 2)
    requires forall i :: 0 <= i < |a| ==> lv[i] <= t
    requires RootLayer(a, layers[0], limits) && |limits| == |nBins|
    requires forall l :: 1 <= l < |layers| ==> GridLayer(a, layers[l], limits, Repeat(Pow2(l), |nBins|), l)
    requires (forall i :: 0 <= i < |a| ==> a[i].val == 0.0) && Linked(a, lv, 0, limits)
    requires var ns := Repeat(Pow2(t + 1), |nBins|); ext == Steps(limits, ns) && IsGrid(limits, ns, ps)
    requires Layered(cur, clv) && clv == lv + Repeat(t + 1, |ps|) && Placed(a, cur, 0, limits, ps, |ps|, t)
    ensures |cur| >= 1
    ensures Grown(cur, clv, layers + [Layer(Slots(|a|, |ps|), ext, [Pow2(t + 1), Pow2(t + 1)])], limits, nBins)
  {
    PlacedBins(a, cur, 0, limits, ps, t);
    ZeroValues(a, cur, |ps|);
    GrowLayers(a, layers, cur, limits, nBins, ps, ext, t);
    GrowLinked(a, lv, cur, clv, limits, ps, t);
    GrownFrom(cur, clv, layers + [Layer(Slots(|a|, |ps|), ext, [Pow2(t + 1), Pow2(t + 1)])], limits, nBins);
  }

  /** `Grown`, assembled from its parts. */
  lemma {:induction false} GrownFrom(cur: seq<Node>, clv: seq<nat>, ls: seq<Layer>, limits: seq<(real, real)>, nBins: seq<nat>)
    requires Layered(cur, clv) && |cur| >= 1 && |ls| >= 2 && |limits| == |nBins| && (|ls| >= 3 ==> |limits| >= 2)
    requires RootLayer(cur, ls[0], limits)
    requires forall l :: 1 <= l < |ls| ==> GridLayer(cur, ls[l], limits, Repeat(Pow2(l), |nBins|), l)
    requires (forall i :: 0 <= i < |cur| ==> cur[i].val == 0.0) && Linked(cur, clv, 0, limits)
    ensures Grown(cur, clv, ls, limits, nBins)
  {
  }

  /** Placing a level on a linked arena leaves it linked. */
  lemma {:induction false} GrowLinked(a: seq<Node>, lv: seq<nat>, cur: seq<Node>, clv: seq<nat>,
                                      limits: seq<(real, real)>, ps: seq<seq<real>>, t: nat)
    requires Layered(a, lv) && |a| >= 1 && lv[0] == 0 && (t == 0 || |limits| >= 2)
    requires (forall i :: 0 <= i < |a| ==> lv[i] <= t) && Linked(a, lv, 0, limits)
    requires Layered(cur, clv) && clv == lv + Repeat(t + 1, |ps|) && Placed(a, cur, 0, limits, ps, |ps|, t)
    ensures Linked(cur, clv, 0, limits)
  {
    PlacedBins(a, cur, 0, limits, ps, t);
    PlacedGains(a, cur, 0, limits, ps, t);
    PlacedKeeps(a, lv, cur, 0, limits, ps, t);
    PlacedParents(a, lv, cur, 0, limits, ps, t);
    LinkedStep(a, lv, cur, clv, 0, limits, ps, t);
  }

  /** The pyramid `new` starts from: the root alone. */
  lemma {:induction false} RootPyramid(limits: seq<(real, real)>, nBins: seq<nat>)
    ensures var nodes, level := [NewNode(Midpoints(limits), 0)], [0];
      var layers := [NewLayer(0, RootExtent(limits)).PushNode(0)];
      Shaped(nodes, level, layers, |limits|) && Covered(nodes, level, layers) && Grown(nodes, level, layers, limits, nBins)
  {
    var nodes, level := [NewNode(Midpoints(limits), 0)], [0];
    var layers := [NewLayer(0, RootExtent(limits)).PushNode(0)];
    assert Layered(nodes, level);
  }

  /** The `j`-th bin count `(2^l)^dims` of level `l`: the product of `dims` copies of `2^l`. */
  lemma {:induction false} ProductRepeat(x: nat, n: nat)
    ensures Product(Repeat(x, n)) == Pow(x, n)
  {
    if n > 0 {
      ProductRepeat(x, n - 1);
      assert Repeat(x, n)[..n - 1] == Repeat(x, n - 1);
    }
  }

  /** Level `l` of a grown pyramid holds `(2^l)^dims` bins: the same resolution on every axis,
      whatever the bin counts asked for. */
  lemma {:induction false} GridLayerSize(nodes: seq<Node>, level: seq<nat>, layers: seq<Layer>,
                                         limits: seq<(real, real)>, nBins: seq<nat>, l: nat)
    requires Shaped(nodes, level, layers, |limits|) && Grown(nodes, level, layers, limits, nBins)
    requires 1 <= l < |layers|
    ensures |layers[l].node| == Pow(Pow2(l), |nBins|)
  {
    assert GridLayer(nodes, layers[l], limits, Repeat(Pow2(l), |nBins|), l);
    ProductRepeat(Pow2(l), |nBins|);
  }

  /** In a grown pyramid the root's children are exactly the bins of level 1. */
  lemma {:induction false} RootChildren(nodes: seq<Node>, level: seq<nat>, layers: seq<Layer>,
                                        limits: seq<(real, real)>, nBins: seq<nat>, c: nat)
    requires Shaped(nodes, level, layers, |limits|) && Grown(nodes, level, layers, limits, nBins)
    requires c < |nodes|
    ensures c in nodes[0].children <==> level[c] == 1
  {
    assert Linked(nodes, level, 0, limits);
    if c in nodes[0].children {
      ChildLevel(nodes, level, 0, c);
    }
    if level[c] == 1 {
      assert Walk(nodes, 0, nodes[c].pos, limits, 0) == [0];
    }
  }

  /** Pyramid equality, reflexive by its contract, is also symmetric and transitive: an equivalence
      that does not look at bins or values. */
  lemma {:induction false} EqualsIsEquivalence(p: Pyramid, q: Pyramid, r: Pyramid)
    ensures p.Equals(q) ==> q.Equals(p)
    ensures p.Equals(q) && q.Equals(r) ==> p.Equals(r)
  {
  }

  class Pyramid {
    /** The arena of bins; slot `root` is the root. */
    var nodes: seq<Node>
    var layers: seq<Layer>
    const root: nat
    const limits: seq<(real, real)>
    const nBins: seq<nat>
    /** The level of each bin (which layer it belongs to). */
    ghost var level: seq<nat>

    /** A finished pyramid: shaped, and every bin listed in a layer. */
    ghost predicate Valid()
      reads this
    {
      root == 0 && Shaped(nodes, level, layers, |limits|) && Covered(nodes, level, layers)
    }

    /** `new` has built the root layer and the grid levels below it, `l` layers in all. */
    ghost predicate Built(l: nat)
      reads this
    {
      Valid() && |layers| == l && l >= 1 && Grown(nodes, level, layers, limits, nBins)
    }

    /** `PartialEq for Pyramid`: the same limits and bin counts; bins and values are not compared. */
    predicate Equals(other: Pyramid)
      reads this, other
      ensures this == other ==> Equals(other)
    {
      limits == other.limits && nBins == other.nBins
    }

    /** The frontier loop shared by `push_node` and `add_point`: for each bin of `curr` in order,
        for each of its children in order, keep the child if its support `pos ± ext` contains `p`
        and no kept bin has its id yet. */
    static method NextFrontier(nodes: seq<Node>, curr: seq<nat>, p: seq<real>, ext: seq<real>) returns (next: seq<nat>)
      requires Closed(nodes) && AllIn(nodes, curr)
      ensures next == Collect(nodes, curr, p, ext)
    {
      next := [];
      for i := 0 to |curr|
        invariant next == Collect(nodes, curr[..i], p, ext)
      {
        var cs := nodes[curr[i]].children;
        ghost var before := next;
        for j := 0 to |cs|
          invariant next == Keep(nodes, cs[..j], p, ext, before)
        {
          var c := cs[j];
          assert cs[..j + 1][..j] == cs[..j];
          if Inside(nodes[c].pos, p, ext) && !HasId(nodes, next, nodes[c].id) {
            next := next + [c];
          }
        }
        assert cs[..|cs|] == cs;
        assert curr[..i + 1][..i] == curr[..i];
      }
      assert curr[..|curr|] == curr;
    }

    /** `push_node(node, target)` on the arena `arena` with levels `lvl`: walk `target` steps from
        the root towards the position of bin `n`, then attach `n` as the last child of every bin
        of the final frontier. */
    method PushInto(arena: seq<Node>, ghost lvl: seq<nat>, n: nat, target: nat) returns (b: seq<Node>)
      requires root == 0 && Shaped(arena, lvl, layers, |limits|)
      requires n < |arena| && lvl[n] == target + 1 && (target == 0 || |limits| >= 2)
      ensures Shaped(b, lvl, layers, |limits|)
      ensures Covered(arena, lvl, layers) ==> Covered(b, lvl, layers)
      ensures |b| == |arena| && forall i :: 0 <= i < |b| ==>
        b[i] == if i in Walk(arena, root, arena[n].pos, limits, target) then arena[i].PushChild(n) else arena[i]
    {
      assert Layered(arena, lvl);
      var curr := Frontier(arena, arena[n].pos, target);
      WalkLevel(arena, lvl, root, arena[n].pos, limits, target);
      WalkDistinct(arena, root, arena[n].pos, limits, target);
      b := Attach(arena, curr, n);
      AttachKeepsShape(arena, b, lvl, layers, |limits|, curr, n);
    }

    /** `push_node(node, target)` on the pyramid itself. */
    method PushNode(n: nat, target: nat)
      requires root == 0 && Shaped(nodes, level, layers, |limits|)
      requires n < |nodes| && level[n] == target + 1 && (target == 0 || |limits| >= 2)
      modifies this
      ensures Shaped(nodes, level, layers, |limits|)
      ensures layers == old(layers) && level == old(level) && |nodes| == |old(nodes)|
      ensures Covered(old(nodes), level, layers) ==> Covered(nodes, level, layers)
      ensures forall i :: 0 <= i < |nodes| ==>
        nodes[i] == if i in old(Walk(nodes, root, nodes[n].pos, limits, target))
                    then old(nodes[i]).PushChild(n) else old(nodes[i])
    {
      nodes := PushInto(nodes, level, n, target);
    }

    /** The `for lay in 0..target` loop of `push_node`: the frontier after `target` steps. */
    method Frontier(arena: seq<Node>, p: seq<real>, target: nat) returns (curr: seq<nat>)
      requires Closed(arena) && root < |arena| && (target == 0 || |limits| >= 2)
      ensures curr == Walk(arena, root, p, limits, target)
    {
      curr := [root];
      for lay := 0 to target
        invariant curr == Walk(arena, root, p, limits, lay)
      {
        curr := NextFrontier(arena, curr, p, ExtentOfLayer(limits, lay + 1));
      }
    }

    /** `add_point(p)`: walk from the root one level per layer (step `k` tests against the extent
        of level `k`) and add to every bin of each new frontier the kernel of `p` under that extent.
        Each bin gains exactly what `Gain` says; nothing but values changes. */
    method AddPoint(p: seq<real>)
      requires Valid()
      requires |limits| >= 2 && |p| >= 1 && limits[0].0 != limits[0].1 && limits[1].0 != limits[1].1
      modifies this
      ensures Valid() && layers == old(layers) && level == old(level) && |nodes| == |old(nodes)|
      ensures forall i :: 0 <= i < |nodes| ==>
        nodes[i] == old(nodes[i]).(val := old(nodes[i].val) + old(Gain(nodes, root, p, limits, i, |layers|)))
    {
      assert Layered(nodes, level);
      var arena := Spread(nodes, p, |layers|);
      DepositedSameShape(nodes, arena, root, p, limits, |layers|);
      ShapeIgnoresValues(nodes, arena, level, layers, |limits|);
      nodes := arena;
    }

    /** The `for lay in 0..layers` loop of `add_point`, over the arena `a`. */
    method Spread(a: seq<Node>, p: seq<real>, steps: nat) returns (b: seq<Node>)
      requires Closed(a) && root < |a| && Measurable(a, p, limits)
      ensures Deposited(a, b, root, p, limits, steps)
    {
      b := a;
      var curr := [root];
      for lay := 0 to steps
        invariant Deposited(a, b, root, p, limits, lay)
        invariant curr == Walk(a, root, p, limits, lay)
      {
        var ext := ExtentOfLayer(limits, lay + 1);
        DepositedSameShape(a, b, root, p, limits, lay);
        FrontierAgrees(a, b, root, p, limits, lay);
        FrontierDepositable(a, b, root, p, limits, lay);
        curr := NextFrontier(b, curr, p, ext);
        var next := AddAll(b, curr, p, ext);
        DepositStep(a, b, next, root, p, limits, lay);
        b := next;
      }
    }

    /** `clear`: visit every layer's bins and reset their values. Since every bin is listed in a
        layer, every value is reset; nothing else changes. */
    method Clear()
      requires Valid()
      modifies this
      ensures Valid() && layers == old(layers) && level == old(level)
      ensures nodes == Cleared(old(nodes))
    {
      var arena := nodes;
      for k := 0 to |layers|
        invariant |arena| == |nodes|
        invariant forall i :: 0 <= i < |arena| ==> arena[i] == if level[i] < k then nodes[i].Clear() else nodes[i]
      {
        var ns := layers[k].node;
        for j := 0 to |ns|
          invariant |arena| == |nodes|
          invariant forall i :: 0 <= i < |arena| ==>
            arena[i] == if level[i] < k || (level[i] == k && nodes[i].id < j) then nodes[i].Clear() else nodes[i]
        {
          var y := ns[j];
          arena := arena[y := arena[y].Clear()];
        }
      }
      ShapeIgnoresValues(nodes, arena, level, layers, |limits|);
      nodes := arena;
    }

    /** One pass of the `for (id, b) in bin_pos` loop of `new`, on the arena under construction:
        a fresh bin at `b` with id `id` joins level `t + 1` and is pushed with target `t`, so it
        hangs under the bins of level `t` that the walk towards `b` ends at. */
    method PlaceBin(arena: seq<Node>, ghost lvl: seq<nat>, b: seq<real>, id: nat, t: nat)
      returns (next: seq<Node>, ghost nlvl: seq<nat>)
      requires root == 0 && Shaped(arena, lvl, layers, |limits|) && t + 1 == |layers|
      requires |b| == |limits| && (t == 0 || |limits| >= 2)
      requires forall i :: 0 <= i < |arena| && lvl[i] == |layers| ==> arena[i].id < id
      ensures Shaped(next, nlvl, layers, |limits|) && nlvl == lvl + [|layers|]
      ensures PlacedOne(arena, next, root, limits, b, id, t)
    {
      var n := |arena|;
      AppendKeepsShape(arena, lvl, layers, |limits|, b, id);
      assert Layered(arena, lvl);
      AppendKeepsWalk(arena, lvl, root, limits, b, id, b, t);
      var grown := arena + [NewNode(b, id)];
      nlvl := lvl + [|layers|];
      next := PushInto(grown, nlvl, n, t);
      PlacedBin(arena, b, id, root, limits, t, next);
    }

    /** The `for (id, b) in bin_pos` loop of `new` for level `t + 1`: one fresh bin per grid
        position, id = its index, each pushed with target level `t` and listed in `layer`. */
    method PlaceLevel(positions: seq<seq<real>>, ext: seq<real>, t: nat)
      returns (arena: seq<Node>, ghost lvl: seq<nat>, layer: Layer)
      requires Valid() && t + 1 == |layers| && (t == 0 || |limits| >= 2)
      requires forall q :: 0 <= q < |positions| ==> |positions[q]| == |limits|
      ensures Building(nodes, level, arena, lvl, layers, root, limits, positions, |positions|, t)
      ensures layer == Layer(Slots(|nodes|, |positions|), ext, [Pow2(t + 1), Pow2(t + 1)])
    {
      var base := |nodes|;
      BuildStart(nodes, level, layers, root, limits, positions, t);
      arena, lvl := nodes, level;
      var empty := NewLayer(t + 1, ext);
      layer := empty;
      for q := 0 to |positions|
        invariant Building(nodes, level, arena, lvl, layers, root, limits, positions, q, t)
        invariant layer == empty.(node := Slots(base, q))
      {
        BuildPre(nodes, level, arena, lvl, layers, root, limits, positions, q, t);
        var next;
        ghost var nlvl;
        next, nlvl := PlaceBin(arena, lvl, positions[q], q, t);
        BuildStep(nodes, level, arena, lvl, layers, root, limits, positions, q, t, next, nlvl);
        arena, lvl := next, nlvl;
        SlotsStep(base, q);
        layer := layer.PushNode(base + q);
      }
    }

    /** The body of the level loop of `new` for level `t + 1`: place the bins of the level, then
        append the layer listing them. */
    method BuildLayer(positions: seq<seq<real>>, ext: seq<real>, t: nat)
      requires Valid() && t + 1 == |layers| && (t == 0 || |limits| >= 2)
      requires forall q :: 0 <= q < |positions| ==> |positions[q]| == |limits|
      modifies this
      ensures Valid()
      ensures layers == old(layers) + [Layer(Slots(|old(nodes)|, |positions|), ext, [Pow2(t + 1), Pow2(t + 1)])]
      ensures level == old(level) + Repeat(t + 1, |positions|)
      ensures Placed(old(nodes), nodes, root, limits, positions, |positions|, t)
    {
      var arena, layer;
      ghost var lvl;
      arena, lvl, layer := PlaceLevel(positions, ext, t);
      BuildDone(nodes, level, arena, lvl, layers, root, limits, positions, t, layer);
      nodes, layers := arena, layers + [layer];
      level := lvl;
    }

    /** One pass of the level loop of `new`, for level `l`: the grid of `2^l` bins per axis from
        `bin_positions`, then its bins placed with target level `l - 1`. Aborts when
        `bin_positions` does, or from level 2 on when there is no second axis; otherwise the
        pyramid is grown by one level. */
    method AddLevel(l: nat) returns (e: Option<Abort>)
      requires Built(l) && |nBins| >= 1
      modifies this
      ensures e == LevelCheck(limits, nBins, l)
      ensures e.None? ==> Built(l + 1)
    {
      var t: nat := l - 1;
      var ns := Repeat(Pow2(t + 1), |nBins|);
      var grid := BinPositions(limits, ns);
      if grid.Err? {
        return Some(BinPositionsFailed(grid.error));
      }
      if t >= 1 && |limits| < 2 {
        return Some(MissingAxis);
      }
      var positions, ext := grid.value.0, grid.value.1;
      ghost var a, lv, ls := nodes, level, layers;
      assert Layered(a, lv) && forall i :: 0 <= i < |a| ==> lv[i] <= t;
      BuildLayer(positions, ext, t);
      GrowStep(a, lv, ls, nodes, level, limits, nBins, positions, ext, t);
      e := None;
    }

    /** The root part of `new`: the root bin, with id 0, at the middle of the limits and alone in
        layer 0, whose extent is the whole width of each axis. */
    constructor Init(limits: seq<(real, real)>, nBins: seq<nat>)
      ensures this.limits == limits && this.nBins == nBins && root == 0
      ensures nodes == [NewNode(Midpoints(limits), 0)] && level == [0]
      ensures layers == [NewLayer(0, RootExtent(limits)).PushNode(0)]
      ensures Built(1)
    {
      this.limits := limits;
      this.nBins := nBins;
      root := 0;
      nodes := [NewNode(Midpoints(limits), 0)];
      layers := [NewLayer(0, RootExtent(limits)).PushNode(0)];
      level := [0];
      RootPyramid(limits, nBins);
    }

    /** `new(limits, n_bins)`: check that every bin count is a power of two, take the largest
        `log2` as the number of grid levels, build the root, then for each level `l` compute the
        grid of `2^l` bins per axis with `bin_positions` and place its bins one by one with target
        level `l - 1`. It aborts exactly when `NewCheck` says, at the check it names; otherwise
        the pyramid has one layer per level and is `Grown`: the grids are where `bin_positions`
        puts them, every value is 0, and every bin hangs under exactly the bins the walk towards
        it ends at. */
    static method New(limits: seq<(real, real)>, nBins: seq<nat>) returns (r: Result<Pyramid, Abort>)
      ensures r.Err? <==> NewCheck(limits, nBins).Some?
      ensures r.Err? ==> NewCheck(limits, nBins) == Some(r.error)
      ensures r.Ok? ==>
        fresh(r.value) && r.value.limits == limits && r.value.nBins == nBins &&
        r.value.Built(MaxLog2(nBins) + 1)
    {
      for i := 0 to |nBins|
        invariant forall j :: 0 <= j < i ==> IsPowerOfTwo(nBins[j])
      {
        if !IsPowerOfTwo(nBins[i]) {
          return Err(NotPowerOfTwo);
        }
      }
      if |nBins| == 0 {
        return Err(NoBins);
      }
      var top := MaxLog2(nBins);
      var pyr := new Pyramid.Init(limits, nBins);
      for l := 1 to top + 1
        invariant fresh(pyr) && pyr.limits == limits && pyr.nBins == nBins && pyr.Built(l)
        invariant LevelsPassed(limits, nBins, l)
      {
        var e := pyr.AddLevel(l);
        FirstFailingLevel(limits, nBins, l);
        if e.Some? {
          return Err(e.value);
        }
      }
      AllLevelsPassed(limits, nBins);
      return Ok(pyr);
    }
  }
}
