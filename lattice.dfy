/** The frontier walk that `Pyramid::push_node` and `Pyramid::add_point` (src/pyramid.rs) run from
    the root down the levels, stated as functions over the arena of bins, and what it computes. */
module Lattice {
  import opened Nodes
  import opened Powers
  import opened Grid

  /** Every index in `s` names a slot of the arena. */
  predicate AllIn(arena: seq<Node>, s: seq<nat>)
  {
    forall i :: 0 <= i < |s| ==> s[i] < |arena|
  }

  /** Every child index names a slot of the arena. */
  predicate Closed(arena: seq<Node>)
  {
    forall i, j :: 0 <= i < |arena| && 0 <= j < |arena[i].children| ==> arena[i].children[j] < |arena|
  }

  /** `level[i]` is the pyramid level of bin `i`, and every child sits one level below its parent. */
  predicate Layered(arena: seq<Node>, level: seq<nat>)
  {
    |level| == |arena| && Closed(arena) &&
    forall i, j :: 0 <= i < |arena| && 0 <= j < |arena[i].children| ==>
      level[arena[i].children[j]] == level[i] + 1
  }

  /** Ids are unique within each level (they are not across levels). */
  predicate UniqueIds(arena: seq<Node>, level: seq<nat>)
    requires |level| == |arena|
  {
    forall i, j {:trigger arena[i].id, arena[j].id} :: 0 <= i < |arena| && 0 <= j < |arena| && i != j && level[i] == level[j] ==>
      arena[i].id != arena[j].id
  }

  lemma {:induction false} SameIdSameBin(arena: seq<Node>, level: seq<nat>, a: nat, b: nat)
    requires |level| == |arena| && UniqueIds(arena, level) && a < |arena| && b < |arena|
    requires level[a] == level[b] && arena[a].id == arena[b].id
    ensures a == b
  {
  }

  /** Some bin of `s` has id `id` (the `map(id == c_id).fold(false, |)` test). */
  predicate HasId(arena: seq<Node>, s: seq<nat>, id: nat)
    requires AllIn(arena, s)
  {
    exists i :: 0 <= i < |s| && arena[s[i]].id == id
  }

  /** No two bins of `s` share an id. */
  predicate DistinctIds(arena: seq<Node>, s: seq<nat>)
    requires AllIn(arena, s)
  {
    forall i, j :: 0 <= i < j < |s| ==> arena[s[i]].id != arena[s[j]].id
  }

  /** The inner pass over one frontier bin's children: append, in order, each child whose support
      `pos ± ext` contains `p` and whose id is not yet in the list. */
  function Keep(arena: seq<Node>, cs: seq<nat>, p: seq<real>, ext: seq<real>, acc: seq<nat>): (r: seq<nat>)
    requires AllIn(arena, cs) && AllIn(arena, acc)
    ensures AllIn(arena, r)
    decreases |cs|
  {
    if cs == [] then acc
    else
      var r := Keep(arena, cs[..|cs| - 1], p, ext, acc);
      var c := cs[|cs| - 1];
      if Inside(arena[c].pos, p, ext) && !HasId(arena, r, arena[c].id) then r + [c] else r
  }

  /** One step of the walk: the next frontier built from the frontier `f`, starting empty. */
  function Collect(arena: seq<Node>, f: seq<nat>, p: seq<real>, ext: seq<real>): (r: seq<nat>)
    requires Closed(arena) && AllIn(arena, f)
    ensures AllIn(arena, r)
    decreases |f|
  {
    if f == [] then []
    else Keep(arena, arena[f[|f| - 1]].children, p, ext, Collect(arena, f[..|f| - 1], p, ext))
  }

  /** `extent_of_layer`: the grid step of level `k` on axes 0 and 1 only, whatever the number of
      axes (ExtentIsGridStep). */
  function ExtentOfLayer(limits: seq<(real, real)>, k: nat): (e: seq<real>)
    requires |limits| >= 2
    ensures |e| == 2
  {
    var n := (Pow2(k) + 1) as real;
    [(limits[0].1 - limits[0].0) / n, (limits[1].1 - limits[1].0) / n]
  }

  /** The extent of level `k` is the grid step that `bin_positions` computes for `2^k` bins per
      axis, on the first two axes. */
  lemma {:induction false} ExtentIsGridStep(limits: seq<(real, real)>, k: nat)
    requires |limits| >= 2
    ensures ExtentOfLayer(limits, k) == Steps(limits[..2], [Pow2(k), Pow2(k)])
  {
    assert ExtentOfLayer(limits, k)[0] == Steps(limits[..2], [Pow2(k), Pow2(k)])[0];
  }

  /** The frontier after `k` steps from the root; step `k` tests children against the extent of level `k`. */
  function Walk(arena: seq<Node>, root: nat, p: seq<real>, limits: seq<(real, real)>, k: nat): (r: seq<nat>)
    requires Closed(arena) && root < |arena| && (k == 0 || |limits| >= 2)
    ensures AllIn(arena, r)
  {
    if k == 0 then [root]
    else Collect(arena, Walk(arena, root, p, limits, k - 1), p, ExtentOfLayer(limits, k))
  }

  /** What `add_point` needs for its kernel: two limits (read by `extent_of_layer`), a point with at
      least one axis, bins with at least one axis, and non-empty intervals on axes 0 and 1. */
  predicate Measurable(arena: seq<Node>, p: seq<real>, limits: seq<(real, real)>)
  {
    |limits| >= 2 && |p| >= 1 && limits[0].0 != limits[0].1 && limits[1].0 != limits[1].1 &&
    forall i :: 0 <= i < |arena| ==> |arena[i].pos| >= 1
  }

  lemma {:induction false} KernelDefinedAt(arena: seq<Node>, p: seq<real>, limits: seq<(real, real)>, i: nat, k: nat)
    requires Measurable(arena, p, limits) && i < |arena|
    ensures KernelDefined(arena[i].pos, p, ExtentOfLayer(limits, k))
  {
    var e := ExtentOfLayer(limits, k);
    var n := (Pow2(k) + 1) as real;
    assert n > 0.0;
    assert e[0] != 0.0 && e[1] != 0.0;
  }

  /** What bin `i` receives from the point when the walk reaches it at step `k`: the kernel under
      the extent of level `k`. */
  function Deposit(arena: seq<Node>, p: seq<real>, limits: seq<(real, real)>, i: nat, k: nat): real
    requires i < |arena| && Measurable(arena, p, limits)
  {
    KernelDefinedAt(arena, p, limits, i, k);
    Kernel(arena[i].pos, p, ExtentOfLayer(limits, k))
  }

  /** Total contribution that bin `i` receives over the first `k` steps of the walk for point `p`. */
  function Gain(arena: seq<Node>, root: nat, p: seq<real>, limits: seq<(real, real)>, i: nat, k: nat): real
    requires Closed(arena) && root < |arena| && i < |arena| && Measurable(arena, p, limits)
  {
    if k == 0 then 0.0
    else
      Gain(arena, root, p, limits, i, k - 1) +
      (if i in Walk(arena, root, p, limits, k) then Deposit(arena, p, limits, i, k) else 0.0)
  }

  // ---------------------------------------------------------------------------------------------
  // One step of the walk

  /** The pass over one child list only appends; what it appends are children whose box holds `p`. */
  lemma {:induction false} KeepExtends(arena: seq<Node>, cs: seq<nat>, p: seq<real>, ext: seq<real>, acc: seq<nat>)
    requires AllIn(arena, cs) && AllIn(arena, acc)
    ensures var r := Keep(arena, cs, p, ext, acc);
      |acc| <= |r| && r[..|acc|] == acc &&
      forall t :: |acc| <= t < |r| ==> r[t] in cs && Inside(arena[r[t]].pos, p, ext)
  {
    if cs != [] {
      var cs' := cs[..|cs| - 1];
      KeepExtends(arena, cs', p, ext, acc);
      var r' := Keep(arena, cs', p, ext, acc);
      assert forall t :: |acc| <= t < |r'| ==> r'[t] in cs;
    }
  }

  /** The pass keeps ids distinct. */
  lemma {:induction false} KeepDistinct(arena: seq<Node>, cs: seq<nat>, p: seq<real>, ext: seq<real>, acc: seq<nat>)
    requires AllIn(arena, cs) && AllIn(arena, acc) && DistinctIds(arena, acc)
    ensures DistinctIds(arena, Keep(arena, cs, p, ext, acc))
  {
    if cs != [] {
      var cs' := cs[..|cs| - 1];
      KeepDistinct(arena, cs', p, ext, acc);
      var r' := Keep(arena, cs', p, ext, acc);
      var c := cs[|cs| - 1];
      if Inside(arena[c].pos, p, ext) && !HasId(arena, r', arena[c].id) {
        var r := r' + [c];
        forall i, j | 0 <= i < j < |r|
          ensures arena[r[i]].id != arena[r[j]].id
        {
          if j == |r'| {
            assert r[i] == r'[i];
          } else {
            assert r[i] == r'[i] && r[j] == r'[j];
          }
        }
      }
    }
  }

  /** Every child whose box holds `p` is in the result, up to its id; so are the earlier entries. */
  lemma {:induction false} KeepComplete(arena: seq<Node>, cs: seq<nat>, p: seq<real>, ext: seq<real>, acc: seq<nat>)
    requires AllIn(arena, cs) && AllIn(arena, acc)
    ensures var r := Keep(arena, cs, p, ext, acc);
      forall c :: c in cs && Inside(arena[c].pos, p, ext) ==> HasId(arena, r, arena[c].id)
  {
    if cs != [] {
      var cs' := cs[..|cs| - 1];
      KeepComplete(arena, cs', p, ext, acc);
      var r' := Keep(arena, cs', p, ext, acc);
      var r := Keep(arena, cs, p, ext, acc);
      assert r'[..] == r[..|r'|];
      forall c | c in cs && Inside(arena[c].pos, p, ext)
        ensures HasId(arena, r, arena[c].id)
      {
        if c in cs' {
          var i :| 0 <= i < |r'| && arena[r'[i]].id == arena[c].id;
          assert r[i] == r'[i];
        } else {
          assert c == cs[|cs| - 1];
          if !HasId(arena, r', arena[c].id) {
            assert r[|r'|] == c;
          } else {
            var i :| 0 <= i < |r'| && arena[r'[i]].id == arena[c].id;
            assert r[i] == r'[i];
          }
        }
      }
    }
  }

  /** Every member of the next frontier is a child of a frontier bin, and its box holds `p`. */
  lemma {:induction false} CollectSound(arena: seq<Node>, f: seq<nat>, p: seq<real>, ext: seq<real>)
    requires Closed(arena) && AllIn(arena, f)
    ensures var r := Collect(arena, f, p, ext);
      forall x :: x in r ==> Inside(arena[x].pos, p, ext) && exists y :: y in f && x in arena[y].children
  {
    if f != [] {
      var f' := f[..|f| - 1];
      var y := f[|f| - 1];
      CollectSound(arena, f', p, ext);
      var acc := Collect(arena, f', p, ext);
      KeepExtends(arena, arena[y].children, p, ext, acc);
      var r := Collect(arena, f, p, ext);
      forall x | x in r
        ensures Inside(arena[x].pos, p, ext) && exists y :: y in f && x in arena[y].children
      {
        var t :| 0 <= t < |r| && r[t] == x;
        if t < |acc| {
          assert acc[t] == x;
          var y' :| y' in f' && x in arena[y'].children;
          assert y' in f;
        } else {
          assert x in arena[y].children;
        }
      }
    }
  }

  /** The next frontier has no two bins with the same id. */
  lemma {:induction false} CollectDistinct(arena: seq<Node>, f: seq<nat>, p: seq<real>, ext: seq<real>)
    requires Closed(arena) && AllIn(arena, f)
    ensures DistinctIds(arena, Collect(arena, f, p, ext))
  {
    if f != [] {
      var f' := f[..|f| - 1];
      CollectDistinct(arena, f', p, ext);
      KeepDistinct(arena, arena[f[|f| - 1]].children, p, ext, Collect(arena, f', p, ext));
    }
  }

  /** Every child of a frontier bin whose box holds `p` reaches the next frontier, up to its id. */
  lemma {:induction false} CollectComplete(arena: seq<Node>, f: seq<nat>, p: seq<real>, ext: seq<real>)
    requires Closed(arena) && AllIn(arena, f)
    ensures var r := Collect(arena, f, p, ext);
      forall y, c :: y in f && c in arena[y].children && Inside(arena[c].pos, p, ext) ==> HasId(arena, r, arena[c].id)
  {
    if f != [] {
      var f' := f[..|f| - 1];
      var z := f[|f| - 1];
      CollectComplete(arena, f', p, ext);
      var acc := Collect(arena, f', p, ext);
      var r := Collect(arena, f, p, ext);
      KeepExtends(arena, arena[z].children, p, ext, acc);
      KeepComplete(arena, arena[z].children, p, ext, acc);
      forall y, c | y in f && c in arena[y].children && Inside(arena[c].pos, p, ext)
        ensures HasId(arena, r, arena[c].id)
      {
        if y != z {
          InFront(f, y);
          var i :| 0 <= i < |acc| && arena[acc[i]].id == arena[c].id;
          assert r[i] == acc[i];
        }
      }
    }
  }

  /** An element of a non-empty sequence other than its last one is in the front part. */
  lemma {:induction false} InFront(s: seq<nat>, y: nat)
    requires y in s && y != s[|s| - 1]
    ensures y in s[..|s| - 1]
  {
    var t :| 0 <= t < |s| && s[t] == y;
    assert s[..|s| - 1][t] == y;
  }

  lemma {:induction false} CollectCompleteAt(arena: seq<Node>, f: seq<nat>, p: seq<real>, ext: seq<real>, y: nat, c: nat)
    requires Closed(arena) && AllIn(arena, f)
    requires y in f && c in arena[y].children && Inside(arena[c].pos, p, ext)
    ensures HasId(arena, Collect(arena, f, p, ext), arena[c].id)
  {
    CollectComplete(arena, f, p, ext);
  }

  // ---------------------------------------------------------------------------------------------
  // The walk depends only on ids, positions and the child lists it visits

  /** `b` extends `a` with the same ids and positions in the shared slots. */
  predicate SameBins(a: seq<Node>, b: seq<Node>)
  {
    |a| <= |b| && forall i :: 0 <= i < |a| ==> b[i].id == a[i].id && b[i].pos == a[i].pos
  }

  lemma {:induction false} KeepAgree(a: seq<Node>, b: seq<Node>, cs: seq<nat>, p: seq<real>, ext: seq<real>, acc: seq<nat>)
    requires SameBins(a, b) && AllIn(a, cs) && AllIn(a, acc)
    ensures AllIn(b, cs) && AllIn(b, acc)
    ensures Keep(a, cs, p, ext, acc) == Keep(b, cs, p, ext, acc)
  {
    if cs != [] {
      var cs' := cs[..|cs| - 1];
      KeepAgree(a, b, cs', p, ext, acc);
      var r := Keep(a, cs', p, ext, acc);
      var c := cs[|cs| - 1];
      assert HasId(a, r, a[c].id) <==> HasId(b, r, b[c].id) by {
        if HasId(a, r, a[c].id) {
          var i :| 0 <= i < |r| && a[r[i]].id == a[c].id;
          assert b[r[i]].id == b[c].id;
        }
        if HasId(b, r, b[c].id) {
          var i :| 0 <= i < |r| && b[r[i]].id == b[c].id;
          assert a[r[i]].id == a[c].id;
        }
      }
    }
  }

  lemma {:induction false} CollectAgree(a: seq<Node>, b: seq<Node>, f: seq<nat>, p: seq<real>, ext: seq<real>)
    requires SameBins(a, b) && Closed(a) && Closed(b) && AllIn(a, f)
    requires forall y :: y in f ==> b[y].children == a[y].children
    ensures AllIn(b, f) && Collect(a, f, p, ext) == Collect(b, f, p, ext)
  {
    if f != [] {
      var f' := f[..|f| - 1];
      CollectAgree(a, b, f', p, ext);
      var y := f[|f| - 1];
      KeepAgree(a, b, a[y].children, p, ext, Collect(a, f', p, ext));
    }
  }

  /** The walk's `k`-th frontier lies entirely on level `k`. */
  lemma {:induction false} WalkLevel(arena: seq<Node>, level: seq<nat>, root: nat, p: seq<real>, limits: seq<(real, real)>, k: nat)
    requires Layered(arena, level) && root < |arena| && level[root] == 0 && (k == 0 || |limits| >= 2)
    ensures forall x :: x in Walk(arena, root, p, limits, k) ==> level[x] == k
  {
    if k > 0 {
      var u: nat := k - 1;
      WalkLevel(arena, level, root, p, limits, u);
      var f, ext := Walk(arena, root, p, limits, u), ExtentOfLayer(limits, k);
      WalkUnfold(arena, root, p, limits, u);
      CollectSound(arena, f, p, ext);
      forall x | x in Collect(arena, f, p, ext)
        ensures level[x] == k
      {
        var y :| y in f && x in arena[y].children;
        ChildLevel(arena, level, y, x);
      }
    }
  }

  /** Two arenas that agree on ids, positions and the child lists of every level above `k` give
      the same first `k` frontiers: values, and children of level `k` and below, play no part. */
  lemma {:induction false} WalkAgree(a: seq<Node>, b: seq<Node>, level: seq<nat>, root: nat, p: seq<real>,
                                     limits: seq<(real, real)>, k: nat)
    requires Layered(a, level) && Closed(b) && SameBins(a, b) && root < |a| && level[root] == 0
    requires k == 0 || |limits| >= 2
    requires forall i :: 0 <= i < |a| && level[i] < k ==> b[i].children == a[i].children
    ensures Walk(a, root, p, limits, k) == Walk(b, root, p, limits, k)
  {
    if k > 0 {
      var u: nat := k - 1;
      WalkAgree(a, b, level, root, p, limits, u);
      var f, ext := Walk(a, root, p, limits, u), ExtentOfLayer(limits, k);
      WalkLevel(a, level, root, p, limits, u);
      forall y | y in f
        ensures b[y].children == a[y].children
      {
      }
      CollectAgree(a, b, f, p, ext);
      WalkUnfold(a, root, p, limits, u);
      WalkUnfold(b, root, p, limits, u);
    }
  }

  /** One step of the walk, as the definition states it. */
  lemma {:induction false} WalkUnfold(arena: seq<Node>, root: nat, p: seq<real>, limits: seq<(real, real)>, u: nat)
    requires Closed(arena) && root < |arena| && |limits| >= 2
    ensures Walk(arena, root, p, limits, u + 1) ==
      Collect(arena, Walk(arena, root, p, limits, u), p, ExtentOfLayer(limits, u + 1))
  {
  }

  /** The walk's frontiers never hold two bins with the same id, hence never the same bin twice. */
  lemma {:induction false} WalkDistinct(arena: seq<Node>, root: nat, p: seq<real>, limits: seq<(real, real)>, k: nat)
    requires Closed(arena) && root < |arena| && (k == 0 || |limits| >= 2)
    ensures var w := Walk(arena, root, p, limits, k);
      DistinctIds(arena, w) && forall i, j :: 0 <= i < j < |w| ==> w[i] != w[j]
  {
    if k > 0 {
      CollectDistinct(arena, Walk(arena, root, p, limits, k - 1), p, ExtentOfLayer(limits, k));
    }
  }

  /** On a layered arena with ids unique per level, frontier `k` holds exactly the children of
      frontier `k - 1` whose support (extent of level `k`) contains the point. */
  lemma {:induction false} WalkStep(arena: seq<Node>, level: seq<nat>, root: nat, p: seq<real>, limits: seq<(real, real)>, k: nat, x: nat)
    requires Layered(arena, level) && UniqueIds(arena, level) && root < |arena| && level[root] == 0
    requires k >= 1 && |limits| >= 2 && x < |arena|
    ensures x in Walk(arena, root, p, limits, k) <==>
      Inside(arena[x].pos, p, ExtentOfLayer(limits, k)) &&
      exists y :: y in Walk(arena, root, p, limits, k - 1) && x in arena[y].children
  {
    var f := Walk(arena, root, p, limits, k - 1);
    var ext := ExtentOfLayer(limits, k);
    CollectSound(arena, f, p, ext);
    if Inside(arena[x].pos, p, ext) && exists y :: y in f && x in arena[y].children {
      WalkReaches(arena, level, root, p, limits, k, x);
    }
  }

  /** The completeness half of WalkStep. */
  lemma {:induction false} WalkReaches(arena: seq<Node>, level: seq<nat>, root: nat, p: seq<real>, limits: seq<(real, real)>, k: nat, x: nat)
    requires Layered(arena, level) && UniqueIds(arena, level) && root < |arena| && level[root] == 0
    requires k >= 1 && |limits| >= 2 && x < |arena|
    requires Inside(arena[x].pos, p, ExtentOfLayer(limits, k))
    requires exists y :: y in Walk(arena, root, p, limits, k - 1) && x in arena[y].children
    ensures x in Walk(arena, root, p, limits, k)
  {
    var f := Walk(arena, root, p, limits, k - 1);
    var w := Walk(arena, root, p, limits, k);
    var y :| y in f && x in arena[y].children;
    CollectCompleteAt(arena, f, p, ExtentOfLayer(limits, k), y, x);
    var i :| 0 <= i < |w| && arena[w[i]].id == arena[x].id;
    ReachedIsSelf(arena, level, root, p, limits, k, y, x, w[i]);
  }

  /** A frontier member that shares its id with a child of the previous frontier is that child. */
  lemma {:induction false} ReachedIsSelf(arena: seq<Node>, level: seq<nat>, root: nat, p: seq<real>, limits: seq<(real, real)>,
                      k: nat, y: nat, x: nat, z: nat)
    requires Layered(arena, level) && UniqueIds(arena, level) && root < |arena| && level[root] == 0
    requires k >= 1 && |limits| >= 2
    requires y in Walk(arena, root, p, limits, k - 1) && x in arena[y].children
    requires z in Walk(arena, root, p, limits, k) && arena[z].id == arena[x].id
    ensures z == x
  {
    WalkMemberLevel(arena, level, root, p, limits, k, z);
    WalkMemberLevel(arena, level, root, p, limits, k - 1, y);
    ChildLevel(arena, level, y, x);
    SameIdSameBin(arena, level, z, x);
  }

  lemma {:induction false} WalkMemberLevel(arena: seq<Node>, level: seq<nat>, root: nat, p: seq<real>, limits: seq<(real, real)>, k: nat, z: nat)
    requires Layered(arena, level) && root < |arena| && level[root] == 0 && (k == 0 || |limits| >= 2)
    requires z in Walk(arena, root, p, limits, k)
    ensures level[z] == k
  {
    WalkLevel(arena, level, root, p, limits, k);
  }

  lemma {:induction false} ChildLevel(arena: seq<Node>, level: seq<nat>, y: nat, x: nat)
    requires Layered(arena, level) && y < |arena| && x in arena[y].children
    ensures level[x] == level[y] + 1
  {
    var j :| 0 <= j < |arena[y].children| && arena[y].children[j] == x;
  }

  // ---------------------------------------------------------------------------------------------
  // What `add_point` deposits

  /** A bin gains at most one contribution over the whole walk: the kernel under its own level's
      extent, and only if the walk reaches it at its own level. */
  lemma {:induction false} GainAtOwnLevel(arena: seq<Node>, level: seq<nat>, root: nat, p: seq<real>,
                                          limits: seq<(real, real)>, i: nat, k: nat)
    requires Layered(arena, level) && root < |arena| && level[root] == 0 && i < |arena|
    requires Measurable(arena, p, limits)
    ensures Gain(arena, root, p, limits, i, k) ==
      if 1 <= level[i] <= k && i in Walk(arena, root, p, limits, level[i])
      then Deposit(arena, p, limits, i, level[i])
      else 0.0
  {
    if k > 0 {
      var j: nat := k - 1;
      GainAtOwnLevel(arena, level, root, p, limits, i, j);
      GainStep(arena, root, p, limits, i, j);
      if level[i] != k && i in Walk(arena, root, p, limits, k) {
        WalkMemberLevel(arena, level, root, p, limits, k, i);
      }
    }
  }

  lemma {:induction false} GainStep(arena: seq<Node>, root: nat, p: seq<real>, limits: seq<(real, real)>, i: nat, j: nat)
    requires Closed(arena) && root < |arena| && i < |arena| && Measurable(arena, p, limits)
    ensures Gain(arena, root, p, limits, i, j + 1) ==
      Gain(arena, root, p, limits, i, j) +
      (if i in Walk(arena, root, p, limits, j + 1) then Deposit(arena, p, limits, i, j + 1) else 0.0)
  {
  }

  /** The root never gains anything. */
  lemma {:induction false} RootGainsNothing(arena: seq<Node>, level: seq<nat>, root: nat, p: seq<real>, limits: seq<(real, real)>, k: nat)
    requires Layered(arena, level) && root < |arena| && level[root] == 0 && Measurable(arena, p, limits)
    ensures Gain(arena, root, p, limits, root, k) == 0.0
  {
    GainAtOwnLevel(arena, level, root, p, limits, root, k);
  }

  /** Only a bin whose support at its own level contains the point gains anything. */
  lemma {:induction false} GainOnlyInside(arena: seq<Node>, level: seq<nat>, root: nat, p: seq<real>, limits: seq<(real, real)>, i: nat, k: nat)
    requires Layered(arena, level) && root < |arena| && level[root] == 0 && i < |arena|
    requires Measurable(arena, p, limits)
    ensures Gain(arena, root, p, limits, i, k) != 0.0 ==>
      1 <= level[i] <= k && Inside(arena[i].pos, p, ExtentOfLayer(limits, level[i]))
  {
    GainAtOwnLevel(arena, level, root, p, limits, i, k);
    if Gain(arena, root, p, limits, i, k) != 0.0 {
      WalkInside(arena, root, p, limits, level[i], i);
    }
  }

  /** Every bin the walk reaches at step `l` has the point inside its support at that step. */
  lemma {:induction false} WalkInside(arena: seq<Node>, root: nat, p: seq<real>, limits: seq<(real, real)>, l: nat, x: nat)
    requires Closed(arena) && root < |arena| && |limits| >= 2 && l >= 1
    requires x in Walk(arena, root, p, limits, l)
    ensures Inside(arena[x].pos, p, ExtentOfLayer(limits, l))
  {
    var u: nat := l - 1;
    var f, ext := Walk(arena, root, p, limits, u), ExtentOfLayer(limits, l);
    WalkUnfold(arena, root, p, limits, u);
    CollectSound(arena, f, p, ext);
  }

  /** With increasing limits on axes 0 and 1, what a bin gains from one point lies in [0, 1]. */
  lemma {:induction false} GainInUnitRange(arena: seq<Node>, level: seq<nat>, root: nat, p: seq<real>, limits: seq<(real, real)>, i: nat, k: nat)
    requires Layered(arena, level) && root < |arena| && level[root] == 0 && i < |arena|
    requires Measurable(arena, p, limits) && limits[0].0 < limits[0].1 && limits[1].0 < limits[1].1
    ensures 0.0 <= Gain(arena, root, p, limits, i, k) <= 1.0
  {
    GainOnlyInside(arena, level, root, p, limits, i, k);
    GainAtOwnLevel(arena, level, root, p, limits, i, k);
    var l := level[i];
    if Gain(arena, root, p, limits, i, k) != 0.0 {
      var ext := ExtentOfLayer(limits, l);
      PositiveExtent(limits, l);
      KernelDefinedAt(arena, p, limits, i, l);
      KernelInUnitRange(arena[i].pos, p, ext);
    }
  }

  lemma {:induction false} PositiveExtent(limits: seq<(real, real)>, k: nat)
    requires |limits| >= 2 && limits[0].0 < limits[0].1 && limits[1].0 < limits[1].1
    ensures ExtentOfLayer(limits, k)[0] > 0.0 && ExtentOfLayer(limits, k)[1] > 0.0
  {
  }
}
