# pcde-rs density pyramid in Dafny

This project models the multi-resolution density pyramid of pcde-rs (`src/pyramid.rs`, with its bin
and layer types `src/node.rs` and `src/layer.rs`) and the earlier tagged-union tree of `src/tree.rs`.
It proves properties of that model.

A pyramid has a root bin that covers the whole domain. Below it come grid levels `l = 1 .. L`, where
`L` is the largest `log2` of the requested bin counts. Level `l` is a regular grid of `2^l` bins on
every axis, laid out by `bin_positions`. Each bin is attached as a child of every bin one level up
whose support box contains it. `add_point` walks that lattice from the root. At every level it keeps
the children whose support contains the point, deduplicated by id, and adds each kept bin's
min-kernel weight to its value.

Modules:

- `Powers` (powers.dfy): `2^k`, the power-of-two test and the exact `log2` of a power of two. The
  source computes these in floating point on exact powers of two.
- `Nodes` (node.dfy): the bin (`Node`). It has `new`, `push_child`, `inside`, `add`, `clear` and
  id equality. src/pyramid.rs:22-91 is a behaviourally identical copy of src/node.rs (its
  `pos` and `children` fields are private and it declares its own `NodeRef` alias), and both are
  modelled by this one module.
- `Layers` (layer.dfy): `Layer`, with `new`, `push_node` and `values`, and `diff_layer`. The copy in
  src/pyramid.rs:154-195 is identical except that its `write_map` prints three diagnostic lines;
  both `write_map`s are left out.
- `Grid` (grid.dfy): `bin_positions`. It is one method with the source's nested loops for 1 to 4
  axes, proved against `Point`, the row-major position function, and `Rank`/`Digits`, which relate
  a position number to its per-axis indices.
- `Lattice` (lattice.dfy): the frontier walk shared by `push_node` and `add_point`, as functions.
  - `Keep` and `Collect` give one step; `Walk` gives `k` steps.
  - `Gain` is what one point deposits in each bin.
  - Lemmas state what the walk keeps, that it never keeps an id twice, and where it can reach.
- `Pyramids` (pyramid.dfy): the `Pyramid` class.
  - The bins live in an arena `nodes: seq<Node>`. Layers and child lists hold indices into it. A
    ghost `level` gives each bin its layer.
  - `New` runs `Pyramid::new` level by level and returns the abort reason when the source panics.
  - `PushNode`, `AddPoint` and `Clear` update the arena in place. `NextFrontier`, `Frontier` and
    `Spread` hold the source's loops.
  - The class invariant is `Valid`: the lattice is layered, ids are unique within each level, and
    every bin is listed in its layer at the index given by its id.
  - `Built(l)` adds that `l` layers exist and that the pyramid is `Grown`: layer 0 is the root;
    each grid layer sits where `bin_positions` puts it; every value is 0; and a bin is a child of
    exactly the bins that the walk towards its position ends at (`Linked`).
- `Tree` (tree.dfy): the `Root`/`Child`/`Bin` tree. Cells are values, and the
  `Rc<RefCell<Node>>` handles are indices into a `Forest` class that updates its cells in place.
- `Wrappers` (wrappers.dfy): `Option` and `Result`.

A Rust panic becomes an `Err` or `Some(abort)` result that names the failed check. Exceptions, where
a panic is a precondition instead, are listed under "## Left out".

## Model

| member | source | states |
|---|---|---|
| Powers.Log2 | src/pyramid.rs:218-222 | the `log2` of a power of two is the exponent `k` with `2^k == n` |
| Powers.Log2OfPow2 | src/pyramid.rs:249 | `2^k` passes the power-of-two test and its `log2` is `k`: the `exp2`/`log2` round trip is exact |
| Powers.PowerOfTwoIff | src/pyramid.rs:216 | `is_power_of_two` accepts exactly the numbers `2^k` (so not 0) |
| Nodes.NewNode | src/node.rs:31-38 | a new bin keeps the given id and position, with value 0 and no children |
| Nodes.Node.PushChild | src/node.rs:45-48 | exactly one child reference is appended at the end, with no deduplication; id, position and value are unchanged |
| Nodes.InsideIff | src/node.rs:58-66 | `inside` holds iff `pos[i] - ext[i] <= p[i] <= pos[i] + ext[i]` on every zipped axis, with both bounds inclusive; only the first `min` of the three lengths is looked at |
| Nodes.SameBin | src/node.rs:24-28 | `==` on bins compares ids only and is reflexive; `Nodes.SameBinIgnoresContents` proves it symmetric and blind to value and children |
| Nodes.Node.Add | src/node.rs:68-79 | `add` raises the value by the kernel and changes nothing else |
| Nodes.Kernel | src/node.rs:70-77 | the kernel is the minimum over the zipped axes of `1 - abs(pos[i] - p[i]) / ext[i]`: no axis is below it and some axis attains it |
| Nodes.WeightInUnitRange | src/node.rs:76 | one axis' weight lies in [0, 1] when the point is within `ext > 0` of the bin |
| Nodes.KernelInUnitRange | src/node.rs:58-79 | for a point `inside` a bin with positive extents, what `add` contributes lies in [0, 1] |
| Nodes.KernelAtPosition | src/node.rs:70-77 | a point at the bin's own position contributes exactly 1 |
| Nodes.Node.Clear | src/node.rs:81-84 | `clear` sets the value to 0 and keeps id, position and children |
| Nodes.ClearIdempotent | src/node.rs:81-84 | clearing twice is clearing once |
| Nodes.SameBinIgnoresContents | src/node.rs:24-28 | bin equality compares ids only: it is symmetric, and clearing a bin and giving it a child does not change which bins it equals |
| Layers.NewLayer | src/layer.rs:31-37 | a new layer has no bins, the given extent and grid size `[2^level, 2^level]`, always two entries |
| Layers.Layer.PushNode | src/layer.rs:39-42 | one bin is appended at the end, the earlier bins keep their order, and extent and grid size are unchanged |
| Layers.Layer.Values | src/layer.rs:44-46 | `values` lists, in layer order, the value of each bin the layer holds |
| Layers.ValuesOf | src/layer.rs:44-46 | `values` has one entry per bin, and entry `i` is the value of bin `i` |
| Layers.DiffLayer | src/layer.rs:22-28 | `diff_layer` has length `min(\|l1\|, \|l2\|)` and entry `i` is `l1`'s value minus `l2`'s value at `i` |
| Layers.DiffOf | src/layer.rs:23-27 | the zip over two bin lists yields their pairwise value differences, as long as the shorter list |
| Layers.DiffLayerSelf | src/layer.rs:22-28 | a layer compared with itself differs by 0 everywhere |
| Layers.DiffLayerAntisymmetric | src/layer.rs:22-28 | swapping the two layers negates every entry |
| Grid.BinPositions | src/pyramid.rs:93-152 | aborts with `LimitsMismatch` when `lim.len() != dims`, else with `Unimplemented` outside 1..4 axes; otherwise returns every grid position in loop order and the per-axis step `(max - min) / (n + 1)` |
| Grid.Grid2 | src/pyramid.rs:110-117 | the two nested loops emit exactly the grid, row-major with the last axis fastest |
| Grid.Grid3 | src/pyramid.rs:118-128 | the three nested loops emit exactly the grid, row-major |
| Grid.Grid4 | src/pyramid.rs:129-147 | the four nested loops emit exactly the grid, row-major |
| Grid.RankBelowProduct | src/pyramid.rs:101 | every in-range index vector comes before position `tot_bins` |
| Grid.DigitsOfRank | src/pyramid.rs:104-147 | decoding the loop position of an index vector gives that vector back: no vector is emitted twice |
| Grid.RankOfDigits | src/pyramid.rs:104-147 | every position below `tot_bins` belongs to an in-range index vector whose loop position it is: every vector is emitted |
| Grid.CoordInside | src/pyramid.rs:99-107 | coordinate `min + step * (1 + a)`, for `a < n` and `step = (max - min) / (n + 1)`, lies strictly between `min` and `max` |
| Grid.PointStrictlyInside | src/pyramid.rs:93-152 | every grid position lies strictly inside the limits on each axis whose interval is non-empty |
| Lattice.Keep | src/pyramid.rs:283-298 | the pass over one child list yields only bins of the arena |
| Lattice.Collect | src/pyramid.rs:283-299 | the next frontier holds only bins of the arena |
| Lattice.ExtentOfLayer | src/pyramid.rs:309-319 | `extent_of_layer` always has two entries: it reads axes 0 and 1 only, whatever the number of axes |
| Lattice.ExtentIsGridStep | src/pyramid.rs:316-318 | the extent of level `k` is the grid step of `bin_positions` for `2^k` bins on axes 0 and 1 |
| Lattice.Walk | src/pyramid.rs:277-302 | every frontier of the walk holds only bins of the arena |
| Lattice.SameIdSameBin | src/pyramid.rs:257-261 | within one level two bins with the same id are the same bin |
| Lattice.KeepExtends | src/pyramid.rs:283-298 | the pass over one child list only appends, and what it appends are children whose box holds the point |
| Lattice.KeepDistinct | src/pyramid.rs:289-297 | the id test keeps the next frontier free of repeated ids |
| Lattice.KeepComplete | src/pyramid.rs:283-298 | every child whose box holds the point ends up in the frontier, up to its id |
| Lattice.CollectSound | src/pyramid.rs:283-299 | every member of the next frontier is a child of a current frontier bin, and its box holds the point |
| Lattice.CollectDistinct | src/pyramid.rs:283-299 | the next frontier has no two bins with the same id |
| Lattice.CollectComplete | src/pyramid.rs:283-299 | every child of a frontier bin whose box holds the point reaches the next frontier, up to its id |
| Lattice.CollectCompleteAt | src/pyramid.rs:283-299 | the same, for one given child |
| Lattice.CollectAgree | src/pyramid.rs:283-299 | the next frontier depends only on ids, positions and the frontier's child lists, not on values |
| Lattice.PositiveExtent | src/pyramid.rs:309-319 | `extent_of_layer(k)` is positive on axes 0 and 1 when both intervals are non-empty |
| Lattice.WalkLevel | src/pyramid.rs:277-302 | on a layered lattice, the frontier after `k` steps lies on level `k` |
| Lattice.WalkMemberLevel | src/pyramid.rs:277-302 | a bin on the `k`-th frontier is on level `k` |
| Lattice.WalkAgree | src/pyramid.rs:277-302 | the first `k` frontiers read only ids, positions and the child lists of levels above `k`; values and later children play no part |
| Lattice.WalkDistinct | src/pyramid.rs:277-302 | no frontier holds two bins with the same id, so none holds a bin twice |
| Lattice.WalkStep | src/pyramid.rs:277-302 | with ids unique per level, frontier `k` holds exactly the children of frontier `k - 1` whose box, under the extent of level `k`, contains the point |
| Lattice.WalkReaches | src/pyramid.rs:283-299 | a child of frontier `k - 1` whose box holds the point is on frontier `k` |
| Lattice.ReachedIsSelf | src/pyramid.rs:289-297 | a frontier bin with the same id as such a child is that child, so the id test drops only repeats |
| Lattice.WalkInside | src/pyramid.rs:283-288 | every bin on frontier `l` has the point inside its box under the extent of level `l` |
| Lattice.GainAtOwnLevel | src/pyramid.rs:321-353 | over a whole `add_point` a bin gains at most one contribution: the kernel under its own level's extent, and only if the walk reaches it at its own level |
| Lattice.RootGainsNothing | src/pyramid.rs:321-353 | the root's value never changes |
| Lattice.GainOnlyInside | src/pyramid.rs:321-353 | only bins whose support at their own level contains the point gain anything |
| Lattice.GainInUnitRange | src/pyramid.rs:321-353 | with increasing limits on axes 0 and 1, what one point adds to a bin lies in [0, 1] |
| Pyramids.Attach | src/pyramid.rs:303-305 | the new node becomes the last child of every bin of the final frontier, and no other bin changes |
| Pyramids.AddAll | src/pyramid.rs:343-348 | every bin of the frontier gains its kernel, and no other bin changes |
| Pyramids.AttachKeepsShape | src/pyramid.rs:303-305 | attaching a bin under bins one level up keeps the pyramid's shape invariant |
| Pyramids.DepositStep | src/pyramid.rs:324-351 | one more pass of the layer loop extends the deposit by the next frontier of the walk |
| Pyramids.FrontierAgrees | src/pyramid.rs:326-342 | on the partly deposited arena the frontier loop computes the same frontier as before any deposit |
| Pyramids.FrontierDepositable | src/pyramid.rs:326-348 | the next frontier has no bin twice, and the kernel is defined for each of its bins |
| Pyramids.Cleared | src/pyramid.rs:355-363 | every value is 0, and ids, positions and children are unchanged |
| Pyramids.ClearTwice | src/pyramid.rs:355-363 | clearing twice is clearing once |
| Pyramids.AttachedIff | src/pyramid.rs:257-261 | while a level is built, slot `base + q` becomes a child of `x` exactly when the walk towards the `q`-th position ends at `x` |
| Pyramids.AttachedOnlyLevel | src/pyramid.rs:257-261 | only bins of the target level gain children |
| Pyramids.AttachedToRoot | src/pyramid.rs:260 | with target level 0 the root gains every bin of level 1, in order |
| Pyramids.PlaceStep | src/pyramid.rs:257-261 | placing one more bin extends what the earlier bins have gained by the slots whose walk ends at them |
| Pyramids.CurrentWalk | src/pyramid.rs:260 | the walk taken on the partly built level is the walk on the arena as it was before the level was started |
| Pyramids.AppendKeepsWalk | src/pyramid.rs:258-260 | a fresh bin appended below the target level changes no walk to that target, and is not on it |
| Pyramids.MaxLog2 | src/pyramid.rs:218-222 | the number of grid levels is the largest `log2` of the bin counts: no count's `log2` exceeds it and one attains it |
| Pyramids.FirstFailingLevel | src/pyramid.rs:244-263 | the first grid level whose `bin_positions` or `extent_of_layer` panics decides `new`'s abort reason, and a level that passes lets the next one be tried |
| Pyramids.AllLevelsPassed | src/pyramid.rs:244-266 | when every grid level passes, `new` does not abort |
| Pyramids.Midpoints | src/pyramid.rs:225 | the root's position is the middle of each axis |
| Pyramids.RootExtent | src/pyramid.rs:227-231 | the root layer's extent, `2 * (max - mid)`, is the whole width `max - min` of each axis |
| Pyramids.RootCoversDomain | src/pyramid.rs:225-234 | the root's support contains every point within the limits |
| Pyramids.SingleBinsAccepted | src/pyramid.rs:216-263 | with every bin count 1 there are no grid levels, and any limits are accepted |
| Pyramids.OneAxisAtMostTwoBins | src/pyramid.rs:316-318 | a one-axis pyramid is accepted iff its bin count is at most 2; from level 2 on, `extent_of_layer` reads the missing second axis |
| Pyramids.TwoAxesAccepted | src/pyramid.rs:214-266 | two axes with one limit each and any power-of-two bin counts never abort |
| Pyramids.RootPyramid | src/pyramid.rs:224-242 | the root alone, at the midpoints and listed in layer 0, is a valid grown pyramid |
| Pyramids.GridKept | src/pyramid.rs:257-262 | a finished grid layer still lists its bins at their grid positions once more bins are placed |
| Pyramids.GridFresh | src/pyramid.rs:255-262 | the new layer lists bin `j` at the `j`-th position that `bin_positions` returned |
| Pyramids.GrowStep | src/pyramid.rs:244-263 | building level `t + 1` keeps the pyramid grown: root layer, grid layers, values 0, and every bin a child of exactly the bins its walk ends at |
| Pyramids.GrowLinked | src/pyramid.rs:257-261 | after a level is placed, a bin is a child of `x` iff the walk towards it ends at `x`, for old and new bins alike |
| Pyramids.LinkedStep | src/pyramid.rs:257-261 | the link property of the earlier levels survives, and the new level's bins hang exactly where their walks end |
| Pyramids.ProductRepeat | src/pyramid.rs:247-250 | `dims` copies of `2^l` give `(2^l)^dims` grid positions |
| Pyramids.GridLayerSize | src/pyramid.rs:244-261 | level `l` holds `(2^l)^dims` bins, the same resolution on every axis whatever bin counts were asked for |
| Pyramids.RootChildren | src/pyramid.rs:260 | in a grown pyramid the root's children are exactly the bins of level 1 |
| Pyramids.Pyramid.Equals | src/pyramid.rs:206-211 | pyramid equality compares limits and bin counts only and is reflexive; `Pyramids.EqualsIsEquivalence` proves it symmetric and transitive |
| Pyramids.EqualsIsEquivalence | src/pyramid.rs:206-211 | pyramid equality, which compares only limits and bin counts, is symmetric and transitive |
| Pyramids.Pyramid.NextFrontier | src/pyramid.rs:283-299 | the nested loop over the frontier's children builds the next frontier of the walk |
| Pyramids.Pyramid.Frontier | src/pyramid.rs:278-302 | after `target` passes of the layer loop, the frontier is the walk's `target`-th frontier |
| Pyramids.Pyramid.PushInto | src/pyramid.rs:277-307 | `n` is appended as the last child of exactly the bins the walk towards its position ends at; no other bin changes and the shape invariant holds |
| Pyramids.Pyramid.PushNode | src/pyramid.rs:277-307 | the same on the pyramid's own arena; layers and levels are unchanged |
| Pyramids.Pyramid.AddPoint | src/pyramid.rs:321-353 | every bin's value rises by exactly what `Gain` says (its kernel at its own level, if the walk reaches it); nothing but values changes, and the pyramid stays valid |
| Pyramids.Pyramid.Spread | src/pyramid.rs:324-351 | the layer loop deposits the point on each frontier of the walk |
| Pyramids.Pyramid.Clear | src/pyramid.rs:355-363 | every bin of every layer has value 0; ids, positions, children and layers are unchanged |
| Pyramids.Pyramid.PlaceBin | src/pyramid.rs:257-260 | a fresh bin with the next id is appended on the new level and hangs under the bins the walk towards it ends at |
| Pyramids.Pyramid.PlaceLevel | src/pyramid.rs:255-261 | one fresh bin per grid position, with id equal to its index, each placed in turn; the layer lists them in order |
| Pyramids.Pyramid.BuildLayer | src/pyramid.rs:245-262 | the level's bins are placed and its layer is appended; the pyramid stays valid |
| Pyramids.Pyramid.AddLevel | src/pyramid.rs:244-263 | a grid level aborts exactly when `LevelCheck` says; otherwise the pyramid grows by one built level |
| Pyramids.Pyramid.Init | src/pyramid.rs:224-242 | the root bin, with id 0, at the midpoints and alone in layer 0 with the whole width as extent and grid size `[1, 1]` |
| Pyramids.Pyramid.New | src/pyramid.rs:214-266 | aborts exactly when `NewCheck` says and at the check it names: a bin count that is not a power of two, no bin counts, `bin_positions`, or a missing second axis. Otherwise it returns a pyramid with `1 + max log2` layers that is `Built`: root layer, grid layers, all values 0, and every bin under exactly the bins its walk ends at |
| Tree.Hull | src/tree.rs:63-70 | the extent update takes, per zipped axis, the lower low and the higher high; its length is the shorter of the two |
| Tree.Shifted | src/tree.rs:86-90 | each interval is moved by the bin's coordinate on that axis |
| Tree.NewRoot | src/tree.rs:38-40 | a new root has no children |
| Tree.NewChild | src/tree.rs:52-57 | a new child has no children and an empty extent |
| Tree.NewBin | src/tree.rs:84-96 | aborts iff the position and extent lengths differ; otherwise a bin at `pos` with value 0 and its extent shifted by `pos` |
| Tree.ExtentOf | src/tree.rs:144-150 | a bin's or a child's extent; aborts on a root |
| Tree.AddToBin | src/tree.rs:121-127 | adds to a bin's value; aborts on a root or a child |
| Tree.Push | src/tree.rs:129-142 | a root accepts exactly children, a child accepts everything but a root, and a bin accepts nothing. Each abort names its reason. An accepted node is appended once at the end, and a child's extent becomes the hull |
| Tree.EmptyExtentStaysEmpty | src/tree.rs:52-70 | a child with an empty extent keeps it empty whatever is pushed, so a fresh child never gets an extent |
| Tree.PushAllChildren | src/tree.rs:42-76 | a run of successful pushes appends exactly the pushed handles, in order |
| Tree.BinCoversPosition | src/tree.rs:84-96 | a bin's position lies in its shifted extent on every axis whose given interval contains 0 |
| Tree.AddToBinTwice | src/tree.rs:98-101 | two additions to a bin add up |
| Tree.Forest.Alloc | src/tree.rs:109-119 | a new node gets a fresh handle, and the other cells are unchanged |
| Tree.Forest.AllocBin | src/tree.rs:117-119 | `new_bin` aborts as `BinData::new` does and then allocates nothing |
| Tree.Forest.PushNode | src/tree.rs:129-142 | only the cell behind the handle changes, as `Push` says. Pushing a root or a child into itself aborts on the borrow; any other abort carries the reason `Push` gives. Nothing changes on an abort |
| Tree.Forest.AddToBinAt | src/tree.rs:121-127 | only the cell behind the handle changes, and only if it is a bin |

## Left out

- `Layer::write_map` (src/layer.rs:48-64, src/pyramid.rs:179-195) is image export through the `image` crate: a NaN-seeded maximum, `u8` casts and a file write. The copy in src/pyramid.rs:185-187 also prints the image length, the grid size and the pixels with `println!`. It is output only.
- The `Arc<RwLock<Node>>` and `Rc<RefCell<Node>>` handles are modelled by arena indices, and there is no concurrency. Lock poisoning and its `unwrap` are not modelled. Aliasing is captured by indices: a bin listed in a layer and in several parents' child lists is one arena slot.
- `f64` arithmetic is modelled by exact `real` arithmetic, with no rounding, NaN or infinity. The float `log2`/`exp2` conversions (src/pyramid.rs:220, 249) are exact integer `Log2`/`Pow2`. They agree with the float versions on the powers of two the source passes to them.
- `usize` and `u64` overflow, for example in `2_usize.pow(layer)` or the product of bin counts, is not modelled: integers are unbounded.
- The `Vec::with_capacity` hints (src/layer.rs:33, src/pyramid.rs:103, 238, 279) are allocation only.
- `Node::id`, `Node::val`, `Node::as_ref`, `Pyramid::push_layer` and `Pyramid::layer` (a clone) are trivial getters and wrappers.
- benches/bench.rs, examples/pyramid.rs and examples/example.rs are timing and demo drivers with random input. src/lib.rs is module wiring. The `norm` it re-exports is not part of this model.
- `Pyramids.Pyramid.AddPoint`: requires a second limit, because `extent_of_layer` indexes `limits[1]` and panics without it. Requires a point with at least one axis, because with zero zipped axes the kernel is the fold's `f64::INFINITY` seed. Requires non-degenerate intervals (`min < max`) on axes 0 and 1, which is what limits are meant to be. With `min == max` on one of those axes, every level's extent is 0 there. `inside` then keeps only bins the point sits on exactly on that axis, so each weight on that axis is `1 - 0/0`, a NaN. The fold's `f64::min` returns its other argument when one is NaN, so the source skips that axis and deposits a finite density over the remaining axes. The model does not capture that case.
- `Pyramids.Pyramid.PushNode`: modelled for a bin already in the arena one level below the target, which is how `new` calls `push_node`. Pushing a node from outside the pyramid, or with a target that does not match its level, is not modelled, because the arena's shape invariant is stated for the lattice `new` builds. It also requires `target == 0 || |limits| >= 2`: for a target above 0, `extent_of_layer` indexes `limits[1]` (src/pyramid.rs:316-318) and panics on one axis. That panic is modelled where `new` can reach it, in `Pyramids.Pyramid.New`'s `MissingAxis` abort.
- `Pyramids.Pyramid.PushInto`: the arena-level form of `push_node`, with the same two restrictions as `Pyramids.Pyramid.PushNode`. The node must be an arena bin one level below the target. A target above 0 needs a second limit, since `extent_of_layer` panics on `limits[1]` otherwise.
- `Pyramids.Pyramid.Frontier`: requires `target == 0 || |limits| >= 2`. The layer loop of `push_node` and `add_point` (src/pyramid.rs:278-302) calls `extent_of_layer`, which panics on `limits[1]` for one axis. The panic itself is not modelled.
- `Nodes.Node.Add`: requires `KernelDefined`, meaning at least one zipped axis and no zero extent. `add` itself checks neither, and the model does not capture what the source does in those cases, since `real` has no infinity or NaN:
  - With no zipped axis, the kernel is the fold's `f64::INFINITY` seed.
  - An axis with a zero extent where the bin and the point coincide has weight `1 - 0/0`, a NaN. `f64::min` returns its other argument when one is NaN, so that axis is skipped. For example, bin `[0, 0]`, point `[0, 0.5]` and extent `[0, 1]` add a finite 0.5.
  - If every axis is skipped, the result is the infinity seed again.
  - A zero extent where they differ gives `1 - d/0 = -inf`, which makes the kernel `-inf`. `add_point` never produces this, because `inside` admits no such bin.
- `Pyramids.Pyramid.New` builds each level on a local arena and commits it to the object once per level (`BuildLayer`), rather than writing every bin into the pyramid's fields as it is pushed. The intermediate states in between are the same values.
- `Tree.Forest` stores a child's or a root's children as handles. The `Push` function reads the pushed node's content through the forest, so a handle's later changes are not reflected in its parent's extent, matching the source, which copies the extent at push time.
