/** The tagged-union tree of src/tree.rs (`Root`, `Child` and `Bin` nodes), an earlier design that the
    pyramid replaced. Nodes are shared through `Rc<RefCell<Node>>` handles; here a handle is an
    index into a `Forest` of cells, and updating a node through its handle updates that cell. */
module Tree {
  import opened Wrappers

  /** A closed interval `(low, high)` per axis. */
  type Extent = (real, real)

  /** Why an operation of the tree panics. */
  datatype TreeError =
    | NotAChild        // `RootData::push` of anything but a `Child`
    | CannotPushRoot   // `ChildData::push` of a `Root`
    | CannotPushToBin  // `Node::push_node` on a `Bin`
    | NotABin          // `Node::add_to_bin` on a `Root` or a `Child`
    | NoRootExtent     // `Node::extent` on a `Root`
    | LengthMismatch   // `assert_eq!(pos.len(), extent.len())` in `BinData::new`
    | AlreadyBorrowed  // reading a node through the handle whose cell is being updated

  /** The `Node` enum: children are handles, in push order. */
  datatype Cell =
    | Root(children: seq<nat>)
    | Child(children: seq<nat>, extent: seq<Extent>)
    | Bin(pos: seq<real>, extent: seq<Extent>, val: real)

  function MinReal(a: real, b: real): real
  {
    if a < b then a else b
  }

  function MaxReal(a: real, b: real): real
  {
    if a > b then a else b
  }

  /** The extent update of `ChildData::push`: zip the pushed node's extent `e` with the current
      one `acc` and take, per axis, the lower low and the higher high. */
  function Hull(e: seq<Extent>, acc: seq<Extent>): (r: seq<Extent>)
    ensures |r| == if |e| <= |acc| then |e| else |acc|
    ensures forall i :: 0 <= i < |r| ==>
      r[i].0 <= e[i].0 && r[i].0 <= acc[i].0 && (r[i].0 == e[i].0 || r[i].0 == acc[i].0) &&
      r[i].1 >= e[i].1 && r[i].1 >= acc[i].1 && (r[i].1 == e[i].1 || r[i].1 == acc[i].1)
  {
    var n := if |e| <= |acc| then |e| else |acc|;
    seq(n, i requires 0 <= i < n => (MinReal(e[i].0, acc[i].0), MaxReal(e[i].1, acc[i].1)))
  }

  /** `BinData::new`'s extent: each interval moved by the bin's coordinate on that axis. */
  function Shifted(pos: seq<real>, extent: seq<Extent>): (r: seq<Extent>)
    requires |pos| == |extent|
    ensures |r| == |pos|
    ensures forall i :: 0 <= i < |r| ==>
      r[i].0 - pos[i] == extent[i].0 && r[i].1 - pos[i] == extent[i].1
  {
    seq(|pos|, i requires 0 <= i < |pos| => (extent[i].0 + pos[i], extent[i].1 + pos[i]))
  }

  /** `RootData::new` and `ChildData::new`: no children, and a child starts with an empty extent. */
  function NewRoot(): (c: Cell)
    ensures c.Root? && c.children == []
  {
    Root([])
  }

  function NewChild(): (c: Cell)
    ensures c.Child? && c.children == [] && c.extent == []
  {
    Child([], [])
  }

  /** `BinData::new(pos, extent)`: aborts unless there is one interval per coordinate; the bin
      starts with value 0 and its extent relative to its position. */
  function NewBin(pos: seq<real>, extent: seq<Extent>): (r: Result<Cell, TreeError>)
    ensures r.Err? <==> |pos| != |extent|
    ensures r.Err? ==> r.error == LengthMismatch
    ensures r.Ok? ==>
      r.value.Bin? && r.value.pos == pos && r.value.val == 0.0 && |r.value.extent| == |pos| &&
      forall i :: 0 <= i < |pos| ==> r.value.extent[i] == (extent[i].0 + pos[i], extent[i].1 + pos[i])
  {
    if |pos| != |extent| then Err(LengthMismatch) else Ok(Bin(pos, Shifted(pos, extent), 0.0))
  }

  /** `Node::extent`: a bin's or a child's extent; a root has none. */
  function ExtentOf(c: Cell): (r: Result<seq<Extent>, TreeError>)
    ensures r.Err? <==> c.Root?
    ensures r.Err? ==> r.error == NoRootExtent
    ensures r.Ok? ==> r.value == c.extent
  {
    match c
    case Root(_) => Err(NoRootExtent)
    case Child(_, e) => Ok(e)
    case Bin(_, e, _) => Ok(e)
  }

  /** `Node::push_node(node)` on the cell `c`, where the pushed node has handle `n` and content
      `node`: a bin takes no children; a root takes only children; a child takes bins and
      children and widens its extent to cover theirs. */
  function Push(c: Cell, node: Cell, n: nat): (r: Result<Cell, TreeError>)
    ensures r.Ok? <==> (c.Root? && node.Child?) || (c.Child? && !node.Root?)
    ensures r.Err? ==> r.error == if c.Bin? then CannotPushToBin else if c.Root? then NotAChild else CannotPushRoot
    ensures r.Ok? ==>
      (c.Root? ==> r.value.Root?) &&
      (c.Child? ==> r.value.Child? && r.value.extent == Hull(node.extent, c.extent)) &&
      r.value.children == c.children + [n]
  {
    match c
    case Bin(_, _, _) => Err(CannotPushToBin)
    case Root(cs) => if node.Child? then Ok(Root(cs + [n])) else Err(NotAChild)
    case Child(cs, e) => if node.Root? then Err(CannotPushRoot) else Ok(Child(cs + [n], Hull(node.extent, e)))
  }

  /** `Node::add_to_bin(v)`: only a bin has a value. */
  function AddToBin(c: Cell, v: real): (r: Result<Cell, TreeError>)
    ensures r.Err? <==> !c.Bin?
    ensures r.Err? ==> r.error == NotABin
    ensures r.Ok? ==> r.value == c.(val := c.val + v)
  {
    if c.Bin? then Ok(c.(val := c.val + v)) else Err(NotABin)
  }

  /** Pushing each cell of `ns` (with its handle) in turn, as long as no push aborts. */
  function PushAll(c: Cell, ns: seq<(Cell, nat)>): Result<Cell, TreeError>
  {
    if ns == [] then Ok(c)
    else
      var r := PushAll(c, ns[..|ns| - 1]);
      if r.Err? then r else Push(r.value, ns[|ns| - 1].0, ns[|ns| - 1].1)
  }

  /** A child whose extent is empty keeps it empty whatever is pushed into it: the zip stops at
      the shorter side. In particular a fresh `ChildData` never gets an extent. */
  lemma {:induction false} EmptyExtentStaysEmpty(c: Cell, ns: seq<(Cell, nat)>)
    requires c.Child? && c.extent == []
    ensures PushAll(c, ns).Ok? ==> PushAll(c, ns).value.Child? && PushAll(c, ns).value.extent == []
  {
    if ns != [] {
      EmptyExtentStaysEmpty(c, ns[..|ns| - 1]);
    }
  }

  /** A child grows by one handle per successful push. */
  lemma {:induction false} PushAllChildren(c: Cell, ns: seq<(Cell, nat)>)
    requires !c.Bin?
    ensures PushAll(c, ns).Ok? ==>
      !PushAll(c, ns).value.Bin? &&
      PushAll(c, ns).value.children == c.children + seq(|ns|, i requires 0 <= i < |ns| => ns[i].1)
  {
    if ns != [] {
      var ns' := ns[..|ns| - 1];
      PushAllChildren(c, ns');
      var r := PushAll(c, ns');
      if r.Ok? && PushAll(c, ns).Ok? {
        assert seq(|ns|, i requires 0 <= i < |ns| => ns[i].1) ==
          seq(|ns'|, i requires 0 <= i < |ns'| => ns'[i].1) + [ns[|ns| - 1].1];
      }
    }
  }

  /** A bin's position lies inside its shifted extent on every axis whose given interval
      contains 0. */
  lemma {:induction false} BinCoversPosition(pos: seq<real>, extent: seq<Extent>, i: nat)
    requires |pos| == |extent| && i < |pos| && extent[i].0 <= 0.0 <= extent[i].1
    ensures var b := NewBin(pos, extent).value;
      b.extent[i].0 <= b.pos[i] <= b.extent[i].1
  {
  }

  /** Two additions to a bin add up. */
  lemma {:induction false} AddToBinTwice(c: Cell, u: real, v: real)
    requires c.Bin?
    ensures AddToBin(AddToBin(c, u).value, v) == AddToBin(c, u + v)
  {
  }

  /** The nodes behind the `Rc<RefCell<Node>>` handles: handle `h` is the cell `cells[h]`. */
  class Forest {
    var cells: seq<Cell>

    constructor ()
      ensures cells == []
    {
      cells := [];
    }

    /** `Node::new_root().as_ref()`, `Node::new_child()`, `Node::new_bin(..)`: a fresh handle. */
    method Alloc(c: Cell) returns (h: nat)
      modifies this
      ensures cells == old(cells) + [c] && h == |old(cells)|
    {
      h := |cells|;
      cells := cells + [c];
    }

    /** `Node::new_bin(pos, extent)`: aborts as `BinData::new` does, allocates nothing then. */
    method AllocBin(pos: seq<real>, extent: seq<Extent>) returns (r: Result<nat, TreeError>)
      modifies this
      ensures r.Err? <==> |pos| != |extent|
      ensures r.Err? ==> r.error == LengthMismatch && cells == old(cells)
      ensures r.Ok? ==> r.value == |old(cells)| && cells == old(cells) + [NewBin(pos, extent).value]
    {
      var b := NewBin(pos, extent);
      if b.Err? {
        return Err(b.error);
      }
      var h := Alloc(b.value);
      r := Ok(h);
    }

    /** `x.borrow_mut().push_node(&n)`: the cell behind `x` takes `n` as a child, as `Push` says.
        A root or a child reads the pushed node through its handle while its own cell is mutably
        borrowed, so pushing a node into itself aborts; a bin aborts before it looks. Only the cell
        behind `x` changes, and nothing changes on an abort. */
    method PushNode(x: nat, n: nat) returns (r: Result<(), TreeError>)
      requires x < |cells| && n < |cells|
      modifies this
      ensures r.Err? <==> (x == n && !old(cells[x]).Bin?) || Push(old(cells[x]), old(cells[n]), n).Err?
      ensures r.Err? ==> cells == old(cells)
      ensures r.Err? && old(cells[x]).Bin? ==> r.error == CannotPushToBin
      ensures r.Err? && x == n && !old(cells[x]).Bin? ==> r.error == AlreadyBorrowed
      ensures r.Err? && x != n && !old(cells[x]).Bin? ==>
        Push(old(cells[x]), old(cells[n]), n).Err? && r.error == Push(old(cells[x]), old(cells[n]), n).error
      ensures r.Ok? ==> cells == old(cells)[x := Push(old(cells[x]), old(cells[n]), n).value]
    {
      if cells[x].Bin? {
        return Err(CannotPushToBin);
      }
      if x == n {
        return Err(AlreadyBorrowed);
      }
      var d := Push(cells[x], cells[n], n);
      if d.Err? {
        return Err(d.error);
      }
      cells := cells[x := d.value];
      r := Ok(());
    }

    /** `x.borrow_mut().add_to_bin(v)`: only the cell behind `x` changes, and only if it is a bin. */
    method AddToBinAt(x: nat, v: real) returns (r: Result<(), TreeError>)
      requires x < |cells|
      modifies this
      ensures r.Err? <==> !old(cells[x]).Bin?
      ensures r.Err? ==> r.error == NotABin && cells == old(cells)
      ensures r.Ok? ==> cells == old(cells)[x := old(cells[x]).(val := old(cells[x]).val + v)]
    {
      var d := AddToBin(cells[x], v);
      if d.Err? {
        return Err(d.error);
      }
      cells := cells[x := d.value];
      r := Ok(());
    }

  }
}
