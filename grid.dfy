/** `bin_positions` (src/pyramid.rs): the regular grid of bin centres of one pyramid level, listed in
    row-major order (last axis fastest), together with the per-axis grid step. */
module Grid {
  import opened Wrappers

  /** Why `bin_positions` aborts: `assert!(lim.len() == dims)` or `unimplemented!()` for a number of
      axes outside 1..4. */
  datatype GridError = LimitsMismatch | Unimplemented

  /** Product of the bin counts (`tot_bins`). */
  function Product(ns: seq<nat>): nat
  {
    if ns == [] then 1 else Product(ns[..|ns| - 1]) * ns[|ns| - 1]
  }

  /** Row-major rank of a vector of per-axis indices: the position at which the nested loops emit it. */
  function Rank(ns: seq<nat>, ds: seq<nat>): nat
    requires |ds| == |ns|
  {
    if ns == [] then 0 else Rank(ns[..|ns| - 1], ds[..|ds| - 1]) * ns[|ns| - 1] + ds[|ds| - 1]
  }

  /** The per-axis indices of the `k`-th emitted position (mixed-radix digits of `k`, last axis lowest). */
  function Digits(ns: seq<nat>, k: nat): (ds: seq<nat>)
    ensures |ds| == |ns|
  {
    if ns == [] then []
    else
      var n := ns[|ns| - 1];
      if n == 0 then Digits(ns[..|ns| - 1], 0) + [0]
      else Digits(ns[..|ns| - 1], k / n) + [k % n]
  }

  /** Every index is below its axis' bin count. */
  predicate InRange(ns: seq<nat>, ds: seq<nat>)
  {
    |ds| == |ns| && forall i :: 0 <= i < |ns| ==> ds[i] < ns[i]
  }

  /** The per-axis grid step: `(max - min) / (n + 1)`. */
  function Steps(lim: seq<(real, real)>, ns: seq<nat>): (steps: seq<real>)
    requires |lim| == |ns|
    ensures |steps| == |ns|
  {
    seq(|ns|, i requires 0 <= i < |ns| => (lim[i].1 - lim[i].0) / ((ns[i] + 1) as real))
  }

  /** Coordinate of index `a` on an axis: one step in from `min`, then `a` more steps. */
  function Coord(min: real, step: real, a: nat): real
  {
    min + step * (1.0 + a as real)
  }

  /** The `k`-th grid position. */
  function Point(lim: seq<(real, real)>, ns: seq<nat>, k: nat): (p: seq<real>)
    requires |lim| == |ns|
    ensures |p| == |ns|
  {
    var steps, ds := Steps(lim, ns), Digits(ns, k);
    seq(|ns|, i requires 0 <= i < |ns| => Coord(lim[i].0, steps[i], ds[i]))
  }

  /** `out` is the whole grid, in emission order. */
  predicate IsGrid(lim: seq<(real, real)>, ns: seq<nat>, out: seq<seq<real>>)
    requires |lim| == |ns|
  {
    |out| == Product(ns) && forall k :: 0 <= k < |out| ==> out[k] == Point(lim, ns, k)
  }

  lemma {:induction false} MulMonotone(x: nat, y: nat, n: nat)
    requires x <= y
    ensures x * n <= y * n
  {
  }

  lemma {:induction false} MulSucc(x: nat, n: nat)
    ensures (x + 1) * n == x * n + n
  {
  }

  lemma {:induction false} DivModUnique(q: nat, r: nat, n: nat)
    requires r < n
    ensures (q * n + r) / n == q && (q * n + r) % n == r
  {
    var k := q * n + r;
    var q', r' := k / n, k % n;
    assert k == q' * n + r' && r' < n;
    if q' > q {
      MulMonotone(q + 1, q', n);
      MulSucc(q, n);
    } else if q' < q {
      MulMonotone(q' + 1, q, n);
      MulSucc(q', n);
    }
  }

  /** A vector of in-range indices has a rank below the number of positions. */
  lemma {:induction false} RankBelowProduct(ns: seq<nat>, ds: seq<nat>)
    requires InRange(ns, ds)
    ensures Rank(ns, ds) < Product(ns)
  {
    if ns != [] {
      var m := |ns| - 1;
      RankBelowProduct(ns[..m], ds[..m]);
      var r, p, n := Rank(ns[..m], ds[..m]), Product(ns[..m]), ns[m];
      MulMonotone(r + 1, p, n);
      MulSucc(r, n);
    }
  }

  /** Decoding the rank of in-range indices gives the indices back. */
  lemma {:induction false} DigitsOfRank(ns: seq<nat>, ds: seq<nat>)
    requires InRange(ns, ds)
    ensures Digits(ns, Rank(ns, ds)) == ds
  {
    if ns != [] {
      var m := |ns| - 1;
      DigitsOfRank(ns[..m], ds[..m]);
      DivModUnique(Rank(ns[..m], ds[..m]), ds[m], ns[m]);
      assert ds == ds[..m] + [ds[m]];
    }
  }

  /** Every position number below the product decodes to in-range indices whose rank is that number:
      together with DigitsOfRank, the grid lists each index vector exactly once, in row-major order. */
  lemma {:induction false} RankOfDigits(ns: seq<nat>, k: nat)
    requires k < Product(ns)
    ensures InRange(ns, Digits(ns, k)) && Rank(ns, Digits(ns, k)) == k
  {
    if ns != [] {
      var m := |ns| - 1;
      var n := ns[m];
      QuotientBelow(k, n, Product(ns[..m]));
      var q := k / n;
      RankOfDigits(ns[..m], q);
      var ds := Digits(ns, k);
      assert ds[..m] == Digits(ns[..m], q) && ds[m] == k % n;
      assert Rank(ns, ds) == q * n + k % n;
      InRangeSnoc(ns, ds);
    }
  }

  lemma {:induction false} QuotientBelow(k: nat, n: nat, p: nat)
    requires k < p * n
    ensures n > 0 && k / n < p && k == (k / n) * n + k % n && k % n < n
  {
    var q := k / n;
    if q >= p {
      MulMonotone(p, q, n);
    }
  }

  lemma {:induction false} InRangeSnoc(ns: seq<nat>, ds: seq<nat>)
    requires |ns| == |ds| >= 1 && InRange(ns[..|ns| - 1], ds[..|ds| - 1]) && ds[|ds| - 1] < ns[|ns| - 1]
    ensures InRange(ns, ds)
  {
    var m := |ns| - 1;
    forall i | 0 <= i < |ns|
      ensures ds[i] < ns[i]
    {
      if i < m {
        assert ds[i] == ds[..m][i] && ns[i] == ns[..m][i];
      }
    }
  }

  /** Every grid coordinate of a non-empty interval lies strictly between `min` and `max`. */
  lemma {:induction false} PointStrictlyInside(lim: seq<(real, real)>, ns: seq<nat>, k: nat, i: nat)
    requires |lim| == |ns| && k < Product(ns) && i < |ns|
    requires lim[i].0 < lim[i].1
    ensures lim[i].0 < Point(lim, ns, k)[i] < lim[i].1
  {
    RankOfDigits(ns, k);
    CoordInside(lim[i].0, lim[i].1, ns[i], Digits(ns, k)[i]);
  }

  lemma {:induction false} CoordInside(min: real, max: real, n: nat, a: nat)
    requires min < max && a < n
    ensures var step := (max - min) / ((n + 1) as real);
      min < Coord(min, step, a) < max
  {
    var w, m := max - min, (n + 1) as real;
    var step := w / m;
    assert step > 0.0 && step * m == w;
    RealMulPositive(step, 1.0 + a as real);
    RealMulLess(step, 1.0 + a as real, m);
  }

  lemma {:induction false} RealMulPositive(s: real, x: real)
    requires s > 0.0 && x > 0.0
    ensures s * x > 0.0
  {
  }

  lemma {:induction false} RealMulLess(s: real, x: real, y: real)
    requires s > 0.0 && x < y
    ensures s * x < s * y
  {
    RealMulPositive(s, y - x);
  }

  /** The number of emitted positions with two, three and four axes, as the nested loops count them. */
  lemma {:induction false} Product2(ns: seq<nat>)
    requires |ns| == 2
    ensures Product(ns) == ns[0] * ns[1]
  {
    assert ns[..1][..0] == [] && ns[..1][0] == ns[0];
    assert Product(ns[..1]) == Product(ns[..1][..0]) * ns[0];
  }

  lemma {:induction false} Product3(ns: seq<nat>)
    requires |ns| == 3
    ensures Product(ns) == ns[0] * ns[1] * ns[2]
  {
    Product2(ns[..2]);
  }

  lemma {:induction false} Product4(ns: seq<nat>)
    requires |ns| == 4
    ensures Product(ns) == ns[0] * ns[1] * ns[2] * ns[3]
  {
    Product3(ns[..3]);
  }

  lemma {:induction false} Rank2(ns: seq<nat>, a: nat, b: nat)
    requires |ns| == 2
    ensures Rank(ns, [a, b]) == a * ns[1] + b
  {
    var ds := [a, b];
    assert ds[..1] == [a] && [a][..0] == [];
    assert ns[..1][..0] == [] && ns[..1][0] == ns[0];
    assert Rank(ns[..1], [a]) == Rank(ns[..1][..0], [a][..0]) * ns[0] + a;
  }

  lemma {:induction false} Rank3(ns: seq<nat>, a: nat, b: nat, c: nat)
    requires |ns| == 3
    ensures Rank(ns, [a, b, c]) == (a * ns[1] + b) * ns[2] + c
  {
    assert [a, b, c][..2] == [a, b];
    Rank2(ns[..2], a, b);
  }

  lemma {:induction false} Rank4(ns: seq<nat>, a: nat, b: nat, c: nat, d: nat)
    requires |ns| == 4
    ensures Rank(ns, [a, b, c, d]) == ((a * ns[1] + b) * ns[2] + c) * ns[3] + d
  {
    assert [a, b, c, d][..3] == [a, b, c];
    Rank3(ns[..3], a, b, c);
  }

  /** The position the innermost loop emits is the grid point of its rank. */
  lemma {:induction false} Emit1(lim: seq<(real, real)>, ns: seq<nat>, a: nat)
    requires |lim| == |ns| == 1 && a < ns[0]
    ensures [Coord(lim[0].0, Steps(lim, ns)[0], a)] == Point(lim, ns, a)
  {
    assert Rank(ns, [a]) == a by { assert [a][..0] == [] && ns[..0] == []; }
    DigitsOfRank(ns, [a]);
  }

  lemma {:induction false} Emit2(lim: seq<(real, real)>, ns: seq<nat>, a: nat, b: nat)
    requires |lim| == |ns| == 2 && a < ns[0] && b < ns[1]
    ensures var st := Steps(lim, ns);
      [Coord(lim[0].0, st[0], a), Coord(lim[1].0, st[1], b)] == Point(lim, ns, a * ns[1] + b)
  {
    Rank2(ns, a, b);
    DigitsOfRank(ns, [a, b]);
  }

  lemma {:induction false} Emit3(lim: seq<(real, real)>, ns: seq<nat>, a: nat, b: nat, c: nat)
    requires |lim| == |ns| == 3 && a < ns[0] && b < ns[1] && c < ns[2]
    ensures var st := Steps(lim, ns);
      [Coord(lim[0].0, st[0], a), Coord(lim[1].0, st[1], b), Coord(lim[2].0, st[2], c)]
        == Point(lim, ns, (a * ns[1] + b) * ns[2] + c)
  {
    Rank3(ns, a, b, c);
    DigitsOfRank(ns, [a, b, c]);
  }

  lemma {:induction false} Emit4(lim: seq<(real, real)>, ns: seq<nat>, a: nat, b: nat, c: nat, d: nat)
    requires |lim| == |ns| == 4 && a < ns[0] && b < ns[1] && c < ns[2] && d < ns[3]
    ensures var st := Steps(lim, ns);
      [Coord(lim[0].0, st[0], a), Coord(lim[1].0, st[1], b), Coord(lim[2].0, st[2], c),
       Coord(lim[3].0, st[3], d)]
        == Point(lim, ns, ((a * ns[1] + b) * ns[2] + c) * ns[3] + d)
  {
    Rank4(ns, a, b, c, d);
    DigitsOfRank(ns, [a, b, c, d]);
  }

  /** `bin_positions`: aborts unless there is one limit per axis and 1 to 4 axes; otherwise returns
      every grid position, in the nested loops' order, and the per-axis step, which is also the
      level's extent. */
  method BinPositions(lim: seq<(real, real)>, ns: seq<nat>)
    returns (r: Result<(seq<seq<real>>, seq<real>), GridError>)
    ensures r.Err? <==> |lim| != |ns| || |ns| == 0 || |ns| > 4
    ensures r.Err? ==> r.error == if |lim| != |ns| then LimitsMismatch else Unimplemented
    ensures r.Ok? ==> r.value.1 == Steps(lim, ns) && IsGrid(lim, ns, r.value.0)
  {
    var dims := |ns|;
    if |lim| != dims {
      return Err(LimitsMismatch);
    }
    var steps := Steps(lim, ns);
    var out: seq<seq<real>> := [];
    if dims == 1 {
      for a := 0 to ns[0]
        invariant |out| == a
        invariant forall k :: 0 <= k < |out| ==> out[k] == Point(lim, ns, k)
      {
        Emit1(lim, ns, a);
        out := out + [[Coord(lim[0].0, steps[0], a)]];
      }
      assert Product(ns) == ns[0] by { assert ns[..0] == []; }
    } else if dims == 2 {
      out := Grid2(lim, ns);
    } else if dims == 3 {
      out := Grid3(lim, ns);
    } else if dims == 4 {
      out := Grid4(lim, ns);
    } else {
      return Err(Unimplemented);
    }
    r := Ok((out, steps));
  }

  /** The two-axis arm of `bin_positions`. */
  method Grid2(lim: seq<(real, real)>, ns: seq<nat>) returns (out: seq<seq<real>>)
    requires |lim| == |ns| == 2
    ensures IsGrid(lim, ns, out)
  {
    var steps := Steps(lim, ns);
    out := [];
    for a := 0 to ns[0]
      invariant |out| == a * ns[1]
      invariant forall k :: 0 <= k < |out| ==> out[k] == Point(lim, ns, k)
    {
      var aTmp := Coord(lim[0].0, steps[0], a);
      for b := 0 to ns[1]
        invariant |out| == a * ns[1] + b
        invariant forall k :: 0 <= k < |out| ==> out[k] == Point(lim, ns, k)
      {
        Emit2(lim, ns, a, b);
        out := out + [[aTmp, Coord(lim[1].0, steps[1], b)]];
      }
      MulSucc(a, ns[1]);
    }
    Product2(ns);
  }

  /** The three-axis arm of `bin_positions`. */
  method Grid3(lim: seq<(real, real)>, ns: seq<nat>) returns (out: seq<seq<real>>)
    requires |lim| == |ns| == 3
    ensures IsGrid(lim, ns, out)
  {
    var steps := Steps(lim, ns);
    out := [];
    for a := 0 to ns[0]
      invariant |out| == a * ns[1] * ns[2]
      invariant forall k :: 0 <= k < |out| ==> out[k] == Point(lim, ns, k)
    {
      var aTmp := Coord(lim[0].0, steps[0], a);
      for b := 0 to ns[1]
        invariant |out| == (a * ns[1] + b) * ns[2]
        invariant forall k :: 0 <= k < |out| ==> out[k] == Point(lim, ns, k)
      {
        var bTmp := Coord(lim[1].0, steps[1], b);
        for c := 0 to ns[2]
          invariant |out| == (a * ns[1] + b) * ns[2] + c
          invariant forall k :: 0 <= k < |out| ==> out[k] == Point(lim, ns, k)
        {
          Emit3(lim, ns, a, b, c);
          out := out + [[aTmp, bTmp, Coord(lim[2].0, steps[2], c)]];
        }
        MulSucc(a * ns[1] + b, ns[2]);
      }
      MulSucc(a, ns[1]);
    }
    Product3(ns);
  }

  /** The four-axis arm of `bin_positions`. */
  method Grid4(lim: seq<(real, real)>, ns: seq<nat>) returns (out: seq<seq<real>>)
    requires |lim| == |ns| == 4
    ensures IsGrid(lim, ns, out)
  {
    var steps := Steps(lim, ns);
    out := [];
    for a := 0 to ns[0]
      invariant |out| == a * ns[1] * ns[2] * ns[3]
      invariant forall k :: 0 <= k < |out| ==> out[k] == Point(lim, ns, k)
    {
      var aTmp := Coord(lim[0].0, steps[0], a);
      for b := 0 to ns[1]
        invariant |out| == (a * ns[1] + b) * ns[2] * ns[3]
        invariant forall k :: 0 <= k < |out| ==> out[k] == Point(lim, ns, k)
      {
        ghost var rb := a * ns[1] + b;
        var bTmp := Coord(lim[1].0, steps[1], b);
        for c := 0 to ns[2]
          invariant |out| == (rb * ns[2] + c) * ns[3]
          invariant forall k :: 0 <= k < |out| ==> out[k] == Point(lim, ns, k)
        {
          ghost var rc := rb * ns[2] + c;
          var cTmp := Coord(lim[2].0, steps[2], c);
          for d := 0 to ns[3]
            invariant |out| == rc * ns[3] + d
            invariant forall k :: 0 <= k < |out| ==> out[k] == Point(lim, ns, k)
          {
            Emit4(lim, ns, a, b, c, d);
            out := out + [[aTmp, bTmp, cTmp, Coord(lim[3].0, steps[3], d)]];
          }
          MulSucc(rc, ns[3]);
        }
        MulSucc(rb, ns[2]);
        assert (rb + 1) * ns[2] * ns[3] == (rb * ns[2] + ns[2]) * ns[3];
      }
      MulSucc(a, ns[1]);
      assert (a + 1) * ns[1] * ns[2] * ns[3] == (a * ns[1] + ns[1]) * ns[2] * ns[3];
    }
    Product4(ns);
  }
}
