/** A dynamic-rank n-dimensional array in row-major (C) order, as ndarray's
    `ArrayD`: a shape and a flat buffer holding one element per index.
    Elements are reals; the kernels here are the ndarray operations the
    CPU array calls (elementwise arithmetic, `mapv`, `dot`, `sum_axis`,
    `reversed_axes`, `sum`). */
module NdArrays {
  import opened Axes

  /** Number of elements of an array of this shape; the empty shape is a scalar. */
  function Product(shape: seq<nat>): nat
  {
    if shape == [] then 1 else shape[0] * Product(shape[1..])
  }

  datatype NdArray = NdArray(shape: seq<nat>, buf: seq<real>)
  {
    /** The buffer holds exactly one element per index. */
    predicate Valid()
    {
      |buf| == Product(shape)
    }
  }

  type ArrayD = a: NdArray | a.Valid() witness NdArray([], [0.0])

  /** `idx` has one component per axis, each below that axis's extent. */
  predicate InBounds(shape: seq<nat>, idx: seq<nat>)
  {
    |idx| == |shape| && forall k :: 0 <= k < |idx| ==> idx[k] < shape[k]
  }

  /** Row-major position of a multi-index in the buffer. */
  function Offset(shape: seq<nat>, idx: seq<nat>): nat
    requires |idx| == |shape|
  {
    if shape == [] then 0 else idx[0] * Product(shape[1..]) + Offset(shape[1..], idx[1..])
  }

  lemma MulMono(a: nat, b: nat, c: nat)
    requires a <= b
    ensures a * c <= b * c
  {
  }

  lemma InBoundsTail(shape: seq<nat>, idx: seq<nat>)
    requires shape != [] && InBounds(shape, idx)
    ensures InBounds(shape[1..], idx[1..]) && idx[0] < shape[0]
  {
    forall k | 0 <= k < |idx| - 1 ensures idx[1..][k] < shape[1..][k] {
      assert idx[k + 1] < shape[k + 1];
    }
  }

  /** Place r of block i lies before the end of d blocks of size p. */
  lemma BelowBlocks(i: nat, r: nat, d: nat, p: nat)
    requires i < d && r < p
    ensures i * p + r < d * p
  {
    MulMono(i + 1, d, p);
    assert (i + 1) * p == i * p + p;
  }

  /** Every in-bounds index lands inside the buffer. */
  lemma {:induction false} OffsetInRange(shape: seq<nat>, idx: seq<nat>)
    requires InBounds(shape, idx)
    ensures Offset(shape, idx) < Product(shape)
  {
    if shape != [] {
      InBoundsTail(shape, idx);
      OffsetInRange(shape[1..], idx[1..]);
      BelowBlocks(idx[0], Offset(shape[1..], idx[1..]), shape[0], Product(shape[1..]));
    }
  }

  /** q * p + r with r < p determines q and r. */
  lemma UniqueDivision(q1: nat, r1: nat, q2: nat, r2: nat, p: nat)
    requires r1 < p && r2 < p && q1 * p + r1 == q2 * p + r2
    ensures q1 == q2 && r1 == r2
  {
    if q1 < q2 {
      MulMono(q1 + 1, q2, p);
    } else if q2 < q1 {
      MulMono(q2 + 1, q1, p);
    }
  }

  /** Distinct in-bounds indices occupy distinct buffer positions. */
  lemma {:induction false} OffsetInjective(shape: seq<nat>, i1: seq<nat>, i2: seq<nat>)
    requires InBounds(shape, i1) && InBounds(shape, i2)
    requires Offset(shape, i1) == Offset(shape, i2)
    ensures i1 == i2
  {
    if shape != [] {
      var p := Product(shape[1..]);
      InBoundsTail(shape, i1);
      InBoundsTail(shape, i2);
      OffsetInRange(shape[1..], i1[1..]);
      OffsetInRange(shape[1..], i2[1..]);
      UniqueDivision(i1[0], Offset(shape[1..], i1[1..]), i2[0], Offset(shape[1..], i2[1..]), p);
      OffsetInjective(shape[1..], i1[1..], i2[1..]);
      assert i1 == [i1[0]] + i1[1..];
      assert i2 == [i2[0]] + i2[1..];
    }
  }

  lemma DivBelow(n: nat, d: nat, p: nat)
    requires n < d * p
    ensures p > 0 && n / p < d && n % p < p
    ensures n == (n / p) * p + n % p
  {
    if n / p >= d {
      MulMono(d, n / p, p);
    }
  }

  /** Position `n` of a d-by-p block split into its block q and its place r
      inside that block. */
  function Split(n: nat, d: nat, p: nat): (qr: (nat, nat))
    requires n < d * p
    ensures qr.0 < d && qr.1 < p && n == qr.0 * p + qr.1
  {
    DivBelow(n, d, p);
    (n / p, n % p)
  }

  lemma OffsetCons(shape: seq<nat>, i: nat, rest: seq<nat>)
    requires shape != [] && |rest| == |shape| - 1
    ensures Offset(shape, [i] + rest) == i * Product(shape[1..]) + Offset(shape[1..], rest)
    ensures i < shape[0] && InBounds(shape[1..], rest) ==> InBounds(shape, [i] + rest)
  {
    assert ([i] + rest)[1..] == rest;
  }

  /** The multi-index stored at buffer position `n`: the inverse of Offset. */
  function Unravel(shape: seq<nat>, n: nat): (idx: seq<nat>)
    requires n < Product(shape)
    ensures InBounds(shape, idx) && Offset(shape, idx) == n
  {
    if shape == [] then
      []
    else
      var qr := Split(n, shape[0], Product(shape[1..]));
      var rest := Unravel(shape[1..], qr.1);
      OffsetCons(shape, qr.0, rest);
      [qr.0] + rest
  }

  /** The row-major buffer whose element at each in-bounds index is f(index). */
  function Tabulate(shape: seq<nat>, f: seq<nat> -> real): (r: seq<real>)
    ensures |r| == Product(shape)
  {
    seq(Product(shape), n requires 0 <= n < Product(shape) => f(Unravel(shape, n)))
  }

  lemma TabulateAll(shape: seq<nat>, f: seq<nat> -> real)
    ensures forall idx :: InBounds(shape, idx) ==>
      Offset(shape, idx) < Product(shape) && Tabulate(shape, f)[Offset(shape, idx)] == f(idx)
  {
    forall idx | InBounds(shape, idx)
      ensures Offset(shape, idx) < Product(shape) && Tabulate(shape, f)[Offset(shape, idx)] == f(idx)
    {
      OffsetInRange(shape, idx);
      OffsetInjective(shape, Unravel(shape, Offset(shape, idx)), idx);
    }
  }

  /** The element at an index; 0.0 stands in for an index that is out of
      bounds, which the kernels below never ask for. */
  function At(a: ArrayD, idx: seq<nat>): real
  {
    if InBounds(a.shape, idx) then
      OffsetInRange(a.shape, idx);
      a.buf[Offset(a.shape, idx)]
    else
      0.0
  }

  /** Two arrays of one shape that agree at every index are equal. */
  lemma Extensionality(a: ArrayD, b: ArrayD)
    requires a.shape == b.shape
    requires forall idx :: InBounds(a.shape, idx) ==> At(a, idx) == At(b, idx)
    ensures a == b
  {
    forall n | 0 <= n < |a.buf| ensures a.buf[n] == b.buf[n] {
      var idx := Unravel(a.shape, n);
      assert At(a, idx) == At(b, idx);
    }
  }

  /** `Array::from_elem(shape, v)`. */
  function Full(shape: seq<nat>, v: real): (r: ArrayD)
    ensures r.shape == shape
    ensures forall idx :: InBounds(shape, idx) ==> At(r, idx) == v
  {
    var f := (idx: seq<nat>) => v;
    TabulateAll(shape, f);
    NdArray(shape, Tabulate(shape, f))
  }

  /** `mapv(f)`: the same shape, f applied at every index. */
  function Map(a: ArrayD, f: real -> real): (r: ArrayD)
    ensures r.shape == a.shape
    ensures forall n :: 0 <= n < |r.buf| ==> r.buf[n] == f(a.buf[n])
  {
    NdArray(a.shape, seq(|a.buf|, n requires 0 <= n < |a.buf| => f(a.buf[n])))
  }

  lemma MapAt(a: ArrayD, f: real -> real, idx: seq<nat>)
    requires InBounds(a.shape, idx)
    ensures At(Map(a, f), idx) == f(At(a, idx))
  {
    OffsetInRange(a.shape, idx);
  }

  /** The four arithmetic operators of `std::ops` on elements. */
  datatype BinOp = Plus | Minus | Times | Over

  /** No element is zero; IEEE division by zero is not modelled. */
  predicate NoZero(a: ArrayD)
  {
    forall n :: 0 <= n < |a.buf| ==> a.buf[n] != 0.0
  }

  function Apply(op: BinOp, x: real, y: real): real
    requires op == Over ==> y != 0.0
  {
    match op
    case Plus => x + y
    case Minus => x - y
    case Times => x * y
    case Over => x / y
  }

  /** `&a op &b` on two arrays of one shape. */
  function Zip(op: BinOp, a: ArrayD, b: ArrayD): (r: ArrayD)
    requires a.shape == b.shape
    requires op == Over ==> NoZero(b)
    ensures r.shape == a.shape
    ensures forall n :: 0 <= n < |r.buf| ==> r.buf[n] == Apply(op, a.buf[n], b.buf[n])
  {
    NdArray(a.shape, seq(|a.buf|, n requires 0 <= n < |a.buf| => Apply(op, a.buf[n], b.buf[n])))
  }

  /** Sum of a sequence of reals. */
  function SumSeq(s: seq<real>): real
  {
    if s == [] then 0.0 else SumSeq(s[..|s| - 1]) + s[|s| - 1]
  }

  /** `arr.sum()`: the total of all elements. */
  function Total(a: ArrayD): real
  {
    SumSeq(a.buf)
  }

  /** n copies of v added up. */
  function Scale(n: nat, v: real): real
  {
    if n == 0 then 0.0 else Scale(n - 1, v) + v
  }

  /** n copies of v add up to n * v. */
  lemma {:induction false} ScaleIsProduct(n: nat, v: real)
    ensures Scale(n, v) == n as real * v
  {
    if n > 0 {
      ScaleIsProduct(n - 1, v);
      assert (n - 1) as real * v + v == n as real * v;
    }
  }

  lemma {:induction false} SumSeqConst(s: seq<real>, v: real)
    requires forall n :: 0 <= n < |s| ==> s[n] == v
    ensures SumSeq(s) == Scale(|s|, v)
  {
    if s != [] {
      SumSeqConst(s[..|s| - 1], v);
    }
  }

  /** Position-wise sums add up to the sum of the two totals. */
  lemma {:induction false} SumSeqAdd(s: seq<real>, t: seq<real>, w: seq<real>)
    requires |s| == |t| == |w|
    requires forall n :: 0 <= n < |w| ==> w[n] == s[n] + t[n]
    ensures SumSeq(w) == SumSeq(s) + SumSeq(t)
  {
    if w != [] {
      var m := |w| - 1;
      SumSeqAdd(s[..m], t[..m], w[..m]);
    }
  }

  /** The total of `&a + &b` is the total of `a` plus the total of `b`. */
  lemma TotalAdd(a: ArrayD, b: ArrayD)
    requires a.shape == b.shape
    ensures Total(Zip(Plus, a, b)) == Total(a) + Total(b)
  {
    SumSeqAdd(a.buf, b.buf, Zip(Plus, a, b).buf);
  }

  /** Every n-element array filled with v totals n * v. */
  lemma TotalFull(shape: seq<nat>, v: real)
    ensures Total(Full(shape, v)) == Scale(Product(shape), v)
  {
    SumSeqConst(Full(shape, v).buf, v);
  }

  /** Inner product of two vectors (`Array1::dot`), pairing elements
      position by position; `dot` is only ever given vectors of one length. */
  function Dot(u: seq<real>, v: seq<real>): (r: real)
    ensures |u| == |v| ==> r == SumSeq(Products(u, v))
  {
    if u == [] || v == [] then
      0.0
    else
      var rest := Dot(u[1..], v[1..]);
      if |u| == |v| then
        ProductsCons(u, v);
        SumSeqCons(u[0] * v[0], Products(u[1..], v[1..]));
        u[0] * v[0] + rest
      else
        u[0] * v[0] + rest
  }

  /** The elementwise products of two vectors of one length. */
  function Products(u: seq<real>, v: seq<real>): seq<real>
    requires |u| == |v|
  {
    seq(|u|, n requires 0 <= n < |u| => u[n] * v[n])
  }

  lemma ProductsCons(u: seq<real>, v: seq<real>)
    requires |u| == |v| > 0
    ensures Products(u, v) == [u[0] * v[0]] + Products(u[1..], v[1..])
  {
    var p, q := Products(u, v), [u[0] * v[0]] + Products(u[1..], v[1..]);
    forall n | 0 <= n < |p| ensures p[n] == q[n] {
      if n > 0 {
        assert q[n] == Products(u[1..], v[1..])[n - 1];
      }
    }
  }

  /** Adding up from the front gives the same as adding up from the back. */
  lemma {:induction false} SumSeqCons(x: real, s: seq<real>)
    ensures SumSeq([x] + s) == x + SumSeq(s)
    decreases |s|
  {
    if s == [] {
      assert [x] + s == [x] && [x][..0] == [];
    } else {
      var m := |s| - 1;
      assert ([x] + s)[..|s|] == [x] + s[..m];
      SumSeqCons(x, s[..m]);
    }
  }

  lemma {:induction false} DotConst(u: seq<real>, v: seq<real>, x: real, y: real)
    requires |u| == |v|
    requires forall n :: 0 <= n < |u| ==> u[n] == x && v[n] == y
    ensures Dot(u, v) == Scale(|u|, x * y)
  {
    if u != [] {
      DotConst(u[1..], v[1..], x, y);
    }
  }

  /** Sum over k < n of a[i, k] * b[k, j]. */
  function RowCol(a: ArrayD, b: ArrayD, i: nat, j: nat, n: nat): real
  {
    if n == 0 then 0.0 else RowCol(a, b, i, j, n - 1) + At(a, [i, n - 1]) * At(b, [n - 1, j])
  }

  predicate GemmShapes(a: ArrayD, b: ArrayD)
  {
    |a.shape| == 2 && |b.shape| == 2 && a.shape[1] == b.shape[0]
  }

  /** `Array2::dot`: the [M, K] by [K, N] matrix product, of shape [M, N],
      whose element (i, j) is the sum over k of a[i, k] * b[k, j]. */
  function Gemm(a: ArrayD, b: ArrayD): (r: ArrayD)
    requires GemmShapes(a, b)
    ensures r.shape == [a.shape[0], b.shape[1]]
    ensures forall i: nat, j: nat :: i < a.shape[0] && j < b.shape[1] ==>
      At(r, [i, j]) == RowCol(a, b, i, j, a.shape[1])
  {
    var shape := [a.shape[0], b.shape[1]];
    var f := (idx: seq<nat>) => if |idx| == 2 then RowCol(a, b, idx[0], idx[1], a.shape[1]) else 0.0;
    TabulateAll(shape, f);
    var r := NdArray(shape, Tabulate(shape, f));
    assert forall i: nat, j: nat :: i < a.shape[0] && j < b.shape[1] ==> InBounds(shape, [i, j]);
    r
  }

  lemma {:induction false} RowColConst(a: ArrayD, b: ArrayD, i: nat, j: nat, n: nat, x: real, y: real)
    requires forall k: nat :: k < n ==> At(a, [i, k]) == x && At(b, [k, j]) == y
    ensures RowCol(a, b, i, j, n) == Scale(n, x * y)
  {
    if n > 0 {
      RowColConst(a, b, i, j, n - 1, x, y);
      RowColStep(a, b, i, j, n);
      assert At(a, [i, n - 1]) == x && At(b, [n - 1, j]) == y;
    }
  }

  /** Multiplying an [M, K] matrix of x's by a [K, N] matrix of y's gives
      an [M, N] matrix of K * x * y's. */
  lemma GemmFull(m: nat, k: nat, n: nat, x: real, y: real)
    ensures GemmShapes(Full([m, k], x), Full([k, n], y))
    ensures Gemm(Full([m, k], x), Full([k, n], y)) == Full([m, n], Scale(k, x * y))
  {
    var a, b := Full([m, k], x), Full([k, n], y);
    var r, e := Gemm(a, b), Full([m, n], Scale(k, x * y));
    forall idx | InBounds(r.shape, idx) ensures At(r, idx) == At(e, idx) {
      var i, j := idx[0], idx[1];
      assert idx == [i, j];
      forall t: nat | t < k ensures At(a, [i, t]) == x && At(b, [t, j]) == y {
        assert InBounds(a.shape, [i, t]) && InBounds(b.shape, [t, j]);
      }
      RowColConst(a, b, i, j, k, x, y);
    }
    Extensionality(r, e);
  }

  /** The k-by-k identity matrix: 1 on the diagonal, 0 elsewhere. */
  function Identity(k: nat): (r: ArrayD)
    ensures r.shape == [k, k]
  {
    NdArray([k, k], Tabulate([k, k], Diagonal))
  }

  /** The identity's element function: 1 where the two indices agree. */
  function Diagonal(idx: seq<nat>): real
  {
    if |idx| == 2 && idx[0] == idx[1] then 1.0 else 0.0
  }

  /** The identity holds 1 at (i, i) and 0 at every other in-bounds (i, j). */
  lemma IdentityAt(k: nat, i: nat, j: nat)
    requires i < k && j < k
    ensures At(Identity(k), [i, j]) == if i == j then 1.0 else 0.0
  {
    TabulateAll([k, k], Diagonal);
    assert InBounds([k, k], [i, j]);
  }

  /** Against a column j that is 1 at row j and 0 elsewhere, the first n
      terms of row i of `a` pick out a[i, j] once j < n, and nothing before. */
  lemma {:induction false} RowColIdentity(a: ArrayD, e: ArrayD, i: nat, j: nat, n: nat)
    requires forall t: nat :: t < n ==> At(e, [t, j]) == if t == j then 1.0 else 0.0
    ensures RowCol(a, e, i, j, n) == if j < n then At(a, [i, j]) else 0.0
  {
    if n > 0 {
      RowColIdentity(a, e, i, j, n - 1);
      var x, y := At(a, [i, n - 1]), At(e, [n - 1, j]);
      RowColStep(a, e, i, j, n);
      if n - 1 == j {
        assert [i, n - 1] == [i, j] && y == 1.0;
        assert x * y == x;
      } else {
        assert x * y == 0.0;
      }
    }
  }

  /** Against `b`, a row i of `e` that is 1 at column i and 0 elsewhere
      picks out b[i, j] once i < n, and nothing before. */
  lemma {:induction false} RowColIdentityLeft(e: ArrayD, b: ArrayD, i: nat, j: nat, n: nat)
    requires forall t: nat :: t < n ==> At(e, [i, t]) == if i == t then 1.0 else 0.0
    ensures RowCol(e, b, i, j, n) == if i < n then At(b, [i, j]) else 0.0
  {
    if n > 0 {
      RowColIdentityLeft(e, b, i, j, n - 1);
      var x, y := At(e, [i, n - 1]), At(b, [n - 1, j]);
      RowColStep(e, b, i, j, n);
      if i == n - 1 {
        assert [n - 1, j] == [i, j] && x == 1.0;
        assert x * y == y;
      } else {
        assert x * y == 0.0;
      }
    }
  }

  /** One more term of a row-by-column sum. */
  lemma RowColStep(a: ArrayD, b: ArrayD, i: nat, j: nat, n: nat)
    requires n > 0
    ensures RowCol(a, b, i, j, n) == RowCol(a, b, i, j, n - 1) + At(a, [i, n - 1]) * At(b, [n - 1, j])
  {
  }

  /** The identity is a right unit of the matrix product: a · I = a. */
  lemma GemmIdentity(a: ArrayD)
    requires |a.shape| == 2
    ensures GemmShapes(a, Identity(a.shape[1]))
    ensures Gemm(a, Identity(a.shape[1])) == a
  {
    var r := Gemm(a, Identity(a.shape[1]));
    assert r.shape == a.shape;
    forall idx | InBounds(r.shape, idx) ensures At(r, idx) == At(a, idx) {
      var i, j := idx[0], idx[1];
      assert idx == [i, j];
      var e, k := Identity(a.shape[1]), a.shape[1];
      forall t: nat | t < k ensures At(e, [t, j]) == if t == j then 1.0 else 0.0 {
        IdentityAt(k, t, j);
      }
      RowColIdentity(a, e, i, j, k);
    }
    Extensionality(r, a);
  }

  /** The identity is a left unit of the matrix product: I · b = b. */
  lemma GemmIdentityLeft(b: ArrayD)
    requires |b.shape| == 2
    ensures GemmShapes(Identity(b.shape[0]), b)
    ensures Gemm(Identity(b.shape[0]), b) == b
  {
    var r := Gemm(Identity(b.shape[0]), b);
    assert r.shape == b.shape;
    forall idx | InBounds(r.shape, idx) ensures At(r, idx) == At(b, idx) {
      var i, j := idx[0], idx[1];
      assert idx == [i, j];
      var e, k := Identity(b.shape[0]), b.shape[0];
      forall t: nat | t < k ensures At(e, [i, t]) == if i == t then 1.0 else 0.0 {
        IdentityAt(k, i, t);
      }
      RowColIdentityLeft(e, b, i, j, k);
    }
    Extensionality(r, b);
  }

  /** Reverse order. */
  function Reverse(s: seq<nat>): (r: seq<nat>)
    ensures |r| == |s|
    ensures forall k :: 0 <= k < |s| ==> r[k] == s[|s| - 1 - k]
  {
    seq(|s|, k requires 0 <= k < |s| => s[|s| - 1 - k])
  }

  lemma ReverseReverse(s: seq<nat>)
    ensures Reverse(Reverse(s)) == s
  {
  }

  lemma InBoundsReverse(shape: seq<nat>, idx: seq<nat>)
    requires InBounds(shape, idx)
    ensures InBounds(Reverse(shape), Reverse(idx))
  {
  }

  /** `reversed_axes()`: the reversed shape, with the element at idx being
      the original element at the reversed idx. */
  function ReverseAxes(a: ArrayD): (r: ArrayD)
    ensures r.shape == Reverse(a.shape)
    ensures forall idx :: InBounds(r.shape, idx) ==> At(r, idx) == At(a, Reverse(idx))
  {
    var shape := Reverse(a.shape);
    var f := (idx: seq<nat>) => At(a, Reverse(idx));
    TabulateAll(shape, f);
    NdArray(shape, Tabulate(shape, f))
  }

  /** Reversing the axes twice restores shape and contents. */
  lemma ReverseAxesInvolution(a: ArrayD)
    ensures ReverseAxes(ReverseAxes(a)) == a
  {
    var t := ReverseAxes(ReverseAxes(a));
    ReverseReverse(a.shape);
    forall idx | InBounds(a.shape, idx) ensures At(t, idx) == At(a, idx) {
      InBoundsReverse(a.shape, idx);
      ReverseReverse(idx);
    }
    Extensionality(t, a);
  }

  /** The elements of `a` along axis k through the position `idx` of the
      other axes: entry t is the element at idx with t inserted at axis k. */
  function Fiber(a: ArrayD, k: nat, idx: seq<nat>): (r: seq<real>)
    requires k < |a.shape|
    ensures |r| == a.shape[k]
    ensures forall t :: 0 <= t < |r| ==> r[t] == At(a, InsertAt(idx, k, t))
  {
    seq(a.shape[k], t requires 0 <= t < a.shape[k] => At(a, InsertAt(idx, k, t)))
  }

  /** The kernel of `sum_axis(Axis(k))`: each index of the reduced shape
      maps to the sum of the fibre through it. */
  function FiberTotals(a: ArrayD, k: nat): seq<nat> -> real
    requires k < |a.shape|
  {
    idx => SumSeq(Fiber(a, k, idx))
  }

  /** `sum_axis(Axis(k))`: the shape with axis k removed; `SumAxisAt` gives
      its elements. */
  function SumAxis(a: ArrayD, k: nat): (r: ArrayD)
    requires k < |a.shape|
    ensures r.shape == RemoveAt(a.shape, k)
  {
    var shape := RemoveAt(a.shape, k);
    NdArray(shape, Tabulate(shape, FiberTotals(a, k)))
  }

  /** Each element of `sum_axis(Axis(k))` is the sum along axis k of the
      original array through that position. */
  lemma SumAxisAt(a: ArrayD, k: nat, idx: seq<nat>)
    requires k < |a.shape| && InBounds(RemoveAt(a.shape, k), idx)
    ensures At(SumAxis(a, k), idx) == SumSeq(Fiber(a, k, idx))
  {
    TabulateAll(RemoveAt(a.shape, k), FiberTotals(a, k));
  }

  lemma InBoundsInsert(shape: seq<nat>, k: nat, idx: seq<nat>, t: nat)
    requires k < |shape| && t < shape[k]
    requires InBounds(RemoveAt(shape, k), idx)
    ensures InBounds(shape, InsertAt(idx, k, t))
  {
    InsertAtFacts(idx, k, t);
  }

  /** Every fibre of a constant array sums to the axis extent times the constant. */
  lemma SumAxisFullAt(shape: seq<nat>, v: real, k: nat, idx: seq<nat>)
    requires k < |shape| && InBounds(RemoveAt(shape, k), idx)
    ensures SumSeq(Fiber(Full(shape, v), k, idx)) == Scale(shape[k], v)
  {
    var a := Full(shape, v);
    var fib := Fiber(a, k, idx);
    forall t | 0 <= t < |fib| ensures fib[t] == v {
      InBoundsInsert(shape, k, idx, t);
    }
    SumSeqConst(fib, v);
  }

  /** Summing a constant array along axis k multiplies the constant by that
      axis's extent. */
  lemma SumAxisFull(shape: seq<nat>, v: real, k: nat)
    requires k < |shape|
    ensures SumAxis(Full(shape, v), k) == Full(RemoveAt(shape, k), Scale(shape[k], v))
  {
    var r := SumAxis(Full(shape, v), k);
    var e := Full(RemoveAt(shape, k), Scale(shape[k], v));
    forall idx | InBounds(r.shape, idx) ensures At(r, idx) == At(e, idx) {
      SumAxisAt(Full(shape, v), k, idx);
      SumAxisFullAt(shape, v, k, idx);
    }
    Extensionality(r, e);
  }

  /** The accumulator of the multi-axis reduction: `sum_axis` applied with
      the axes `shifted[0]`, `shifted[1]`, ... in that order. */
  function SumAxes(a: ArrayD, shifted: seq<nat>): (r: ArrayD)
    requires AxesFit(|a.shape|, shifted)
    ensures r.shape == RemoveEach(a.shape, shifted)
    decreases |shifted|
  {
    if shifted == [] then
      a
    else
      var m := |shifted| - 1;
      assert AxesFit(|a.shape|, shifted[..m]);
      SumAxis(SumAxes(a, shifted[..m]), shifted[m])
  }

  /** Reducing one more axis at the end is one more `sum_axis` call. */
  lemma SumAxesSnoc(a: ArrayD, shifted: seq<nat>, x: nat)
    requires AxesFit(|a.shape|, shifted + [x])
    ensures AxesFit(|a.shape|, shifted)
    ensures x < |SumAxes(a, shifted).shape|
    ensures SumAxes(a, shifted + [x]) == SumAxis(SumAxes(a, shifted), x)
  {
    var s := shifted + [x];
    var m := |s| - 1;
    assert s[..m] == shifted && s[m] == x;
    assert AxesFit(|a.shape|, shifted);
    var prev := SumAxes(a, shifted);
    assert SumAxes(a, s) == SumAxis(SumAxes(a, s[..m]), s[m]);
    assert SumAxes(a, s[..m]) == prev;
    assert s[m] + m < |a.shape|;
    assert |prev.shape| == |a.shape| - m;
    assert SumAxes(a, s) == SumAxis(prev, x);
  }

  /** Reducing the single axis [x] is one `sum_axis(x)` call. */
  lemma SumAxesOne(a: ArrayD, x: nat)
    requires x < |a.shape|
    ensures AxesFit(|a.shape|, [x])
    ensures SumAxes(a, [x]) == SumAxis(a, x)
  {
    var s := [x];
    assert s[..0] == [];
    assert AxesFit(|a.shape|, s);
    assert SumAxes(a, s[..0]) == a;
  }

  /** Reducing the axes [x, y] is `sum_axis(x)` followed by `sum_axis(y)`. */
  lemma SumAxesTwo(a: ArrayD, x: nat, y: nat)
    requires x < |a.shape| && y + 1 < |a.shape|
    ensures AxesFit(|a.shape|, [x, y])
    ensures y < |SumAxis(a, x).shape|
    ensures SumAxes(a, [x, y]) == SumAxis(SumAxis(a, x), y)
  {
    SumAxesOne(a, x);
    var once := SumAxis(a, x);
    assert [x] + [y] == [x, y];
    assert AxesFit(|a.shape|, [x] + [y]);
    SumAxesSnoc(a, [x], y);
  }
}
