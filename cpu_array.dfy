/** The CPU array of src/array.rs: an ndarray tagged with its element type.
    Every kernel matches on the tag. In add, sub, mul, div, matmul, relu,
    exp, sum, transpose and get only the f32 arm computes, and the f64 arm
    answers `None` or an error message; zeros, ones, fill and shape handle
    both dtypes; copy_from does nothing unless both arrays are f32. */
module CpuArrays {
  import opened Wrappers
  import opened Axes
  import opened NdArrays

  /** The element type: 32- or 64-bit float. */
  datatype DType = F32 | F64

  /** `CpuArray`: the variant is the array's dtype. */
  datatype CpuArray = F32Array(arr: ArrayD) | F64Array(arr: ArrayD)
  {
    function DTypeOf(): DType
    {
      if F32Array? then F32 else F64
    }
  }

  const MatmulError := "Cannot MatMul for the provided data types"
  const ReluError := "Cannot ReLU for the provided data types"
  const ExpError := "Cannot exp for the provided data types"
  const SumError := "Not able to sum all fields for data type"
  // transpose reuses the exp message in the source.
  const TransposeError := "Cannot exp for the provided data types"

  /** `CpuArray::zeros`: the requested dtype and shape, every element 0. */
  function Zeros(shape: seq<nat>, dtype: DType): (r: CpuArray)
    ensures r.DTypeOf() == dtype && r.arr.shape == shape
    ensures forall idx :: InBounds(shape, idx) ==> At(r.arr, idx) == 0.0
  {
    match dtype
    case F32 => F32Array(Full(shape, 0.0))
    case F64 => F64Array(Full(shape, 0.0))
  }

  /** `CpuArray::ones`: the requested dtype and shape, every element 1. */
  function Ones(shape: seq<nat>, dtype: DType): (r: CpuArray)
    ensures r.DTypeOf() == dtype && r.arr.shape == shape
    ensures forall idx :: InBounds(shape, idx) ==> At(r.arr, idx) == 1.0
  {
    match dtype
    case F32 => F32Array(Full(shape, 1.0))
    case F64 => F64Array(Full(shape, 1.0))
  }

  /** `CpuArray::fill`: the requested dtype and shape, every element `value`. */
  function Fill(value: real, shape: seq<nat>, dtype: DType): (r: CpuArray)
    ensures r.DTypeOf() == dtype && r.arr.shape == shape
    ensures forall idx :: InBounds(shape, idx) ==> At(r.arr, idx) == value
  {
    match dtype
    case F32 => F32Array(Full(shape, value))
    case F64 => F64Array(Full(shape, value))
  }

  /** What `a.add(b)` and its siblings need of two f32 operands: one shape
      (broadcasting is not modelled) and, for division, no zero divisor. */
  predicate ElementwiseOperands(op: BinOp, lhs: CpuArray, rhs: CpuArray)
  {
    lhs.F32Array? && rhs.F32Array? ==>
      lhs.arr.shape == rhs.arr.shape && (op == Over ==> NoZero(rhs.arr))
  }

  /** The shared body of add, sub, mul and div: a result exactly when both
      operands are f32, of their shape, combining corresponding elements. */
  function Elementwise(op: BinOp, lhs: CpuArray, rhs: CpuArray): (r: Option<CpuArray>)
    requires ElementwiseOperands(op, lhs, rhs)
    ensures r.Some? <==> lhs.F32Array? && rhs.F32Array?
    ensures r.Some? ==> r.value.F32Array? && r.value.arr.shape == lhs.arr.shape
    ensures r.Some? ==> forall n :: 0 <= n < |r.value.arr.buf| ==>
      r.value.arr.buf[n] == Apply(op, lhs.arr.buf[n], rhs.arr.buf[n])
  {
    match (lhs, rhs)
    case (F32Array(a), F32Array(b)) => Some(F32Array(Zip(op, a, b)))
    case _ => None
  }

  function Add(lhs: CpuArray, rhs: CpuArray): (r: Option<CpuArray>)
    requires ElementwiseOperands(Plus, lhs, rhs)
    ensures r.Some? <==> lhs.F32Array? && rhs.F32Array?
    ensures r.Some? ==> r.value.F32Array? && r.value.arr.shape == lhs.arr.shape
    ensures r.Some? ==> forall n :: 0 <= n < |r.value.arr.buf| ==>
      r.value.arr.buf[n] == lhs.arr.buf[n] + rhs.arr.buf[n]
  {
    Elementwise(Plus, lhs, rhs)
  }

  function Sub(lhs: CpuArray, rhs: CpuArray): (r: Option<CpuArray>)
    requires ElementwiseOperands(Minus, lhs, rhs)
    ensures r.Some? <==> lhs.F32Array? && rhs.F32Array?
    ensures r.Some? ==> r.value.F32Array? && r.value.arr.shape == lhs.arr.shape
    ensures r.Some? ==> forall n :: 0 <= n < |r.value.arr.buf| ==>
      r.value.arr.buf[n] == lhs.arr.buf[n] - rhs.arr.buf[n]
  {
    Elementwise(Minus, lhs, rhs)
  }

  function Mul(lhs: CpuArray, rhs: CpuArray): (r: Option<CpuArray>)
    requires ElementwiseOperands(Times, lhs, rhs)
    ensures r.Some? <==> lhs.F32Array? && rhs.F32Array?
    ensures r.Some? ==> r.value.F32Array? && r.value.arr.shape == lhs.arr.shape
    ensures r.Some? ==> forall n :: 0 <= n < |r.value.arr.buf| ==>
      r.value.arr.buf[n] == lhs.arr.buf[n] * rhs.arr.buf[n]
  {
    Elementwise(Times, lhs, rhs)
  }

  function Div(lhs: CpuArray, rhs: CpuArray): (r: Option<CpuArray>)
    requires ElementwiseOperands(Over, lhs, rhs)
    ensures r.Some? <==> lhs.F32Array? && rhs.F32Array?
    ensures r.Some? ==> r.value.F32Array? && r.value.arr.shape == lhs.arr.shape
    ensures r.Some? ==> forall n :: 0 <= n < |r.value.arr.buf| ==>
      r.value.arr.buf[n] * rhs.arr.buf[n] == lhs.arr.buf[n]
  {
    Elementwise(Over, lhs, rhs)
  }

  /** Adding zeros changes nothing. */
  lemma AddZeros(a: CpuArray)
    requires a.F32Array?
    ensures Add(a, Zeros(a.arr.shape, F32)) == Some(a)
  {
    var z := Zeros(a.arr.shape, F32);
    var r := Add(a, z).value;
    forall idx | InBounds(a.arr.shape, idx) ensures At(r.arr, idx) == At(a.arr, idx) {
      OffsetInRange(a.arr.shape, idx);
      assert At(z.arr, idx) == 0.0;
    }
    Extensionality(r.arr, a.arr);
  }

  /** Multiplying by ones changes nothing. */
  lemma MulOnes(a: CpuArray)
    requires a.F32Array?
    ensures Mul(a, Ones(a.arr.shape, F32)) == Some(a)
  {
    var o := Ones(a.arr.shape, F32);
    var r := Mul(a, o).value;
    forall idx | InBounds(a.arr.shape, idx) ensures At(r.arr, idx) == At(a.arr, idx) {
      OffsetInRange(a.arr.shape, idx);
      assert At(o.arr, idx) == 1.0;
    }
    Extensionality(r.arr, a.arr);
  }

  /** Subtracting and then adding back the same array restores the original. */
  lemma SubThenAdd(a: CpuArray, b: CpuArray)
    requires a.F32Array? && b.F32Array? && a.arr.shape == b.arr.shape
    ensures Sub(a, b).Some? && ElementwiseOperands(Plus, Sub(a, b).value, b)
    ensures Add(Sub(a, b).value, b) == Some(a)
  {
    var d := Sub(a, b).value;
    var r := Add(d, b).value;
    assert r.arr.buf == a.arr.buf;
  }

  /** Multiplying and then dividing by the same non-zero array restores the original. */
  lemma MulThenDiv(a: CpuArray, b: CpuArray)
    requires a.F32Array? && b.F32Array? && a.arr.shape == b.arr.shape && NoZero(b.arr)
    ensures Mul(a, b).Some? && ElementwiseOperands(Over, Mul(a, b).value, b)
    ensures Div(Mul(a, b).value, b) == Some(a)
  {
    var p := Mul(a, b).value;
    var r := Div(p, b).value;
    forall n | 0 <= n < |r.arr.buf| ensures r.arr.buf[n] == a.arr.buf[n] {
      assert r.arr.buf[n] == (a.arr.buf[n] * b.arr.buf[n]) / b.arr.buf[n];
    }
    assert r.arr.buf == a.arr.buf;
  }

  /** The guard of a matmul arm as written: `l.ndim() == n && l.ndim() == n`,
      which tests the left operand's rank twice and the right one's never. */
  predicate MatmulArmAsWritten(lhs: CpuArray, rhs: CpuArray, n: nat)
  {
    lhs.F32Array? && rhs.F32Array? && |lhs.arr.shape| == n && |lhs.arr.shape| == n
  }

  /** Inputs on which the as-written arms do not panic: the arm taken must
      find a right operand that `into_dimensionality` accepts and whose
      length (rank 1) or row count (rank 2) `dot` accepts. */
  predicate MatmulAsWrittenDefined(lhs: CpuArray, rhs: CpuArray)
  {
    && (MatmulArmAsWritten(lhs, rhs, 1) ==> |rhs.arr.shape| == 1 && lhs.arr.shape[0] == rhs.arr.shape[0])
    && (MatmulArmAsWritten(lhs, rhs, 2) ==> GemmShapes(lhs.arr, rhs.arr))
  }

  /** `CpuArray::matmul` as written: a rank-1 left operand gives the dot
      product in shape [1], a rank-2 one the [M, N] matrix product; any
      other rank or dtype is an error. */
  function Matmul(lhs: CpuArray, rhs: CpuArray): (r: Result<CpuArray>)
    requires MatmulAsWrittenDefined(lhs, rhs)
    ensures r.Ok? <==> lhs.F32Array? && rhs.F32Array? && (|lhs.arr.shape| == 1 || |lhs.arr.shape| == 2)
    ensures r.Err? ==> r.msg == MatmulError
    ensures r.Ok? && |lhs.arr.shape| == 1 ==>
      r.value.F32Array? && r.value.arr.shape == [1] && r.value.arr.buf == [Dot(lhs.arr.buf, rhs.arr.buf)]
    ensures r.Ok? && |lhs.arr.shape| == 2 ==>
      r.value.F32Array? && r.value.arr.shape == [lhs.arr.shape[0], rhs.arr.shape[1]] &&
      r.value.arr == Gemm(lhs.arr, rhs.arr)
  {
    if MatmulArmAsWritten(lhs, rhs, 1) then
      Ok(F32Array(NdArray([1], [Dot(lhs.arr.buf, rhs.arr.buf)])))
    else if MatmulArmAsWritten(lhs, rhs, 2) then
      Ok(F32Array(Gemm(lhs.arr, rhs.arr)))
    else
      Err(MatmulError)
  }

  /** The as-written guard lets a rank-1 left operand through with a rank-2
      right operand, which then panics in `into_dimensionality::<Ix1>()`
      instead of reaching the error arm; the corrected matmul reports it. */
  lemma MatmulGuardIgnoresRhsRank()
    ensures MatmulArmAsWritten(F32Array(Full([1], 5.0)), F32Array(Full([1, 1], 3.0)), 1)
    ensures !MatmulAsWrittenDefined(F32Array(Full([1], 5.0)), F32Array(Full([1, 1], 3.0)))
    ensures MatmulFixed(F32Array(Full([1], 5.0)), F32Array(Full([1, 1], 3.0))) == Err(MatmulError)
  {
  }

  /** The as-written guard never looks at the right operand: any two f32
      right operands, whatever their ranks, meet it together or not at all. */
  lemma MatmulArmIgnoresRhsRank(lhs: CpuArray, rhs: CpuArray, other: CpuArray, n: nat)
    requires rhs.F32Array? && other.F32Array?
    ensures MatmulArmAsWritten(lhs, rhs, n) == MatmulArmAsWritten(lhs, other, n)
  {
  }

  /** The guard of a matmul arm as intended: both operands f32 of rank n. */
  predicate MatmulArm(lhs: CpuArray, rhs: CpuArray, n: nat)
  {
    lhs.F32Array? && rhs.F32Array? && |lhs.arr.shape| == n && |rhs.arr.shape| == n
  }

  /** What `dot` needs once both ranks are checked: matching lengths for
      vectors, matching inner dimensions for matrices. */
  predicate MatmulInnerDimsAgree(lhs: CpuArray, rhs: CpuArray)
  {
    && (MatmulArm(lhs, rhs, 1) ==> lhs.arr.shape[0] == rhs.arr.shape[0])
    && (MatmulArm(lhs, rhs, 2) ==> GemmShapes(lhs.arr, rhs.arr))
  }

  /** matmul with the rank guard testing both operands: a result exactly
      when both are f32 of one rank, 1 or 2. */
  function MatmulFixed(lhs: CpuArray, rhs: CpuArray): (r: Result<CpuArray>)
    requires MatmulInnerDimsAgree(lhs, rhs)
    ensures r.Ok? <==>
      lhs.F32Array? && rhs.F32Array? && |lhs.arr.shape| == |rhs.arr.shape| &&
      (|lhs.arr.shape| == 1 || |lhs.arr.shape| == 2)
    ensures r.Err? ==> r.msg == MatmulError
    ensures r.Ok? && |lhs.arr.shape| == 1 ==>
      r.value.F32Array? && r.value.arr.shape == [1] && r.value.arr.buf == [Dot(lhs.arr.buf, rhs.arr.buf)]
    ensures r.Ok? && |lhs.arr.shape| == 2 ==>
      r.value.F32Array? && r.value.arr.shape == [lhs.arr.shape[0], rhs.arr.shape[1]] &&
      r.value.arr == Gemm(lhs.arr, rhs.arr)
  {
    if MatmulArm(lhs, rhs, 1) then
      Ok(F32Array(NdArray([1], [Dot(lhs.arr.buf, rhs.arr.buf)])))
    else if MatmulArm(lhs, rhs, 2) then
      Ok(F32Array(Gemm(lhs.arr, rhs.arr)))
    else
      Err(MatmulError)
  }

  /** Wherever the as-written matmul does not panic, the corrected one is
      defined and gives the same answer. */
  lemma MatmulFixedAgrees(lhs: CpuArray, rhs: CpuArray)
    requires MatmulAsWrittenDefined(lhs, rhs)
    ensures MatmulInnerDimsAgree(lhs, rhs)
    ensures MatmulFixed(lhs, rhs) == Matmul(lhs, rhs)
  {
  }

  /** The 1-D test: [5] times [3] is [15]. */
  lemma MatmulVectorExample()
    ensures Matmul(F32Array(Full([1], 5.0)), F32Array(Full([1], 3.0))) == Ok(F32Array(Full([1], 15.0)))
  {
    var a, b := Full([1], 5.0), Full([1], 3.0);
    assert a.buf == [5.0] && b.buf == [3.0];
    var r := Matmul(F32Array(a), F32Array(b)).value;
    assert r.arr.buf == [15.0];
    Extensionality(r.arr, Full([1], 15.0));
  }

  /** The 2-D test: a 2x3 matrix of fives times a 3x5 matrix of threes is a
      2x5 matrix of 45s. */
  lemma MatmulMatrixExample()
    ensures Matmul(F32Array(Full([2, 3], 5.0)), F32Array(Full([3, 5], 3.0))) == Ok(F32Array(Full([2, 5], 45.0)))
  {
    GemmFull(2, 3, 5, 5.0, 3.0);
    assert Scale(3, 5.0 * 3.0) == 45.0;
  }

  /** A rank-1 matmul of two constant vectors of one length n is [n * x * y],
      written as n repeated additions of x * y. */
  lemma MatmulVectorConst(n: nat, x: real, y: real)
    ensures MatmulAsWrittenDefined(F32Array(Full([n], x)), F32Array(Full([n], y)))
    ensures Matmul(F32Array(Full([n], x)), F32Array(Full([n], y))) ==
      Ok(F32Array(NdArray([1], [Scale(n, x * y)])))
  {
    var a, b := Full([n], x), Full([n], y);
    assert [n][1..] == [] && Product([n]) == n;
    forall m | 0 <= m < n ensures a.buf[m] == x && b.buf[m] == y {
      assert InBounds([n], [m]) && Offset([n], [m]) == m;
      assert At(a, [m]) == x && At(b, [m]) == y;
    }
    DotConst(a.buf, b.buf, x, y);
  }

  /** Multiplying an f32 matrix by the identity of its column count gives
      the matrix back. */
  lemma MatmulIdentity(a: CpuArray)
    requires a.F32Array? && |a.arr.shape| == 2
    ensures MatmulAsWrittenDefined(a, F32Array(Identity(a.arr.shape[1])))
    ensures Matmul(a, F32Array(Identity(a.arr.shape[1]))) == Ok(a)
  {
    GemmIdentity(a.arr);
  }

  /** Multiplying the identity of an f32 matrix's row count by the matrix
      gives the matrix back. */
  lemma MatmulIdentityLeft(b: CpuArray)
    requires b.F32Array? && |b.arr.shape| == 2
    ensures MatmulAsWrittenDefined(F32Array(Identity(b.arr.shape[0])), b)
    ensures Matmul(F32Array(Identity(b.arr.shape[0])), b) == Ok(b)
  {
    GemmIdentityLeft(b.arr);
  }

  /** `x.max(0.0)`. */
  function ReluScalar(x: real): (r: real)
    ensures r >= 0.0 && r >= x
    ensures r == x || r == 0.0
  {
    if x > 0.0 then x else 0.0
  }

  /** `CpuArray::relu`: f32 keeps its shape, each element the larger of it
      and 0; f64 is an error. */
  function Relu(a: CpuArray): (r: Result<CpuArray>)
    ensures r.Ok? <==> a.F32Array?
    ensures r.Err? ==> r.msg == ReluError
    ensures r.Ok? ==> r.value.F32Array? && r.value.arr.shape == a.arr.shape
    ensures r.Ok? ==> forall n :: 0 <= n < |r.value.arr.buf| ==>
      var x, y := a.arr.buf[n], r.value.arr.buf[n];
      y >= 0.0 && y >= x && (y == x || y == 0.0)
  {
    match a
    case F32Array(arr) => Ok(F32Array(Map(arr, ReluScalar)))
    case _ => Err(ReluError)
  }

  /** relu is idempotent. */
  lemma ReluIdempotent(a: CpuArray)
    requires a.F32Array?
    ensures Relu(a).Ok? && Relu(Relu(a).value) == Relu(a)
  {
    var once := Relu(a).value;
    var twice := Relu(once).value;
    assert twice.arr.buf == once.arr.buf;
  }

  /** `CpuArray::exp`: f32 keeps its shape, each element mapped through the
      scalar exponential `expf`; f64 is an error. */
  function Exp(a: CpuArray, expf: real -> real): (r: Result<CpuArray>)
    ensures r.Ok? <==> a.F32Array?
    ensures r.Err? ==> r.msg == ExpError
    ensures r.Ok? ==> r.value.F32Array? && r.value.arr.shape == a.arr.shape
    ensures r.Ok? ==> forall n :: 0 <= n < |r.value.arr.buf| ==> r.value.arr.buf[n] == expf(a.arr.buf[n])
  {
    match a
    case F32Array(arr) => Ok(F32Array(Map(arr, expf)))
    case _ => Err(ExpError)
  }

  /** With exp(0) = 1, the exponential of zeros is ones. */
  lemma ExpZeros(shape: seq<nat>, expf: real -> real)
    requires expf(0.0) == 1.0
    ensures Exp(Zeros(shape, F32), expf) == Ok(Ones(shape, F32))
  {
    var z := Zeros(shape, F32);
    var r := Exp(z, expf).value;
    var o := Ones(shape, F32);
    forall idx | InBounds(shape, idx) ensures At(r.arr, idx) == At(o.arr, idx) {
      MapAt(z.arr, expf, idx);
    }
    Extensionality(r.arr, o.arr);
  }

  /** `CpuArray::transpose`: f32 gets the reversed shape, the element at idx
      being the original one at the reversed idx; f64 is an error. */
  function Transpose(a: CpuArray): (r: Result<CpuArray>)
    ensures r.Ok? <==> a.F32Array?
    ensures r.Err? ==> r.msg == TransposeError
    ensures r.Ok? ==> r.value.F32Array? && r.value.arr.shape == Reverse(a.arr.shape)
    ensures r.Ok? ==> forall idx :: InBounds(r.value.arr.shape, idx) ==>
      At(r.value.arr, idx) == At(a.arr, Reverse(idx))
  {
    match a
    case F32Array(arr) => Ok(F32Array(ReverseAxes(arr)))
    case _ => Err(TransposeError)
  }

  /** Transposing twice restores shape and contents. */
  lemma TransposeTwice(a: CpuArray)
    requires a.F32Array?
    ensures Transpose(a).Ok? && Transpose(Transpose(a).value) == Ok(a)
  {
    ReverseAxesInvolution(a.arr);
  }

  /** `CpuArray::get`: the element at `index` exactly when the array is f32
      and the index has one in-range component per axis. */
  function Get(a: CpuArray, index: seq<nat>): (r: Option<real>)
    ensures r.Some? <==> a.F32Array? && InBounds(a.arr.shape, index)
    ensures r.Some? ==> r.value == At(a.arr, index)
  {
    match a
    case F32Array(arr) =>
      if InBounds(arr.shape, index) then
        OffsetInRange(arr.shape, index);
        Some(arr.buf[Offset(arr.shape, index)])
      else
        None
    case _ => None
  }

  /** `CpuArray::shape`: a shape whose element count is the buffer's length. */
  function Shape(a: CpuArray): (s: seq<nat>)
    ensures Product(s) == |a.arr.buf| && s == a.arr.shape
  {
    a.arr.shape
  }

  /** Every f32 element fed to relu shows up clipped at 0: the test's
      -1, 0, 5 arrays give 0, 0, 5 at index [1, 1]. */
  lemma ReluExample()
    ensures Get(Relu(Fill(-1.0, [2, 3], F32)).value, [1, 1]) == Some(0.0)
    ensures Get(Relu(Zeros([2, 3], F32)).value, [1, 1]) == Some(0.0)
    ensures Get(Relu(Fill(5.0, [2, 3], F32)).value, [1, 1]) == Some(5.0)
  {
    var idx := [1, 1];
    assert InBounds([2, 3], idx);
    MapAt(Fill(-1.0, [2, 3], F32).arr, ReluScalar, idx);
    MapAt(Zeros([2, 3], F32).arr, ReluScalar, idx);
    MapAt(Fill(5.0, [2, 3], F32).arr, ReluScalar, idx);
  }

  /** What `sum_axis` needs of the axes the reduction will use: after
      sorting and shifting, each names an axis of the partially reduced array. */
  predicate SumDefined(a: CpuArray, dims: seq<nat>)
  {
    a.F32Array? && dims != [] ==> AxesFit(|a.arr.shape|, ShiftAxes(SortAxes(dims)))
  }

  /** The loop of `CpuArray::sum`: `sum_axis` along each shifted axis in
      turn, reassigning the accumulator. */
  method ReduceAxes(arr: ArrayD, shifted: seq<nat>) returns (summed: ArrayD)
    requires AxesFit(|arr.shape|, shifted)
    ensures summed == SumAxes(arr, shifted)
    ensures summed.shape == RemoveEach(arr.shape, shifted)
  {
    summed := arr;
    var i := 0;
    assert shifted[..0] == [] && AxesFit(|arr.shape|, []);
    while i < |shifted|
      invariant 0 <= i <= |shifted|
      invariant summed == SumAxes(arr, shifted[..i])
    {
      ReduceStep(arr, shifted, i);
      summed := SumAxis(summed, shifted[i]);
      i := i + 1;
    }
    assert shifted[..i] == shifted;
  }

  /** One turn of the loop: reducing the first i + 1 shifted axes is
      reducing the first i and then summing along axis shifted[i]. */
  lemma ReduceStep(arr: ArrayD, shifted: seq<nat>, i: nat)
    requires AxesFit(|arr.shape|, shifted) && i < |shifted|
    ensures AxesFit(|arr.shape|, shifted[..i]) && AxesFit(|arr.shape|, shifted[..i + 1])
    ensures shifted[i] < |SumAxes(arr, shifted[..i]).shape|
    ensures SumAxes(arr, shifted[..i + 1]) == SumAxis(SumAxes(arr, shifted[..i]), shifted[i])
  {
    var prefix, axis := shifted[..i], shifted[i];
    assert shifted[..i + 1] == prefix + [axis];
    AxesFitPrefix(|arr.shape|, shifted, i + 1);
    SumAxesSnoc(arr, prefix, axis);
  }

  /** `CpuArray::sum`: with no axes, shape [1] holding the total; otherwise
      sort the axes, shift the i-th down by i (saturating), and reduce along
      each shifted axis in turn. For distinct in-range axes the result has
      exactly those axes deleted from the shape. */
  method Sum(a: CpuArray, dims: seq<nat>) returns (r: Result<CpuArray>)
    requires SumDefined(a, dims)
    ensures a.F64Array? ==> r == Err(SumError)
    ensures a.F32Array? && dims == [] ==> r == Ok(F32Array(NdArray([1], [Total(a.arr)])))
    ensures a.F32Array? && dims != [] ==> r == Ok(F32Array(SumAxes(a.arr, ShiftAxes(SortAxes(dims)))))
    ensures a.F32Array? && dims != [] ==> |r.value.arr.shape| == |a.arr.shape| - |dims|
    ensures a.F32Array? && dims != [] && Distinct(dims) && AllBelow(dims, |a.arr.shape|) ==>
      r.value.arr.shape == DeleteAxes(a.arr.shape, dims)
  {
    match a
    case F64Array(_) =>
      r := Err(SumError);
    case F32Array(arr) =>
      if dims == [] {
        r := Ok(F32Array(NdArray([1], [Total(arr)])));
      } else {
        var axes := SortAxes(dims);
        var shifted := ShiftAxes(axes);
        var summed := ReduceAxes(arr, shifted);
        assert |summed.shape| == |arr.shape| - |dims|;
        if Distinct(dims) && AllBelow(dims, |arr.shape|) {
          ShiftedRemovalDeletes(arr.shape, dims);
        }
        r := Ok(F32Array(summed));
      }
  }

  /** Distinct in-range axes always meet sum's requirement. */
  lemma SumDefinedForDistinctAxes(a: CpuArray, dims: seq<nat>)
    requires Distinct(dims) && AllBelow(dims, |a.arr.shape|)
    ensures SumDefined(a, dims)
  {
    ShiftedRemovalDeletes(a.arr.shape, dims);
  }

  /** The full-reduction test: a 2x3 array of fives totals 30. */
  lemma SumAllExample(shape: seq<nat>, v: real)
    requires shape == [2, 3] && v == 5.0
    ensures Total(Fill(v, shape, F32).arr) == 30.0
  {
    TotalFull(shape, v);
    assert shape[1..] == [3] && shape[1..][1..] == [];
    assert Product(shape[1..]) == 3;
    assert Product(shape) == 6;
    assert Scale(6, 5.0) == 30.0;
  }

  /** The test's axes [2, 1], sorted and shifted, are [1, 1]. */
  lemma ShiftedTestAxes()
    ensures ShiftAxes(SortAxes([2, 1])) == [1, 1]
  {
    assert SortAxes([1]) == [1];
    assert SortAxes([2, 1]) == Insert(2, [1]) == [1, 2];
  }

  /** The partial-reduction test: a 2x3x4 array of fives summed over axes
      [2, 1] has shape [2] and holds 60 at index [0]. */
  lemma SumExample(shape: seq<nat>, v: real)
    requires shape == [2, 3, 4] && v == 5.0
    ensures SumDefined(Fill(v, shape, F32), [2, 1])
    ensures var r := SumAxes(Full(shape, v), ShiftAxes(SortAxes([2, 1])));
      r.shape == [2] && At(r, [0]) == 60.0
  {
    ShiftedTestAxes();
    var a := Full(shape, v);
    var mid := RemoveAt(shape, 1);
    var w := Scale(shape[1], v);
    SumAxisFull(shape, v, 1);
    var once := SumAxis(a, 1);
    assert once == Full(mid, w);
    SumAxisFull(mid, w, 1);
    var twice := SumAxis(once, 1);
    var out := RemoveAt(mid, 1);
    assert twice == Full(out, Scale(mid[1], w));
    SumAxesTwo(a, 1, 1);
    assert out == [2] by {
      assert |out| == 1 && out[0] == 2;
    }
    assert w == 15.0 by {
      assert shape[1] == 3;
      assert Scale(3, 5.0) == 15.0;
    }
    assert Scale(mid[1], w) == 60.0 by {
      assert mid[1] == 4;
      assert Scale(4, 15.0) == 60.0;
    }
    assert InBounds(out, [0]);
  }

  /** A mutable place holding a CPU array: the receiver of
      `copy_from(&mut self, other)`. */
  class CpuArrayPlace {
    var value: CpuArray

    constructor (v: CpuArray)
      ensures value == v
    {
      value := v;
    }

    /** `copy_from`: when both arrays are f32, this array's elements are
        overwritten with `other`'s (`assign`); any other pairing leaves it
        as it was. Neither the dtype nor the shape ever changes. */
    method CopyFrom(other: CpuArray)
      requires value.F32Array? && other.F32Array? ==> value.arr.shape == other.arr.shape
      modifies this
      ensures value.DTypeOf() == old(value.DTypeOf()) && value.arr.shape == old(value.arr.shape)
      ensures old(value).F32Array? && other.F32Array? ==> value.arr.buf == other.arr.buf
      ensures !(old(value).F32Array? && other.F32Array?) ==> value == old(value)
    {
      match (value, other)
      case (F32Array(dst), F32Array(src)) =>
        value := F32Array(NdArray(dst.shape, src.buf));
      case _ =>
    }
  }
}
