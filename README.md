# Mantis CPU arrays and backend dispatch, in Dafny

Mantis is a small n-dimensional array library written in Rust. This project
models its two core components and proves properties of the model:

- **`CpuArray`** (`src/array.rs`) is an n-dimensional array tagged with its
  element type, `F32Array` or `F64Array`. Its kernels are the constructors
  `zeros`, `ones` and `fill`; elementwise `add`, `sub`, `mul` and `div`;
  `matmul`, a rank-1 dot product or a rank-2 matrix product; `relu`, `exp`
  and `transpose`; the multi-axis `sum` reduction; bounds-checked `get`;
  `shape`; and the in-place `copy_from`. Every kernel matches on the tag.
  In `add`, `sub`, `mul`, `div`, `matmul`, `relu`, `exp`, `sum`,
  `transpose` and `get`, only the f32 arm computes, and the f64 arm answers
  `None` or an error message. `zeros`, `ones`, `fill` and `shape` handle
  both dtypes. `copy_from` does nothing unless both arrays are f32.
- **`BackendData`** (`src/backend.rs`) is a tagged variant `Cpu(CpuArray) |
  Metal`. A CPU×CPU call is forwarded to the CPU kernel. Any pairing with
  `Metal` gives `None` or does nothing. `zeros` and `ones` keep the
  caller's backend.

How the model is built:

- An array is `NdArray(shape, buf)`: a shape `seq<nat>` and a row-major
  buffer, with `|buf| == Product(shape)` (`ndarray.dfy`).
- `Offset` maps an index to its buffer position, and `Unravel` is its
  inverse.
- `Full`, `Gemm`, `Identity`, `ReverseAxes` and `SumAxis` fill their result
  through `Tabulate`. Their contracts, or the lemmas beside them, are stated
  index by index with the total accessor `At`.
- The elementwise kernels (`Zip`, and `Map` for `mapv`) are stated position
  by position on the buffer. `MapAt` carries the `Map` facts over to `At`.
  The rank-1 `matmul` arm and `sum` with no axes build their one-element
  array directly.
- Elements are mathematical reals. The test values 15, 45, 30 and 60 are
  therefore exact.
- Files:
  - `axes.dfy` holds the axis arithmetic of `sum`: sorting, shifting, and
    removing axes one at a time.
  - `cpu_array.dfy` holds the `CpuArray` kernels.
  - `backend.dfy` holds the dispatcher.
  - `wrappers.dfy` holds `Option` and `Result`.

The model's main result is about `sum`. The reduction sorts the requested
axes, subtracts each axis's position with `saturating_sub`, and calls
`sum_axis` once per shifted axis. `Axes.ShiftedRemovalDeletes` proves that,
for distinct in-range axes given in any order:

- the subtraction never saturates;
- every shifted axis names an axis of the partially reduced array;
- the removals together delete exactly the listed axes.

`CpuArrays.ReduceAxes` is the imperative `for` loop over the shifted axes.
It is proved against the specification function `NdArrays.SumAxes`.
`CpuArrays.Sum` calls it, and its contract carries the shape result.

A constant repeated `n` times adds up to `NdArrays.Scale(n, v)`, the sum
`v + … + v`. `NdArrays.ScaleIsProduct` proves that this equals `n·v`. The
contracts about constant arrays are stated with `Scale`, which keeps the
solver away from nonlinear real arithmetic.

Two facts about the code that the model keeps:

- `sum` with every axis listed returns a rank-0 array, because ndarray's
  `sum_axis` drops the axis it reduces.
- `transpose` on f64 returns the exp message "Cannot exp for the provided
  data types" (src/array.rs:128), which the model keeps as
  `CpuArrays.TransposeError`.

## Model

| member | source | states |
|---|---|---|
| `CpuArrays.Zeros` | src/array.rs:17-22 | the variant is the one `dtype` selects, the shape is the requested shape, and every in-bounds element is 0 |
| `CpuArrays.Ones` | src/array.rs:24-29 | the variant is the one `dtype` selects, the shape is the requested shape, and every in-bounds element is 1 |
| `CpuArrays.Fill` | src/array.rs:31-36 | the variant is the one `dtype` selects, the shape is the requested shape, and every in-bounds element is `value` |
| `NdArrays.Zip` | src/array.rs:38-70 | `a.add(b)`, `sub`, `mul` and `div` on arrays of one shape: the shape is kept, and each buffer position holds the operation applied to the two elements at that position |
| `CpuArrays.Elementwise` | src/array.rs:38-70 | the shared shape of the four binary kernels: a result exactly when both operands are f32, an f32 result of the operands' shape, each element the operation applied to the corresponding elements |
| `CpuArrays.Add` | src/array.rs:38-45 | `Some` iff both operands are f32; the result keeps the operands' shape; each element is the sum of the corresponding elements |
| `CpuArrays.Sub` | src/array.rs:47-54 | `Some` iff both operands are f32; the result keeps the operands' shape; each element is the difference of the corresponding elements |
| `CpuArrays.Mul` | src/array.rs:55-62 | `Some` iff both operands are f32; the result keeps the operands' shape; each element is the product of the corresponding elements |
| `CpuArrays.Div` | src/array.rs:63-70 | `Some` iff both operands are f32; the result keeps the operands' shape; each result element times the divisor's element gives back the dividend's element |
| `CpuArrays.AddZeros` | src/array.rs:38-45 | adding an all-zero array of the same shape returns the array unchanged |
| `CpuArrays.MulOnes` | src/array.rs:55-62 | multiplying by an all-one array of the same shape returns the array unchanged |
| `CpuArrays.SubThenAdd` | src/array.rs:38-54 | subtracting and then adding back the same array is the identity |
| `CpuArrays.MulThenDiv` | src/array.rs:55-70 | multiplying and then dividing by the same zero-free array is the identity |
| `CpuArrays.Matmul` | src/array.rs:72-85 | as written: `Ok` iff both operands are f32 and the left rank is 1 or 2; otherwise the MatMul error message; rank 1 gives shape [1] holding the dot product; rank 2 gives shape [M, N] holding the matrix product |
| `NdArrays.Dot` | src/array.rs:75 | `Array1::dot` on vectors of one length: the total of the elementwise products |
| `CpuArrays.MatmulArmIgnoresRhsRank` | src/array.rs:74-79 | the as-written guard `l.ndim() == n && l.ndim() == n` gives the same answer for any two f32 right operands, whatever their ranks |
| `CpuArrays.MatmulGuardIgnoresRhsRank` | src/array.rs:74 | a rank-1 left operand passes the first guard alongside a rank-2 right operand, where `into_dimensionality` fails; the corrected matmul returns the error instead |
| `CpuArrays.MatmulFixed` | src/array.rs:72-85 | with both ranks tested: `Ok` iff both operands are f32 and of one rank, 1 or 2; the same shapes and contents as the as-written arms; otherwise the MatMul error |
| `CpuArrays.MatmulFixedAgrees` | src/array.rs:72-85 | wherever the as-written matmul does not panic, the corrected one is defined and returns the same result |
| `CpuArrays.MatmulVectorConst` | src/array.rs:75-77 | the rank-1 arm on two constant vectors of one length n, of x's and of y's, gives shape [1] holding `Scale(n, x·y)`, that is n·x·y |
| `CpuArrays.MatmulIdentity` | src/array.rs:79-82 | an f32 matrix times the identity of its column count is the matrix itself |
| `CpuArrays.MatmulIdentityLeft` | src/array.rs:79-82 | the identity of an f32 matrix's row count times the matrix is the matrix itself |
| `CpuArrays.MatmulVectorExample` | src/array.rs:164-169 | [5] matmul [3] is the array [15] |
| `CpuArrays.MatmulMatrixExample` | src/array.rs:172-178 | a 2x3 array of fives matmul a 3x5 array of threes is the 2x5 array of 45s |
| `NdArrays.Map` | src/array.rs:89-96 | `mapv(f)`: the shape is kept, and each buffer position holds `f` of the element at that position |
| `CpuArrays.ReluScalar` | src/array.rs:89 | `x.max(0.0)`: at least 0 and at least `x`, and equal to one of them |
| `CpuArrays.Relu` | src/array.rs:87-92 | `Ok` iff f32, with the shape kept; each element is at least 0 and at least its input, and equals either its input or 0; f64 gives the ReLU error |
| `CpuArrays.ReluIdempotent` | src/array.rs:87-92 | applying relu twice gives the same result as applying it once |
| `CpuArrays.ReluExample` | src/array.rs:181-189 | arrays of -1, 0 and 5 read 0, 0 and 5 at index [1, 1] after relu |
| `CpuArrays.Exp` | src/array.rs:94-99 | `Ok` iff f32, with the shape kept; each element is the scalar exponential of its input; f64 gives the exp error |
| `CpuArrays.ExpZeros` | src/array.rs:191-200 | when the scalar exponential maps 0 to 1, exp of zeros is ones of the same shape |
| `CpuArrays.Sum` | src/array.rs:101-123 | f64 gives the sum error; no axes gives shape [1] holding the total; otherwise the sorted, shifted axes are reduced one by one, the rank drops by the number of axes, and for distinct in-range axes exactly those axes are deleted from the shape |
| `CpuArrays.SumDefinedForDistinctAxes` | src/array.rs:106-117 | distinct in-range axes always meet what `sum_axis` needs at each step |
| `CpuArrays.SumAllExample` | src/array.rs:203-208 | a 2x3 array of fives totals 30 |
| `CpuArrays.ReduceAxes` | src/array.rs:115-117 | the loop calls `sum_axis` once per shifted axis, in order; the result is `SumAxes` of the input, and its shape is the input shape with each shifted axis removed in turn |
| `CpuArrays.ShiftedTestAxes` | src/array.rs:106-113 | the axes [2, 1] of the test sort to [1, 2] and shift to [1, 1] |
| `CpuArrays.SumExample` | src/array.rs:210-216 | axes [2, 1] meet what `sum` needs on a 2x3x4 array of fives, and the reduction gives shape [2] and reads 60 at [0] |
| `CpuArrays.Transpose` | src/array.rs:125-130 | `Ok` iff f32; the shape is reversed and the element at `idx` is the input's element at the reversed `idx`; f64 gives the error message the source reuses from exp |
| `CpuArrays.TransposeTwice` | src/array.rs:125-130 | transposing twice restores both shape and contents |
| `CpuArrays.Get` | src/array.rs:132-141 | `Some` iff the array is f32 and the index has one in-range component per axis; the value is the element at that index |
| `CpuArrays.Shape` | src/array.rs:150-155 | the array's own shape, whose product is the buffer's length, for either dtype |
| `CpuArrays.CpuArrayPlace.CopyFrom` | src/array.rs:143-148 | dtype and shape never change; for f32 into f32, the buffer becomes the other array's buffer; any other pairing leaves the place unchanged |
| `NdArrays.Full` | src/array.rs:19-34 | `Array::zeros`, `ones` and `from_elem`: the requested shape, every in-bounds element the given value |
| `NdArrays.Unravel` | src/array.rs:19 | every buffer position has an in-bounds row-major index that maps back to it |
| `NdArrays.OffsetInjective` | src/array.rs:134 | distinct in-bounds indices address distinct buffer positions |
| `NdArrays.Extensionality` | src/array.rs:134 | two arrays of one shape that agree at every in-bounds index are equal |
| `NdArrays.Gemm` | src/array.rs:80 | the [M, K] by [K, N] product has shape [M, N], and element (i, j) is the sum over k of a[i, k]·b[k, j] |
| `NdArrays.GemmFull` | src/array.rs:172-178 | the product of an [M, K] matrix of x's and a [K, N] matrix of y's is the [M, N] matrix whose every element is `Scale(K, x·y)`, that is K·x·y |
| `NdArrays.IdentityAt` | src/array.rs:80 | the k-by-k identity holds 1 at (i, i) and 0 at every other in-bounds (i, j) |
| `NdArrays.RowColIdentity` | src/array.rs:80 | against a column that is 1 at row j and 0 elsewhere, the first n terms of row i of `a` sum to a[i, j] if j < n, and to 0 otherwise |
| `NdArrays.RowColIdentityLeft` | src/array.rs:80 | a row of a unit matrix that is 1 at column i and 0 elsewhere, against `b`, sums over its first n terms to b[i, j] if i < n, and to 0 otherwise |
| `NdArrays.GemmIdentity` | src/array.rs:80 | `a · I == a` for every matrix `a` and the identity of its column count |
| `NdArrays.GemmIdentityLeft` | src/array.rs:80 | `I · b == b` for every matrix `b` and the identity of its row count |
| `NdArrays.ScaleIsProduct` | src/array.rs:103 | adding `v` to itself `n` times gives `n·v` |
| `NdArrays.ReverseAxes` | src/array.rs:127 | `reversed_axes`: the reversed shape, with the element at `idx` taken from the reversed `idx` |
| `NdArrays.ReverseAxesInvolution` | src/array.rs:127 | reversing the axes twice gives back the array |
| `NdArrays.SumAxis` | src/array.rs:116 | `sum_axis(k)`: the shape loses axis k |
| `NdArrays.SumAxisAt` | src/array.rs:116 | each element of `sum_axis(k)` is the sum of the fibre along axis k through it |
| `NdArrays.SumAxisFull` | src/array.rs:116 | reducing a constant array along an axis of extent n gives the constant array `Scale(n, v)`, that is n·v |
| `NdArrays.TotalAdd` | src/array.rs:103 | `arr.sum()` of `&a + &b` is the sum of the two totals |
| `NdArrays.TotalFull` | src/array.rs:103 | the total of a constant array is `Scale` of its element count and the value, that is the count times the value |
| `NdArrays.SumAxes` | src/array.rs:115-117 | reducing the shifted axes one at a time yields the shape with each of them removed in turn |
| `NdArrays.SumAxesSnoc` | src/array.rs:115-117 | one more loop step: reducing `shifted + [x]` is reducing `shifted` and then summing along `x`, which is in range |
| `NdArrays.SumAxesTwo` | src/array.rs:115-117 | two loop steps: reducing [x, y] is `sum_axis(x)` followed by `sum_axis(y)` |
| `Axes.SaturatingSub` | src/array.rs:112 | `saturating_sub`: never above `a`; `a - b` when `b <= a`, and 0 otherwise |
| `Axes.ShiftAxes` | src/array.rs:111-113 | the same length as the input; entry i is axes[i] minus i, saturating at 0 |
| `Axes.SortAxes` | src/array.rs:108 | `axes.sort()`: the result is sorted and a permutation of the input, and strictly increasing when the input has no duplicates |
| `Axes.InsertSorted` | src/array.rs:108 | inserting into a sorted list keeps it sorted |
| `Axes.InsertStrictlySorted` | src/array.rs:108 | inserting a new element into a strictly increasing list keeps it strictly increasing |
| `Axes.DeleteLast` | src/array.rs:115-117 | deleting one more axis `x`, above all axes already deleted, removes the entry at position x minus the number of front axes in the partially deleted shape |
| `Axes.RemoveEachDeletes` | src/array.rs:111-117 | for strictly increasing in-range axes, removing the shifted axes one by one deletes exactly those axes |
| `Axes.ShiftedRemovalDeletes` | src/array.rs:106-117 | for distinct in-range axes in any order, the saturating shift never saturates, each shifted axis is within the rank of the partially reduced shape, and the removals delete exactly the listed axes |
| `Backends.Zeros` | src/backend.rs:22-27 | `Cpu` in gives `Cpu` out with the requested dtype and shape, all zeros; `Metal` gives `Metal` |
| `Backends.Ones` | src/backend.rs:29-34 | as written: `Cpu` in gives `Cpu` out with the requested dtype and shape, but every element is 0; `Metal` gives `Metal` |
| `Backends.OnesFixed` | src/backend.rs:29-34 | as intended: `Cpu` in gives `Cpu` out with the requested dtype and shape, every element 1 |
| `Backends.OnesGivesZeros` | src/backend.rs:31 | on a CPU receiver, for every shape and every in-bounds index, the as-written `ones` reads 0 where the corrected one reads 1 |
| `Backends.Dispatch` | src/backend.rs:36-66 | `Some` iff both operands are `Cpu`, and then it is `Cpu` holding the unwrapped kernel result, f32 with the operands' shape; any pairing with `Metal` gives `None` |
| `Backends.Add` | src/backend.rs:36-42 | `Some` iff both are `Cpu`; then it is `Cpu` of `CpuArray::add`'s result, keeping the shape |
| `Backends.Sub` | src/backend.rs:44-50 | `Some` iff both are `Cpu`; then it is `Cpu` of `CpuArray::sub`'s result, keeping the shape |
| `Backends.Mul` | src/backend.rs:52-58 | `Some` iff both are `Cpu`; then it is `Cpu` of `CpuArray::mul`'s result, keeping the shape |
| `Backends.Div` | src/backend.rs:60-66 | `Some` iff both are `Cpu`; then it is `Cpu` of `CpuArray::div`'s result, keeping the shape |
| `Backends.Get` | src/backend.rs:68-74 | on `Cpu(arr)` it is `arr.get(index)`, so `Some` exactly for an f32 array and an in-range index; on `Metal` it is `None` |
| `Backends.BackendDataPlace.CopyFrom` | src/backend.rs:76-81 | the backend, dtype and shape never change; `Cpu` f32 into `Cpu` f32 copies the buffer as `CpuArray::copy_from` does; any other pairing leaves the data unchanged |

## Left out

- Floating point: elements are exact reals. f32 rounding, NaN, infinities and the `value as f32` narrowing in `fill` are not modelled.
- `CpuArrays.Exp`: the scalar exponential is the parameter `expf`, so the test's values 0.36787945 and 148.41316 are not reproduced. Only `exp(0) = 1` is used, as an assumption of `CpuArrays.ExpZeros`.
- `CpuArrays.Div`: requires a divisor with no zero element, because a division by zero gives an IEEE infinity or NaN, which the model does not represent.
- `Backends.Div`: requires, through `DispatchOperands`, a divisor with no zero element on a CPU pairing, for the same IEEE reason as `CpuArrays.Div`.
- Integer width: shapes and indices are `usize` in the source and unbounded naturals in the model. ndarray's `Array::zeros` and `Array::from_elem` panic when a shape's element count overflows `isize` (src/array.rs:19-34). `CpuArrays.Zeros`, `CpuArrays.Ones` and `CpuArrays.Fill` accept any shape, so that panic is not modelled.
- Broadcasting in ndarray's arithmetic and in `assign` is not modelled. The binary kernels and `copy_from` require equal shapes instead.
- Panics become preconditions:
  - `unwrap` of the kernel's result in the backend's arithmetic requires f32 CPU operands;
  - `into_dimensionality` and `dot` in `matmul` require matching ranks and inner dimensions;
  - `sum_axis` in `sum` requires that every shifted axis be in range.
- `CpuArrays.Get`: the generic `NumCast` conversion is not modelled; the element itself is returned.
- `CpuArrays.Sum`: `axes.sort()` sorts a vector in place; the model sorts functionally with `Axes.SortAxes`, whose result is proved sorted and a permutation of the input.
- The `Data` trait and the `Tensor` type are not part of this model, and neither is src/operations.rs, an enum of operands with no behaviour.
- The Metal backend has no kernels; it is only a tag.
- The `Backend` enum (src/backend.rs:9-13) is declared and never matched on, so it is not modelled.
- The backend dispatcher has no `matmul`, `relu`, `exp`, `sum`, `transpose` or `shape`, so the model has none either.

## Findings

| source | as written | input that shows it | evidently intended | confidence | as-written member | corrected member |
|---|---|---|---|---|---|---|
| src/backend.rs:29-34 | `ones` on a CPU receiver builds its array with `CpuArray::zeros` | `ones` on `Cpu(_)` with shape [1] and F32, then `get([0])`, gives 0 | every element is 1, as `CpuArray::ones` gives | not executed | `Backends.OnesGivesZeros` | `Backends.OnesFixed` |
| src/array.rs:74-79 | both matmul guards test `l.ndim()` twice and never the right operand's rank | left f32 of shape [1] and right f32 of shape [1, 1]: the rank-1 arm is taken and `into_dimensionality::<Ix1>()` panics on the right operand | the error `Err("Cannot MatMul for the provided data types")` for mismatched ranks | not executed | `CpuArrays.MatmulGuardIgnoresRhsRank` | `CpuArrays.MatmulFixed` |
