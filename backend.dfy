/** The backend dispatcher of src/backend.rs: a tagged variant over backend
    arrays. A CPU pairing is forwarded to the CPU array kernels; `Metal` is
    a placeholder with no kernels, so any operation touching it gives
    `None` or leaves the data as it was. */
module Backends {
  import opened Wrappers
  import opened NdArrays
  import opened CpuArrays

  datatype BackendData = Cpu(arr: CpuArray) | Metal

  /** `zeros` allocates on the caller's backend: on the CPU an array of the
      requested dtype and shape, all 0. */
  function Zeros(self: BackendData, shape: seq<nat>, dtype: DType): (r: BackendData)
    ensures r.Cpu? <==> self.Cpu?
    ensures r.Cpu? ==> r.arr.DTypeOf() == dtype && r.arr.arr.shape == shape
    ensures r.Cpu? ==> forall idx :: InBounds(shape, idx) ==> At(r.arr.arr, idx) == 0.0
  {
    match self
    case Cpu(_) => BackendData.Cpu(CpuArrays.Zeros(shape, dtype))
    case Metal => BackendData.Metal
  }

  /** `ones` as written: it keeps the caller's backend and the requested
      dtype and shape, but builds the CPU array with `CpuArray::zeros`, so
      every element is 0. */
  function Ones(self: BackendData, shape: seq<nat>, dtype: DType): (r: BackendData)
    ensures r.Cpu? <==> self.Cpu?
    ensures r.Cpu? ==> r.arr.DTypeOf() == dtype && r.arr.arr.shape == shape
    ensures r.Cpu? ==> forall idx :: InBounds(shape, idx) ==> At(r.arr.arr, idx) == 0.0
  {
    match self
    case Cpu(_) => BackendData.Cpu(CpuArrays.Zeros(shape, dtype))
    case Metal => BackendData.Metal
  }

  /** `ones` as intended: on the CPU every element is 1. */
  function OnesFixed(self: BackendData, shape: seq<nat>, dtype: DType): (r: BackendData)
    ensures r.Cpu? <==> self.Cpu?
    ensures r.Cpu? ==> r.arr.DTypeOf() == dtype && r.arr.arr.shape == shape
    ensures r.Cpu? ==> forall idx :: InBounds(shape, idx) ==> At(r.arr.arr, idx) == 1.0
  {
    match self
    case Cpu(_) => BackendData.Cpu(CpuArrays.Ones(shape, dtype))
    case Metal => BackendData.Metal
  }

  /** On a CPU receiver, the as-written `ones` reads back 0 at every
      in-bounds index of every shape, where 1 was intended. */
  lemma OnesGivesZeros(self: BackendData, shape: seq<nat>, idx: seq<nat>)
    requires self.Cpu? && InBounds(shape, idx)
    ensures Get(Ones(self, shape, F32), idx) == Some(0.0)
    ensures Get(OnesFixed(self, shape, F32), idx) == Some(1.0)
  {
  }

  /** What `unwrap` and the kernel need to succeed on a CPU pairing: both
      arrays f32, of one shape, and no zero divisor for division. */
  predicate DispatchOperands(op: BinOp, lhs: BackendData, rhs: BackendData)
  {
    lhs.Cpu? && rhs.Cpu? ==>
      lhs.arr.F32Array? && rhs.arr.F32Array? && ElementwiseOperands(op, lhs.arr, rhs.arr)
  }

  /** The shared body of add, sub, mul and div: a CPU pairing is forwarded to
      the kernel and its result unwrapped into a CPU value; any pairing with
      Metal gives None. */
  function Dispatch(op: BinOp, lhs: BackendData, rhs: BackendData): (r: Option<BackendData>)
    requires DispatchOperands(op, lhs, rhs)
    ensures r.Some? <==> lhs.Cpu? && rhs.Cpu?
    ensures r.Some? ==> r.value.Cpu? && Some(r.value.arr) == Elementwise(op, lhs.arr, rhs.arr)
    ensures r.Some? ==> r.value.arr.F32Array? && r.value.arr.arr.shape == lhs.arr.arr.shape
  {
    match (lhs, rhs)
    case (Cpu(a), Cpu(b)) => Some(BackendData.Cpu(Elementwise(op, a, b).value))
    case _ => None
  }

  function Add(lhs: BackendData, rhs: BackendData): (r: Option<BackendData>)
    requires DispatchOperands(Plus, lhs, rhs)
    ensures r.Some? <==> lhs.Cpu? && rhs.Cpu?
    ensures r.Some? ==> r.value.Cpu? && Some(r.value.arr) == CpuArrays.Add(lhs.arr, rhs.arr)
    ensures r.Some? ==> r.value.arr.F32Array? && r.value.arr.arr.shape == lhs.arr.arr.shape
  {
    Dispatch(Plus, lhs, rhs)
  }

  function Sub(lhs: BackendData, rhs: BackendData): (r: Option<BackendData>)
    requires DispatchOperands(Minus, lhs, rhs)
    ensures r.Some? <==> lhs.Cpu? && rhs.Cpu?
    ensures r.Some? ==> r.value.Cpu? && Some(r.value.arr) == CpuArrays.Sub(lhs.arr, rhs.arr)
    ensures r.Some? ==> r.value.arr.F32Array? && r.value.arr.arr.shape == lhs.arr.arr.shape
  {
    Dispatch(Minus, lhs, rhs)
  }

  function Mul(lhs: BackendData, rhs: BackendData): (r: Option<BackendData>)
    requires DispatchOperands(Times, lhs, rhs)
    ensures r.Some? <==> lhs.Cpu? && rhs.Cpu?
    ensures r.Some? ==> r.value.Cpu? && Some(r.value.arr) == CpuArrays.Mul(lhs.arr, rhs.arr)
    ensures r.Some? ==> r.value.arr.F32Array? && r.value.arr.arr.shape == lhs.arr.arr.shape
  {
    Dispatch(Times, lhs, rhs)
  }

  function Div(lhs: BackendData, rhs: BackendData): (r: Option<BackendData>)
    requires DispatchOperands(Over, lhs, rhs)
    ensures r.Some? <==> lhs.Cpu? && rhs.Cpu?
    ensures r.Some? ==> r.value.Cpu? && Some(r.value.arr) == CpuArrays.Div(lhs.arr, rhs.arr)
    ensures r.Some? ==> r.value.arr.F32Array? && r.value.arr.arr.shape == lhs.arr.arr.shape
  {
    Dispatch(Over, lhs, rhs)
  }

  /** `get`: on the CPU the kernel's answer, on Metal nothing. */
  function Get(self: BackendData, index: seq<nat>): (r: Option<real>)
    ensures r.Some? <==> self.Cpu? && self.arr.F32Array? && InBounds(self.arr.arr.shape, index)
    ensures r.Some? ==> r.value == At(self.arr.arr, index)
    ensures self.Cpu? ==> r == CpuArrays.Get(self.arr, index)
  {
    match self
    case Cpu(a) => CpuArrays.Get(a, index)
    case _ => None
  }

  /** A mutable place holding backend data: the receiver of
      `copy_from(&mut self, other)`. */
  class BackendDataPlace {
    var value: BackendData

    constructor (v: BackendData)
      ensures value == v
    {
      value := v;
    }

    /** `copy_from`: a CPU pairing copies into the inner CPU array in place,
        as `CpuArray::copy_from` does; any other pairing leaves the data as
        it was. The backend, dtype and shape never change. */
    method CopyFrom(other: BackendData)
      requires value.Cpu? && other.Cpu? && value.arr.F32Array? && other.arr.F32Array? ==>
        value.arr.arr.shape == other.arr.arr.shape
      modifies this
      ensures value.Cpu? <==> old(value).Cpu?
      ensures value.Cpu? ==>
        value.arr.DTypeOf() == old(value.arr.DTypeOf()) && value.arr.arr.shape == old(value.arr.arr.shape)
      ensures old(value).Cpu? && other.Cpu? && old(value).arr.F32Array? && other.arr.F32Array? ==>
        value.arr.arr.buf == other.arr.arr.buf
      ensures !(old(value).Cpu? && other.Cpu? && old(value).arr.F32Array? && other.arr.F32Array?) ==>
        value == old(value)
    {
      match (value, other)
      case (Cpu(into), Cpu(from)) =>
        var place := new CpuArrayPlace(into);
        place.CopyFrom(from);
        value := BackendData.Cpu(place.value);
      case _ =>
    }
  }
}
