/** Run-time values, the integer operations of the virtual machine and the
    heap a program would see if nothing were ever collected (src/value.h,
    src/vm.cpp). Floats are not part of this model. */
module Values {

  datatype Option<+T> = None | Some(value: T)
  {
    predicate IsFailure() { None? }
    function PropagateFailure<U>(): Option<U> requires None? { None }
    function Extract(): T requires Some? { value }
  }

  const TWO_31: int := 0x8000_0000
  const TWO_32: int := 0x1_0000_0000

  type int32 = x: int | -TWO_31 <= x < TWO_31

  /** Two's complement wrap-around: what the hardware does on overflow. */
  function Wrap32(x: int): (r: int32)
    ensures (r - x) % TWO_32 == 0
  {
    (x + TWO_31) % TWO_32 - TWO_31
  }

  /** The low 32 bits of a value are `Payload`, the high 32 bits carry the type;
      an array value also carries the array's length next to the type. */
  datatype Value =
    | Nil
    | Int(i: int32)
    | Fun(fid: nat)
    | Arr(handle: nat, len: nat)
  {
    function Payload(): int {
      match this
      case Nil => 0
      case Int(i) => i
      case Fun(fid) => fid
      case Arr(handle, _) => handle
    }

    /** Bit 2 of the type word. It is the lowest bit of the length when the
        value is an array, and both integers and functions have it set. */
    function Class(): nat {
      match this
      case Nil => 0
      case Int(_) => 1
      case Fun(_) => 1
      case Arr(_, len) => len % 2
    }

    predicate Truthy() {
      match this
      case Nil => false
      case Int(i) => i != 0
      case Fun(_) => true
      case Arr(_, _) => true
    }
  }

  datatype BinOp = Add | Sub | Mul | Div | Mod | Eq | Neq | Lt | Le

  /** C++ division: the quotient is rounded toward zero. */
  function TruncDiv(a: int, b: int): int
    requires b != 0
  {
    if a >= 0 then a / b else -((-a) / b)
  }

  /** INT_MIN / -1 does not fit 32 bits; the division instruction traps. */
  predicate Divides(a: int32, b: int32) {
    b != 0 && !(a == -TWO_31 && b == -1)
  }

  function FromBool(b: bool): Value {
    Int(if b then 1 else 0)
  }

  /** `cmp`: the left operand must be an integer, but of the right operand only
      the class bit is checked. */
  function Compare(strict: bool, v: Value, w: Value): Option<Value> {
    if v.Class() != w.Class() || !v.Int? then None
    else Some(FromBool(if strict then v.i < w.Payload() else v.i <= w.Payload()))
  }

  function IntOp(op: BinOp, a: int32, b: int32): Option<Value> {
    match op
    case Add => Some(Int(Wrap32(a + b)))
    case Sub => Some(Int(Wrap32(a - b)))
    case Mul => Some(Int(Wrap32(a * b)))
    case Div => if Divides(a, b) then Some(Int(Wrap32(TruncDiv(a, b)))) else None
    case Mod => if Divides(a, b) then Some(Int(Wrap32(a - b * TruncDiv(a, b)))) else None
    case Eq => Some(FromBool(a == b))
    case Neq => Some(FromBool(a != b))
    case Lt => Some(FromBool(a < b))
    case Le => Some(FromBool(a <= b))
  }

  /** One binary operation of the machine; `None` when it throws (or traps). */
  function Binary(op: BinOp, v: Value, w: Value): Option<Value> {
    match op
    case Eq => Some(FromBool(v == w))
    case Neq => Some(FromBool(v != w))
    case Lt => Compare(true, v, w)
    case Le => Compare(false, v, w)
    case _ => if v.Int? && w.Int? then IntOp(op, v.i, w.i) else None
  }

  function Negate(v: Value): Option<Value> {
    if v.Int? then Some(Int(Wrap32(0 - v.i))) else None
  }

  /** On integers an operation fails exactly when it is a division that has no 32-bit
      result. */
  lemma BinaryOnInts(op: BinOp, a: int32, b: int32)
    ensures Binary(op, Int(a), Int(b)).None? <==> (op.Div? || op.Mod?) && !Divides(a, b)
  {
  }

  /** Calls nest at most this deep. */
  const CALL_MAX_SIZE: nat := 2000

  // ---- the heap without a collector ----

  datatype Heap = Heap(arrays: map<nat, seq<Value>>, next: nat)

  const ALLOC_LIMIT: int := 0x4000_0000

  function Nils(n: nat): (s: seq<Value>)
    ensures |s| == n
    ensures forall i | 0 <= i < n :: s[i] == Nil
  {
    seq(n, _ => Nil)
  }

  /** `op_alloc`: the size register is read as a number whatever its type. */
  function Alloc(h: Heap, size: Value): Option<(Value, Heap)> {
    var len := size.Payload();
    if 0 <= len < ALLOC_LIMIT then
      Some((Arr(h.next, len), Heap(h.arrays[h.next := Nils(len)], h.next + 1)))
    else None
  }

  /** The cell an access resolves to, if the access does not throw. */
  predicate InBounds(h: Heap, arr: Value, idx: Value) {
    && arr.Arr? && idx.Int?
    && arr.handle in h.arrays
    && 0 <= idx.i < |h.arrays[arr.handle]|
  }

  function WriteCell(h: Heap, handle: nat, i: nat, v: Value): Heap
    requires handle in h.arrays && i < |h.arrays[handle]|
  {
    h.(arrays := h.arrays[handle := h.arrays[handle][i := v]])
  }

  /** `op_arrget`: an array found in a cell is replaced, in the cell and in the
      result, by the header value of the array it names. */
  function ArrGet(h: Heap, arr: Value, idx: Value): Option<(Value, Heap)> {
    if !InBounds(h, arr, idx) then None
    else
      var cell := h.arrays[arr.handle][idx.i];
      if !cell.Arr? then Some((cell, h))
      else if cell.handle !in h.arrays then None
      else
        var header := Arr(cell.handle, |h.arrays[cell.handle]|);
        Some((header, WriteCell(h, arr.handle, idx.i, header)))
  }

  function ArrSet(h: Heap, arr: Value, idx: Value, v: Value): Option<Heap> {
    if InBounds(h, arr, idx) then Some(WriteCell(h, arr.handle, idx.i, v)) else None
  }
}
