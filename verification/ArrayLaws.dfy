/** What arrays do, whatever the heap looks like inside: the laws of allocating, reading
    and writing (src/vm.cpp). */
module ArrayLaws {
  import opened Values
  import opened Bytecode
  import opened Machine

  /** What reading gives; `None` if it throws. */
  function Reading(h: Heap, arr: Value, idx: Value): Option<Value> {
    var r := ArrGet(h, arr, idx);
    if r.None? then None else Some(r.value.0)
  }

  /** An array value names an array that exists, and knows its length. */
  predicate ValueOk(h: Heap, v: Value) {
    v.Arr? ==> v.handle in h.arrays && v.len == |h.arrays[v.handle]|
  }

  /** So do all values in cells; handles that are still to come name nothing. */
  ghost predicate HeapOk(h: Heap) {
    && (forall k | k in h.arrays :: k < h.next)
    && forall k, i | k in h.arrays && 0 <= i < |h.arrays[k]| :: ValueOk(h, h.arrays[k][i])
  }

  // ---- writing, then reading ----

  /** A value that is no array is read back from where it was written, and reading it
      changes nothing. */
  lemma ReadBack(h: Heap, arr: Value, idx: Value, v: Value, h1: Heap)
    requires ArrSet(h, arr, idx, v) == Some(h1) && !v.Arr?
    ensures ArrGet(h1, arr, idx) == Some((v, h1))
  {
  }

  /** An array that was written is read back under its own handle, with the length the
      array itself has; an array that does not exist makes the reading fail. */
  lemma ReadBackArray(h: Heap, arr: Value, idx: Value, v: Value, h1: Heap)
    requires ArrSet(h, arr, idx, v) == Some(h1) && v.Arr?
    ensures if v.handle !in h.arrays then ArrGet(h1, arr, idx) == None
            else
              && ArrGet(h1, arr, idx).Some?
              && ArrGet(h1, arr, idx).value.0 == Arr(v.handle, |h.arrays[v.handle]|)
              && ArrGet(h1, arr, idx).value.1 == ArrSet(h1, arr, idx, ArrGet(h1, arr, idx).value.0).value
  {
  }

  /** Every other index of the array and every other array reads as before. */
  lemma OthersRead(h: Heap, arr: Value, idx: Value, v: Value, h1: Heap, arr1: Value, idx1: Value)
    requires ArrSet(h, arr, idx, v) == Some(h1)
    requires !(arr1.Arr? && arr1.handle == arr.handle && idx1 == idx)
    ensures Reading(h1, arr1, idx1) == Reading(h, arr1, idx1)
  {
  }

  /** Writing succeeds exactly where reading finds a cell, and makes no cell. */
  lemma WritesWhereReads(h: Heap, arr: Value, idx: Value, v: Value)
    ensures ArrSet(h, arr, idx, v).Some? <==> InBounds(h, arr, idx)
    ensures ArrGet(h, arr, idx).Some? ==> ArrSet(h, arr, idx, v).Some?
    ensures ArrSet(h, arr, idx, v).Some? ==>
              forall arr1, idx1 :: InBounds(ArrSet(h, arr, idx, v).value, arr1, idx1) <==> InBounds(h, arr1, idx1)
  {
  }

  /** The last of two writes to a cell counts. */
  lemma WriteTwice(h: Heap, arr: Value, idx: Value, v: Value, w: Value, h1: Heap)
    requires ArrSet(h, arr, idx, v) == Some(h1)
    ensures ArrSet(h1, arr, idx, w) == ArrSet(h, arr, idx, w)
  {
    var cells := h.arrays[arr.handle];
    assert cells[idx.i := v][idx.i := w] == cells[idx.i := w];
    assert h.arrays[arr.handle := cells[idx.i := v]][arr.handle := cells[idx.i := w]]
        == h.arrays[arr.handle := cells[idx.i := w]];
  }

  // ---- reading ----

  /** Reading refreshes the cell it reads and nothing else: every reading afterwards gives
      what it gave before, the same one included. */
  lemma ReadingKeeps(h: Heap, arr: Value, idx: Value, h1: Heap, v: Value, arr1: Value, idx1: Value)
    requires ArrGet(h, arr, idx) == Some((v, h1))
    ensures Reading(h1, arr1, idx1) == Reading(h, arr1, idx1) && ArrGet(h1, arr, idx) == Some((v, h1))
  {
    if v.Arr? {
      var cells := h.arrays[arr.handle];
      assert h1.arrays[arr.handle] == cells[idx.i := v];
      assert cells[idx.i := v][idx.i := v] == cells[idx.i := v];
      assert h1.arrays[arr.handle := h1.arrays[arr.handle]] == h1.arrays;
    }
  }

  // ---- allocating ----

  /** A size from 0 to 2^30 - 1 gives a new array of that many nils: reading it succeeds
      exactly for the integers below the size and gives nil. Every other size fails. */
  lemma NewReads(h: Heap, n: int32, idx: Value)
    ensures Alloc(h, Int(n)).Some? <==> 0 <= n < 0x4000_0000
    ensures Alloc(h, Int(n)).Some? ==>
              var (arr, h1) := Alloc(h, Int(n)).value;
              && arr.Arr? && arr.len == n
              && Reading(h1, arr, idx) == if idx.Int? && 0 <= idx.i < n then Some(Nil) else None
  {
  }

  /** The size is read as a number whatever its type: nil counts as 0, a function as its
      number and an array as its handle. */
  lemma OddSizes(h: Heap, size: Value, arr: Value, h1: Heap)
    requires Alloc(h, size) == Some((arr, h1))
    ensures arr.Arr? && arr.handle in h1.arrays
    ensures |h1.arrays[arr.handle]| == arr.len
    ensures arr.len == match size case Nil => 0 case Int(n) => n case Fun(fid) => fid case Arr(handle, _) => handle
  {
  }

  /** The new array is none of those that were there, and they read as before. */
  lemma NewIsNew(h: Heap, size: Value, arr: Value, h1: Heap, arr1: Value, idx1: Value)
    requires HeapOk(h) && Alloc(h, size) == Some((arr, h1))
    ensures arr.Arr? && arr.handle !in h.arrays && arr.handle in h1.arrays
    ensures arr1.Arr? && arr1.handle in h.arrays ==> Reading(h1, arr1, idx1) == Reading(h, arr1, idx1)
  {
    if InBounds(h, arr1, idx1) { assert ValueOk(h, h.arrays[arr1.handle][idx1.i]); }
  }

  // ---- arrays in arrays, on every run ----

  /** In such a heap an array in a cell already has the header that reading would give it:
      what was written is read back, arrays included, and reading changes nothing at all. */
  lemma ReadBackAny(h: Heap, arr: Value, idx: Value, v: Value, h1: Heap)
    requires HeapOk(h) && ValueOk(h, v) && ArrSet(h, arr, idx, v) == Some(h1)
    ensures ArrGet(h1, arr, idx) == Some((v, h1)) && HeapOk(h1)
  {
    SetStaysOk(h, arr, idx, v, h1);
    assert h1.arrays[arr.handle][idx.i] == v;
    NothingRefreshed(h1, arr, idx);
  }

  lemma NothingRefreshed(h: Heap, arr: Value, idx: Value)
    requires HeapOk(h) && InBounds(h, arr, idx)
    ensures ArrGet(h, arr, idx) == Some((h.arrays[arr.handle][idx.i], h))
  {
    var cells := h.arrays[arr.handle];
    assert ValueOk(h, cells[idx.i]);
    assert cells[idx.i := cells[idx.i]] == cells;
    assert h.arrays[arr.handle := cells] == h.arrays;
  }

  lemma SetStaysOk(h: Heap, arr: Value, idx: Value, v: Value, h1: Heap)
    requires HeapOk(h) && ValueOk(h, v) && ArrSet(h, arr, idx, v) == Some(h1)
    ensures HeapOk(h1) && forall w :: ValueOk(h, w) ==> ValueOk(h1, w)
  {
    forall k, i | k in h1.arrays && 0 <= i < |h1.arrays[k]| ensures ValueOk(h1, h1.arrays[k][i]) {
      if !(k == arr.handle && i == idx.i) { assert h1.arrays[k][i] == h.arrays[k][i]; }
    }
  }

  lemma AllocStaysOk(h: Heap, size: Value, arr: Value, h1: Heap)
    requires HeapOk(h) && Alloc(h, size) == Some((arr, h1))
    ensures HeapOk(h1) && ValueOk(h1, arr) && forall w :: ValueOk(h, w) ==> ValueOk(h1, w)
  {
    forall k, i | k in h1.arrays && 0 <= i < |h1.arrays[k]| ensures ValueOk(h1, h1.arrays[k][i]) {
      if k != h.next { assert ValueOk(h, h.arrays[k][i]); }
    }
  }

  ghost predicate StackOk(h: Heap, s: Stack) {
    forall i: nat | i in s :: ValueOk(h, s[i])
  }

  /** No register and no cell holds an array value that dangles or has a wrong length. */
  ghost predicate Sound(vm: VM) {
    HeapOk(vm.heap) && StackOk(vm.heap, vm.stack)
  }

  ghost predicate SoundThen(e: Event) {
    match e
    case Next(vm) => Sound(vm)
    case Enter(vm) => Sound(vm)
    case Leave(vm) => Sound(vm)
    case Stop(vm) => Sound(vm)
    case Throw => true
  }

  lemma SoundReg(vm: VM, r: nat)
    requires Sound(vm)
    ensures ValueOk(vm.heap, vm.Reg(r))
  {
    hide HeapOk;
  }

  lemma SoundSet(vm: VM, h: Heap, r: nat, v: Value)
    requires Sound(vm) && HeapOk(h) && ValueOk(h, v) && forall w :: ValueOk(vm.heap, w) ==> ValueOk(h, w)
    ensures Sound(vm.(heap := h).SetReg(r, v)) && Sound(vm.(heap := h))
  {
    hide HeapOk, ValueOk;
  }

  lemma SoundExecute(p: Program, i: Instr, vm: VM)
    requires Sound(vm)
    ensures SoundThen(Execute(p, i, vm))
  {
    hide Sound, Binary, Negate, Alloc, ArrGet, ArrSet, DoCall, DoReturn, DoJump, ValueOk, HeapOk;
    if !i.known { return; }
    forall v: Value | !v.Arr? ensures Sound(vm.SetReg(i.a, v)) { SoundPlain(vm, i.a, v); }
    if BinaryOf(i.op).Some? {
      BinaryPlain(BinaryOf(i.op).value, vm.Reg(i.b), vm.Reg(i.c));
      return;
    }
    SoundReg(vm, i.a);
    SoundReg(vm, i.b);
    SoundReg(vm, i.c);
    match i.op
    case MOVE => SoundCopy(vm, i.a, vm.Reg(i.b));
    case NEG => NegatePlain(vm.Reg(i.b));
    case ALLOC => SoundAlloc(vm, i);
    case ARRGET => SoundGet(vm, i);
    case ARRSET => SoundWrite(vm, i);
    case CALL => SoundCall(p, vm, i.a, i.b, i.c);
    case INVOKEDYNAMIC => if vm.Reg(i.a).Fun? { SoundCall(p, vm, vm.Reg(i.a).fid, i.b, i.c); }
    case RETURN => SoundReturn(vm, vm.Reg(i.a));
    case RETURNNIL => SoundNil(vm.heap); SoundReturn(vm, Nil);
    case HALT => SoundIp(vm);
    case JMP => SoundJump(vm, true, i.Sbx());
    case JMPT => SoundJump(vm, vm.Reg(i.a).Truthy(), i.Sbx());
    case JMPF => SoundJump(vm, !vm.Reg(i.a).Truthy(), i.Sbx());
    case _ =>
  }

  lemma SoundPlain(vm: VM, r: nat, v: Value)
    requires Sound(vm) && !v.Arr?
    ensures Sound(vm.SetReg(r, v))
  {
    hide HeapOk;
  }

  lemma SoundCopy(vm: VM, r: nat, v: Value)
    requires Sound(vm) && ValueOk(vm.heap, v)
    ensures Sound(vm.SetReg(r, v))
  {
    hide HeapOk;
  }

  lemma SoundNil(h: Heap)
    ensures ValueOk(h, Nil)
  {
  }

  lemma SoundIp(vm: VM)
    requires Sound(vm)
    ensures Sound(vm.(ip := CODE_MAX_SIZE - 1))
  {
    hide HeapOk, StackOk;
  }

  lemma BinaryPlain(op: BinOp, v: Value, w: Value)
    ensures Binary(op, v, w).Some? ==> !Binary(op, v, w).value.Arr?
  {
  }

  lemma NegatePlain(v: Value)
    ensures Negate(v).Some? ==> !Negate(v).value.Arr?
  {
  }

  lemma SoundJump(vm: VM, taken: bool, offset: int)
    requires Sound(vm)
    ensures SoundThen(DoJump(vm, taken, offset))
  {
    hide HeapOk, StackOk;
  }

  lemma SoundAlloc(vm: VM, i: Instr)
    requires Sound(vm)
    ensures SoundThen(StoreWithHeap(vm, i.a, Alloc(vm.heap, vm.Reg(i.b))))
  {
    hide Alloc, HeapOk, ValueOk, StackOk;
    var r := Alloc(vm.heap, vm.Reg(i.b));
    if r.Some? {
      AllocStaysOk(vm.heap, vm.Reg(i.b), r.value.0, r.value.1);
      SoundSet(vm, r.value.1, i.a, r.value.0);
    }
  }

  lemma SoundGet(vm: VM, i: Instr)
    requires Sound(vm)
    ensures SoundThen(StoreWithHeap(vm, i.a, ArrGet(vm.heap, vm.Reg(i.b), vm.Reg(i.c))))
  {
    hide HeapOk, ValueOk, StackOk, ArrGet;
    var h, arr, idx := vm.heap, vm.Reg(i.b), vm.Reg(i.c);
    GetNeedsBounds(h, arr, idx);
    if ArrGet(h, arr, idx).Some? {
      NothingRefreshed(h, arr, idx);
      CellOk(h, arr, idx);
      SoundSet(vm, h, i.a, h.arrays[arr.handle][idx.i]);
    }
  }

  lemma GetNeedsBounds(h: Heap, arr: Value, idx: Value)
    ensures ArrGet(h, arr, idx).Some? ==> InBounds(h, arr, idx)
  {
  }

  lemma CellOk(h: Heap, arr: Value, idx: Value)
    requires HeapOk(h) && InBounds(h, arr, idx)
    ensures ValueOk(h, h.arrays[arr.handle][idx.i])
  {
    hide ValueOk;
  }

  lemma SoundWrite(vm: VM, i: Instr)
    requires Sound(vm)
    ensures var h := ArrSet(vm.heap, vm.Reg(i.a), vm.Reg(i.b), vm.Reg(i.c));
            h.Some? ==> Sound(vm.(heap := h.value))
  {
    hide HeapOk, ValueOk, StackOk, ArrSet;
    SoundReg(vm, i.c);
    var h := ArrSet(vm.heap, vm.Reg(i.a), vm.Reg(i.b), vm.Reg(i.c));
    if h.Some? {
      SetStaysOk(vm.heap, vm.Reg(i.a), vm.Reg(i.b), vm.Reg(i.c), h.value);
      SoundNil(h.value);
      SoundSet(vm, h.value, 0, Nil);
    }
  }

  lemma SoundCall(p: Program, vm: VM, fid: nat, first: nat, count: nat)
    requires Sound(vm)
    ensures SoundThen(DoCall(p, vm, fid, first, count))
  {
    hide HeapOk;
  }

  lemma SoundReturn(vm: VM, v: Value)
    requires Sound(vm) && ValueOk(vm.heap, v)
    ensures SoundThen(DoReturn(vm, v))
  {
    hide HeapOk;
  }

  ghost predicate SoundState(st: State) {
    st.Running? || st.Halted? ==> Sound(st.vm)
  }

  lemma SoundStep(p: Program, vm: VM)
    requires Sound(vm)
    ensures SoundState(Step(p, vm))
  {
    hide Execute, HeapOk, StackOk;
    if vm.ip < |p.code| { SoundExecute(p, p.code[vm.ip], vm.(ip := vm.ip + 1)); }
  }

  /** On every run of any bytecode at all, no array value dangles: at each step every
      register and every cell that holds an array names one that exists, with its length. */
  lemma {:induction false} RunStaysSound(p: Program, st: State, n: nat)
    requires SoundState(st)
    ensures SoundState(Steps(p, st, n))
    decreases n
  {
    hide Sound, Step;
    if n > 0 && st.Running? {
      SoundStep(p, st.vm);
      RunStaysSound(p, Step(p, st.vm), n - 1);
    }
  }

  lemma StartIsSound(ip: nat)
    ensures Sound(VM(ip, 0, map[], [], Heap(map[], 1)))
  {
  }
}
