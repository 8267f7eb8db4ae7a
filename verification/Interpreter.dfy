/** The interpreter as it runs (src/vm.cpp, src/vm.h): one stack array, frames that
    overlap in it, and the garbage collector, which may run before any instruction.
    It is proved to behave as the machine of `Machine`, which never collects. */
module Interpreter {
  import opened Values
  import opened Bytecode
  import opened Machine
  import opened HeapGraph
  import opened Collector

  const STACK_SIZE: nat := 4096

  // ---- what a program has to respect ----

  /** The registers of the instruction lie in the frame's window. */
  predicate InWindow(i: Instr) {
    match i.op
    case CALL => i.b + i.c <= MAX_STACK
    case INVOKEDYNAMIC => i.a < MAX_STACK && i.b + i.c <= MAX_STACK
    case LOADINT => i.a < MAX_STACK
    case LOADFUNC => i.a < MAX_STACK
    case LOADNIL => i.a < MAX_STACK
    case RETURN => i.a < MAX_STACK
    case JMPT => i.a < MAX_STACK
    case JMPF => i.a < MAX_STACK
    case MOVE => i.a < MAX_STACK && i.b < MAX_STACK
    case NEG => i.a < MAX_STACK && i.b < MAX_STACK
    case ALLOC => i.a < MAX_STACK && i.b < MAX_STACK
    case JMP => true
    case RETURNNIL => true
    case HALT => true
    case _ => i.a < MAX_STACK && i.b < MAX_STACK && i.c < MAX_STACK
  }

  /** What an instruction must not do: leave its window, run off the stack, store an
      array in an array; and outside any function there are only calls without
      arguments and halts. */
  ghost predicate TameInstr(i: Instr, vm: VM) {
    && InWindow(i)
    && ((i.op.CALL? || i.op.INVOKEDYNAMIC?) ==> vm.fp + i.b + MAX_STACK <= STACK_SIZE)
    && (i.op.ARRSET? ==> !vm.Reg(i.c).Arr?)
    && (vm.calls == [] ==> !i.known || i.op.HALT? || (i.op.CALL? && i.b == i.c == 0))
  }

  /** Every step of the run is tame. */
  ghost predicate Tame(p: Program, vm: VM, fuel: nat)
    decreases fuel
  {
    fuel > 0 ==>
      && (vm.ip < |p.code| ==> TameInstr(p.code[vm.ip], vm))
      && match Dispatch(p, vm)
         case Next(vm1) => Tame(p, vm1, fuel - 1)
         case Enter(vm1) =>
           Tame(p, vm1, fuel - 1) &&
           (match Run(p, vm1, fuel - 1)
            case Back(vm2) => Tame(p, vm2, fuel - 1)
            case _ => true)
         case _ => true
  }

  /** How an activation of `run` goes on after the event `e`. */
  ghost function Rest(p: Program, e: Event, fuel: nat): RunResult {
    match e
    case Next(vm1) => Run(p, vm1, fuel)
    case Enter(vm1) =>
      (match Run(p, vm1, fuel)
       case Back(vm2) => Run(p, vm2, fuel)
       case r => r)
    case Leave(vm1) => Back(vm1)
    case Stop(vm1) => Stopped(vm1)
    case Throw => RunResult.Threw
  }

  /** The number of instructions that a run dispatches, nested activations included. */
  ghost function Dispatches(p: Program, vm: VM, fuel: nat): nat
    decreases fuel
  {
    if fuel == 0 then 0
    else
      match Dispatch(p, vm)
      case Next(vm1) => 1 + Dispatches(p, vm1, fuel - 1)
      case Enter(vm1) =>
        1 + Dispatches(p, vm1, fuel - 1) +
        (match Run(p, vm1, fuel - 1)
         case Back(vm2) => Dispatches(p, vm2, fuel - 1)
         case _ => 0)
      case _ => 1
  }

  ghost function DispatchesRest(p: Program, e: Event, fuel: nat): nat {
    match e
    case Next(vm1) => Dispatches(p, vm1, fuel)
    case Enter(vm1) =>
      Dispatches(p, vm1, fuel) +
      (match Run(p, vm1, fuel)
       case Back(vm2) => Dispatches(p, vm2, fuel)
       case _ => 0)
    case _ => 0
  }

  ghost predicate TameRest(p: Program, e: Event, fuel: nat) {
    match e
    case Next(vm1) => Tame(p, vm1, fuel)
    case Enter(vm1) =>
      Tame(p, vm1, fuel) &&
      (match Run(p, vm1, fuel)
       case Back(vm2) => Tame(p, vm2, fuel)
       case _ => true)
    case _ => true
  }

  lemma RunUnfolds(p: Program, vm: VM, fuel: nat)
    requires fuel > 0
    ensures Run(p, vm, fuel) == Rest(p, Dispatch(p, vm), fuel - 1)
    ensures Dispatches(p, vm, fuel) == 1 + DispatchesRest(p, Dispatch(p, vm), fuel - 1)
    ensures Tame(p, vm, fuel) ==>
              (vm.ip < |p.code| ==> TameInstr(p.code[vm.ip], vm)) && TameRest(p, Dispatch(p, vm), fuel - 1)
  {
    hide Dispatch, TameInstr;
  }

  lemma DispatchUnfolds(p: Program, vm: VM)
    ensures Dispatch(p, vm) == if vm.ip < |p.code| then Execute(p, p.code[vm.ip], vm.(ip := vm.ip + 1)) else Throw
    ensures vm.ip < |p.code| && TameInstr(p.code[vm.ip], vm) ==> TameInstr(p.code[vm.ip], vm.(ip := vm.ip + 1))
  {
    hide Execute;
  }

  // ---- the collecting machine shows the abstract one ----

  /** The handles `hs` name live blocks with the contents a heap without collector
      would hold. */
  ghost predicate Resolves(g: Store, heap: Heap, hs: set<nat>) {
    forall h | h in hs ::
      h in heap.arrays && Live(g.mem, g.blocks, h) && Cells(g.mem, g.blocks, h) == heap.arrays[h]
  }

  /** Frames lie above one another. */
  ghost predicate Framed(calls: seq<Frame>, fp: nat) {
    && (forall i | 0 <= i < |calls| :: calls[i].basePtr <= fp)
    && forall i, j | 0 <= i < j < |calls| :: calls[i].basePtr <= calls[j].basePtr
  }

  /** The stack is the abstract stack, and what the scanned part of it names resolves
      to what the abstract heap holds. */
  ghost predicate Shows(s: seq<Value>, g: Store, threshold: nat, vm: VM) {
    && |s| == STACK_SIZE && (forall i | 0 <= i < STACK_SIZE :: s[i] == vm.Get(i))
    && vm.fp + MAX_STACK <= STACK_SIZE && Framed(vm.calls, vm.fp)
    && Tidy(g, threshold) && g.nextHandle == vm.heap.next
    && Resolves(g, vm.heap, Handles(s[..vm.Sp()]))
  }

  lemma ShowsReg(s: seq<Value>, g: Store, threshold: nat, vm: VM, r: nat)
    requires Shows(s, g, threshold, vm) && r < MAX_STACK
    ensures vm.fp + r < |s| && s[vm.fp + r] == vm.Reg(r)
    ensures vm.calls != [] && vm.Reg(r).Arr? ==> Resolves(g, vm.heap, {vm.Reg(r).handle})
  {
    hide Tidy, Framed;
    if vm.calls != [] && vm.Reg(r).Arr? {
      assert s[..vm.Sp()][vm.fp + r] == vm.Reg(r);
      assert vm.Reg(r).handle in Handles(s[..vm.Sp()]);
    }
  }

  lemma HandlesOfUpdate(s: seq<Value>, k: nat, v: Value, n: nat)
    requires k < |s| && n <= |s|
    ensures Handles(s[k := v][..n]) <= Handles(s[..n]) + Handles([v])
  {
    forall h | h in Handles(s[k := v][..n]) ensures h in Handles(s[..n]) || h in Handles([v]) {
      var i :| 0 <= i < n && s[k := v][i].Arr? && s[k := v][i].handle == h;
      if i == k { assert v in [v]; } else { assert s[..n][i] == s[i]; }
    }
  }

  lemma HandlesOfPrefix(s: seq<Value>, k: nat, n: nat)
    requires k <= n <= |s|
    ensures Handles(s[..k]) <= Handles(s[..n])
  {
    forall h | h in Handles(s[..k]) ensures h in Handles(s[..n]) {
      var i :| 0 <= i < k && s[i].Arr? && s[i].handle == h;
      assert s[..n][i] == s[i];
    }
  }

  lemma ResolvesLess(g: Store, heap: Heap, hs: set<nat>, hs1: set<nat>, hs2: set<nat>)
    requires Resolves(g, heap, hs1) && Resolves(g, heap, hs2) && hs <= hs1 + hs2
    ensures Resolves(g, heap, hs)
  {
  }

  /** Writing a register of the current frame. */
  lemma ShowsSet(s: seq<Value>, g: Store, threshold: nat, vm: VM, r: nat, v: Value)
    requires Shows(s, g, threshold, vm) && r < MAX_STACK && Resolves(g, vm.heap, Handles([v]))
    ensures vm.fp + r < |s| && Shows(s[vm.fp + r := v], g, threshold, vm.SetReg(r, v))
  {
    hide Tidy, Framed, Resolves, Handles;
    HandlesOfUpdate(s, vm.fp + r, v, vm.Sp());
    ResolvesLess(g, vm.heap, Handles(s[vm.fp + r := v][..vm.Sp()]), Handles(s[..vm.Sp()]), Handles([v]));
  }

  /** A value that is no array, or that a register holds, may be written. */
  lemma Writable(s: seq<Value>, g: Store, threshold: nat, vm: VM, v: Value)
    requires Shows(s, g, threshold, vm)
    requires v.Arr? ==> Resolves(g, vm.heap, {v.handle})
    ensures Resolves(g, vm.heap, Handles([v]))
  {
    hide Tidy, Framed;
  }

  /** A collection that keeps what the scanned stack names changes nothing. */
  lemma ShowsCollected(s: seq<Value>, g: Store, g1: Store, threshold: nat, vm: VM)
    requires Shows(s, g, threshold, vm) && Tidy(g1, threshold) && Kept(g, g1, Handles(s[..vm.Sp()]))
    ensures Shows(s, g1, threshold, vm)
  {
    hide Tidy, Framed;
  }

  lemma ScannedAlive(s: seq<Value>, g: Store, threshold: nat, vm: VM)
    requires Shows(s, g, threshold, vm)
    ensures vm.Sp() <= |s| && Alive(g, Handles(s[..vm.Sp()])) && Tidy(g, threshold)
  {
    hide Tidy, Framed;
  }

  /** After an allocation, before its result is stored. */
  lemma ShowsAllocated(s: seq<Value>, g: Store, g1: Store, threshold: nat, vm: VM, len: nat, heap1: Heap)
    requires Shows(s, g, threshold, vm) && Tidy(g1, threshold)
    requires Kept(g, g1.(nextHandle := g.nextHandle), Handles(s[..vm.Sp()])) && g1.nextHandle == g.nextHandle + 1
    requires Live(g1.mem, g1.blocks, g.nextHandle) && Cells(g1.mem, g1.blocks, g.nextHandle) == Nils(len)
    requires heap1 == Heap(vm.heap.arrays[vm.heap.next := Nils(len)], vm.heap.next + 1)
    ensures Shows(s, g1, threshold, vm.(heap := heap1))
    ensures Resolves(g1, heap1, Handles([Arr(g.nextHandle, len)]))
  {
    hide Framed;
    var hs := Handles(s[..vm.Sp()]);
    forall h | h in hs ensures h < g.nextHandle {
      TidyHandle(g, threshold, h);
    }
  }

  lemma TidyHandle(g: Store, threshold: nat, h: nat)
    requires Tidy(g, threshold) && h in g.mem
    ensures h < g.nextHandle
  {
  }

  /** A call: the new window starts inside the caller's, and the slots that become
      visible have been filled with nil. */
  lemma ShowsCalled(s: seq<Value>, s1: seq<Value>, g: Store, threshold: nat, p: Program, vm: VM, fid: nat, first: nat,
      count: nat)
    requires Shows(s, g, threshold, vm) && DoCall(p, vm, fid, first, count).Enter?
    requires first + count <= MAX_STACK && vm.fp + first + MAX_STACK <= STACK_SIZE
    requires (vm.calls == [] ==> first == count == 0)
    requires |s1| == |s|
    requires forall i | 0 <= i < |s| :: s1[i] == if vm.fp + first + count <= i < vm.fp + first + MAX_STACK then Nil
              else s[i]
    ensures Shows(s1, g, threshold, DoCall(p, vm, fid, first, count).vm)
  {
    hide Tidy, Resolves;
    var vm1 := DoCall(p, vm, fid, first, count).vm;
    forall h | h in Handles(s1[..vm1.Sp()]) ensures h in Handles(s[..vm.Sp()]) {
      var i :| 0 <= i < vm1.Sp() && s1[i].Arr? && s1[i].handle == h;
      assert s[..vm.Sp()][i] == s1[i];
    }
    ResolvesLess(g, vm.heap, Handles(s1[..vm1.Sp()]), Handles(s[..vm.Sp()]), Handles(s[..vm.Sp()]));
  }

  /** A return: the caller's scanned part is inside the callee's. */
  lemma ShowsReturned(s: seq<Value>, g: Store, threshold: nat, vm: VM, v: Value)
    requires Shows(s, g, threshold, vm) && vm.calls != [] && Resolves(g, vm.heap, Handles([v]))
    ensures Shows(s[vm.fp := v], g, threshold, DoReturn(vm, v).vm)
  {
    hide Tidy, Resolves, Handles;
    var vm1 := DoReturn(vm, v).vm;
    var n := |vm.calls| - 1;
    assert Framed(vm1.calls, vm1.fp);
    HandlesOfUpdate(s, vm.fp, v, vm.Sp());
    HandlesOfPrefix(s[vm.fp := v], vm1.Sp(), vm.Sp());
    ResolvesLess(g, vm.heap, Handles(s[vm.fp := v][..vm1.Sp()]), Handles(s[..vm.Sp()]), Handles([v]));
  }

  /** Storing a value that is no array into a cell. */
  lemma ShowsWritten(s: seq<Value>, g: Store, g1: Store, threshold: nat, vm: VM, h: nat, i: nat, v: Value)
    requires Shows(s, g, threshold, vm) && Resolves(g, vm.heap, {h}) && i < |vm.heap.arrays[h]| && !v.Arr?
    requires var b := g.blocks[g.mem[h]];
             i < |b.cells| && g1 == g.(blocks := g.blocks[g.mem[h] := b.(cells := b.cells[i := v])])
    ensures Shows(s, g1, threshold, vm.(heap := WriteCell(vm.heap, h, i, v)))
  {
    hide Framed, Tidy;
    TidyWrite(g, g1, threshold, h, i, v);
    var heap1 := WriteCell(vm.heap, h, i, v);
    forall k | k in Handles(s[..vm.Sp()])
      ensures k in heap1.arrays && Live(g1.mem, g1.blocks, k) && Cells(g1.mem, g1.blocks, k) == heap1.arrays[k]
    {
      if k != h { OtherBlock(g, threshold, h, k); }
    }
  }

  lemma OtherBlock(g: Store, threshold: nat, h: nat, k: nat)
    requires Tidy(g, threshold) && Live(g.mem, g.blocks, h) && Live(g.mem, g.blocks, k) && h != k
    ensures g.mem[h] != g.mem[k]
  {
  }

  lemma TidyWrite(g: Store, g1: Store, threshold: nat, h: nat, i: nat, v: Value)
    requires Tidy(g, threshold) && Live(g.mem, g.blocks, h) && i < |g.blocks[g.mem[h]].cells| && !v.Arr?
    requires var b := g.blocks[g.mem[h]];
             g1 == g.(blocks := g.blocks[g.mem[h] := b.(cells := b.cells[i := v])])
    ensures Tidy(g1, threshold)
  {
    hide Packed;
    var b := g.blocks[g.mem[h]];
    HandlesOfUpdate(b.cells, i, v, |b.cells|);
    assert b.cells[i := v][..|b.cells|] == b.cells[i := v] && b.cells[..|b.cells|] == b.cells;
    PackedWrite(g, g1, threshold);
  }

  lemma PackedWrite(g: Store, g1: Store, threshold: nat)
    requires Packed(g.blocks, g.youngs, g.used, g.epoch, threshold)
    requires g1 == g.(blocks := g1.blocks) && g1.blocks.Keys == g.blocks.Keys && forall p | p in g.blocks ::
              |g1.blocks[p].cells| == |g.blocks[p].cells|
    ensures Packed(g1.blocks, g1.youngs, g1.used, g1.epoch, threshold)
  {
  }

  lemma HandleOfCell(cells: seq<Value>, i: nat)
    requires i < |cells| && cells[i].Arr?
    ensures cells[i].handle in Handles(cells)
  {
  }

  /** A flat heap holds no array in a cell. */
  lemma CellIsPlain(s: seq<Value>, g: Store, threshold: nat, vm: VM, h: nat, i: nat)
    requires Shows(s, g, threshold, vm) && Resolves(g, vm.heap, {h}) && i < |vm.heap.arrays[h]|
    ensures Live(g.mem, g.blocks, h) && g.blocks[g.mem[h]].cells == vm.heap.arrays[h] && !vm.heap.arrays[h][i].Arr?
  {
    hide Framed, Packed, Handles;
    var cells := g.blocks[g.mem[h]].cells;
    if cells[i].Arr? { HandleOfCell(cells, i); }
  }

  lemma ShowsIp(s: seq<Value>, g: Store, threshold: nat, vm: VM, ip: nat)
    requires Shows(s, g, threshold, vm)
    ensures Shows(s, g, threshold, vm.(ip := ip))
  {
    hide Tidy, Framed, Resolves;
  }

  lemma BinaryIsPlain(op: BinOp, v: Value, w: Value)
    ensures Binary(op, v, w).Some? ==> !Binary(op, v, w).value.Arr?
  {
  }

  datatype Outcome = Done | Halted | Threw | OutOfFuel

  class VMData {
    const program: Program
    const interval: nat
    const stack: array<Value>
    const gc: GarbageCollector
    var ip: nat
    var fp: nat
    var calls: seq<Frame>
    var gcT: nat
    /** Instructions dispatched and collections started by the dispatch loop so far. */
    ghost var steps: nat
    ghost var collections: nat

    constructor (program: Program, interval: nat, ip: nat, youngThreshold: nat, majorThreshold: nat,
        largeThreshold: nat)
      ensures this.program == program && this.interval == interval && fresh(stack) && fresh(gc)
      ensures Matches(VM(ip, 0, map[], [], Heap(map[], 1))) && Paced() && steps == 0 && stack.Length == 4096
    {
      this.program, this.interval := program, interval;
      this.ip, fp, calls, gcT := ip, 0, [], 0;
      steps, collections := 0, 0;
      stack := new Value[STACK_SIZE](_ => Nil);
      gc := new GarbageCollector(youngThreshold, majorThreshold, largeThreshold);
    }

    /** The machine shows `vm`: same registers, same frames, and the arrays its stack
        names hold what they would hold if nothing were ever collected. */
    ghost predicate Matches(vm: VM)
      reads this, stack, gc
    {
      ip == vm.ip && fp == vm.fp && calls == vm.calls && Shows(stack[..], gc.State(), gc.youngThreshold, vm)
    }

    /** Collections are started at every `interval`-th instruction, and only there. */
    ghost predicate Paced()
      reads this
    {
      InPace(interval, steps, collections, gcT)
    }

    ghost predicate Ended(r: RunResult, out: Outcome, vm: VM)
      reads this, stack, gc
    {
      match r
      case Back(v) => out == Done && vm == v && Matches(v)
      case Stopped(v) => out == Outcome.Halted && vm == v && Matches(v)
      case Threw => out == Outcome.Threw
      case OutOfFuel => out == Outcome.OutOfFuel
    }

    /** The effect of an instruction that neither calls nor returns. */
    ghost predicate Did(e: Event, ok: bool)
      reads this, stack, gc
    {
      match e
      case Next(v) => ok && Matches(v)
      case Throw => !ok
      case _ => false
    }

    /** `get_sp`. */
    function Sp(): nat
      reads this
    {
      if calls == [] then fp else fp + MAX_STACK
    }

    method SetReg(r: nat, v: Value, ghost vm: VM)
      requires Matches(vm) && r < MAX_STACK && Resolves(gc.State(), vm.heap, Handles([v]))
      modifies stack
      ensures Matches(vm.SetReg(r, v))
    {
      hide Shows, Resolves, Handles;
      ghost var s := stack[..];
      ShowsSet(s, gc.State(), gc.youngThreshold, vm, r, v);
      ShowsReg(s, gc.State(), gc.youngThreshold, vm, r);
      stack[fp + r] := v;
      assert stack[..] == s[fp + r := v];
    }

    method Reg(r: nat, ghost vm: VM) returns (v: Value)
      requires Matches(vm) && r < MAX_STACK
      ensures v == vm.Reg(r)
      ensures vm.calls != [] && v.Arr? ==> Resolves(gc.State(), vm.heap, {v.handle})
    {
      hide Shows, Resolves;
      ShowsReg(stack[..], gc.State(), gc.youngThreshold, vm, r);
      v := stack[fp + r];
    }

    /** Storing a result that is no array. */
    method SetPlain(r: nat, v: Value, ghost vm: VM)
      requires Matches(vm) && r < MAX_STACK && !v.Arr?
      modifies stack
      ensures Matches(vm.SetReg(r, v))
    {
      hide Shows, Resolves, Handles;
      Writable(stack[..], gc.State(), gc.youngThreshold, vm, v);
      SetReg(r, v, vm);
    }

    method OpMove(dst: nat, src: nat, ghost vm: VM)
      requires Matches(vm) && dst < MAX_STACK && src < MAX_STACK && vm.calls != []
      modifies stack
      ensures Matches(vm.SetReg(dst, vm.Reg(src)))
    {
      hide Shows, Resolves, Handles;
      var v := Reg(src, vm);
      Writable(stack[..], gc.State(), gc.youngThreshold, vm, v);
      SetReg(dst, v, vm);
    }

    method OpBinary(op: BinOp, dst: nat, src1: nat, src2: nat, ghost vm: VM) returns (ok: bool)
      requires Matches(vm) && dst < MAX_STACK && src1 < MAX_STACK && src2 < MAX_STACK
      modifies stack
      ensures Did(Machine.Store(vm, dst, Binary(op, vm.Reg(src1), vm.Reg(src2))), ok)
    {
      hide Shows, Resolves, Handles, Binary;
      var v1 := Reg(src1, vm);
      var v2 := Reg(src2, vm);
      BinaryIsPlain(op, v1, v2);
      match Binary(op, v1, v2)
      case Some(v) =>
        SetPlain(dst, v, vm);
        ok := true;
      case None =>
        ok := false;
    }

    method OpNeg(dst: nat, src: nat, ghost vm: VM) returns (ok: bool)
      requires Matches(vm) && dst < MAX_STACK && src < MAX_STACK
      modifies stack
      ensures Did(Machine.Store(vm, dst, Negate(vm.Reg(src))), ok)
    {
      hide Shows, Resolves, Handles;
      var v := Reg(src, vm);
      if v.Int? {
        SetPlain(dst, Int(Wrap32(0 - v.i)), vm);
        ok := true;
      } else {
        ok := false;
      }
    }

    method OpJmp(taken: bool, offset: int, ghost vm: VM) returns (ok: bool)
      requires Matches(vm)
      modifies this`ip
      ensures Did(DoJump(vm, taken, offset), ok)
    {
      hide Shows;
      if taken {
        if ip + offset < 0 { return false; }
        ip := ip + offset;
        ShowsIp(stack[..], gc.State(), gc.youngThreshold, vm, ip);
      }
      ok := true;
    }

    method OpAlloc(dst: nat, src: nat, ghost vm: VM) returns (ok: bool)
      requires Matches(vm) && dst < MAX_STACK && src < MAX_STACK
      modifies stack, gc
      ensures Did(StoreWithHeap(vm, dst, Alloc(vm.heap, vm.Reg(src))), ok)
    {
      hide Shows, Resolves, Handles, Tidy, Alive, Kept, Live, Cells;
      ghost var s, g := stack[..], gc.State();
      var size := Reg(src, vm);
      var len := size.Payload();
      if !(0 <= len < ALLOC_LIMIT) { return false; }
      ScannedAlive(s, g, gc.youngThreshold, vm);
      var v := gc.AllocArray(len, stack[..Sp()]);
      assert s[..Sp()] == stack[..Sp()];
      ShowsNext(s, g, gc.youngThreshold, vm);
      ghost var heap1 := Heap(vm.heap.arrays[vm.heap.next := Nils(len)], vm.heap.next + 1);
      ShowsAllocated(s, g, gc.State(), gc.youngThreshold, vm, len, heap1);
      SetReg(dst, v, vm.(heap := heap1));
      ok := true;
    }

    method OpArrGet(dst: nat, arr: nat, idx: nat, ghost vm: VM) returns (ok: bool)
      requires Matches(vm) && dst < MAX_STACK && arr < MAX_STACK && idx < MAX_STACK && vm.calls != []
      modifies stack, gc
      ensures Did(StoreWithHeap(vm, dst, ArrGet(vm.heap, vm.Reg(arr), vm.Reg(idx))), ok)
    {
      hide Shows;
      var i := Reg(idx, vm);
      if !i.Int? { return false; }
      var v := Reg(arr, vm);
      if !v.Arr? { return false; }
      var hdr := gc.mem[v.handle];
      if !(0 <= i.i < |gc.blocks[hdr].cells|) { return false; }
      CellIsPlain(stack[..], gc.State(), gc.youngThreshold, vm, v.handle, i.i);
      var cell := gc.GetCell(v.handle, i.i);
      if cell.None? { return false; }
      SetPlain(dst, cell.value, vm);
      ok := true;
    }

    method OpArrSet(arr: nat, idx: nat, src: nat, ghost vm: VM) returns (ok: bool)
      requires Matches(vm) && arr < MAX_STACK && idx < MAX_STACK && src < MAX_STACK && vm.calls != []
      requires !vm.Reg(src).Arr?
      modifies gc
      ensures Did(match ArrSet(vm.heap, vm.Reg(arr), vm.Reg(idx), vm.Reg(src))
                  case Some(h) => Next(vm.(heap := h))
                  case None => Event.Throw, ok)
    {
      hide Shows;
      var i := Reg(idx, vm);
      if !i.Int? { return false; }
      var v := Reg(arr, vm);
      if !v.Arr? { return false; }
      var hdr := gc.mem[v.handle];
      if !(0 <= i.i < |gc.blocks[hdr].cells|) { return false; }
      var w := Reg(src, vm);
      ghost var g := gc.State();
      gc.SetCell(v.handle, i.i, w);
      ShowsWritten(stack[..], g, gc.State(), gc.youngThreshold, vm, v.handle, i.i, w);
      ok := true;
    }

    /** One trip through the dispatch switch, for an instruction that neither calls nor
        returns. */
    method Simple(i: Instr, ghost vm: VM) returns (ok: bool)
      requires Matches(vm) && vm.calls != [] && InWindow(i) && i.known && (i.op.ARRSET? ==> !vm.Reg(i.c).Arr?)
      requires !i.op.CALL? && !i.op.INVOKEDYNAMIC? && !i.op.RETURN? && !i.op.RETURNNIL? && !i.op.HALT?
      modifies stack, gc, this`ip
      ensures Did(Execute(program, i, vm), ok)
    {
      hide Shows, Resolves, Handles, Binary, Alloc, ArrGet, ArrSet, Negate;
      var op := BinaryOf(i.op);
      if op.Some? {
        ok := OpBinary(op.value, i.a, i.b, i.c, vm);
        return;
      }
      match i.op
      case LOADINT =>
        if i.bx >= |program.constants| { return false; }
        SetPlain(i.a, Int(program.constants[i.bx]), vm);
        ok := true;
      case LOADFUNC =>
        if i.bx >= |program.funcs| { return false; }
        SetPlain(i.a, Fun(i.bx), vm);
        ok := true;
      case MOVE =>
        OpMove(i.a, i.b, vm);
        ok := true;
      case LOADNIL =>
        SetPlain(i.a, Nil, vm);
        ok := true;
      case NEG => ok := OpNeg(i.a, i.b, vm);
      case JMP => ok := OpJmp(true, i.Sbx(), vm);
      case JMPT =>
        var v := Reg(i.a, vm);
        ok := OpJmp(v.Truthy(), i.Sbx(), vm);
      case JMPF =>
        var v := Reg(i.a, vm);
        ok := OpJmp(!v.Truthy(), i.Sbx(), vm);
      case ALLOC => ok := OpAlloc(i.a, i.b, vm);
      case ARRGET => ok := OpArrGet(i.a, i.b, i.c, vm);
      case ARRSET => ok := OpArrSet(i.a, i.b, i.c, vm);
      case _ => ok := false;
    }

    /** `op_return`. */
    method OpReturn(v: Value, ghost vm: VM)
      requires Matches(vm) && Resolves(gc.State(), vm.heap, Handles([v]))
      modifies this`ip, this`fp, this`calls, stack
      ensures match DoReturn(vm, v)
              case Leave(vm1) => Matches(vm1)
              case Stop(vm1) => Matches(vm1)
              case _ => false
    {
      hide Shows, Resolves, Handles;
      ghost var s := stack[..];
      if |calls| == 0 {
        ip := CODE_MAX_SIZE - 1;
        ShowsIp(s, gc.State(), gc.youngThreshold, vm, ip);
        return;
      }
      ShowsReg(s, gc.State(), gc.youngThreshold, vm, 0);
      ShowsReturned(s, gc.State(), gc.youngThreshold, vm, v);
      var frame := calls[|calls| - 1];
      calls := calls[..|calls| - 1];
      stack[fp] := v;
      assert stack[..] == s[fp := v];
      fp := frame.basePtr;
      ip := frame.retIp;
    }

    /** `op_call`, nested `run` included. */
    method OpCall(fid: nat, first: nat, count: nat, ghost vm: VM, fuel: nat) returns (out: Outcome, ghost vm1: VM)
      requires Matches(vm) && first + count <= MAX_STACK && vm.fp + first + MAX_STACK <= STACK_SIZE
      requires vm.calls == [] ==> first == count == 0
      requires var e := DoCall(program, vm, fid, first, count); e.Enter? ==> Tame(program, e.vm, fuel)
      requires Paced()
      modifies this, stack, gc
      ensures var e := DoCall(program, vm, fid, first, count);
              if e.Enter? then Ended(Machine.Run(program, e.vm, fuel), out, vm1) else out == Outcome.Threw
      ensures var e := DoCall(program, vm, fid, first, count);
              Paced() && steps == old(steps) + if e.Enter? then Dispatches(program, e.vm, fuel) else 0
      decreases fuel, 1
    {
      hide Shows, Resolves, Handles, Tame, Machine.Run, Dispatches, InPace;
      if fid >= |program.funcs| || count != program.funcs[fid].arity || |calls| >= CALL_MAX_SIZE {
        return Outcome.Threw, vm;
      }
      ghost var s := stack[..];
      ghost var entered := DoCall(program, vm, fid, first, count).vm;
      calls := calls + [Frame(ip, fp, fid)];
      fp := fp + first;
      ip := program.funcs[fid].entry;
      var sp, i := Sp(), fp + count;
      FillFits(s, gc.State(), gc.youngThreshold, vm, first, count);
      while i < sp
        invariant fp + count <= i <= sp
        invariant forall j | 0 <= j < |s| :: stack[j] == if fp + count <= j < i then Nil else s[j]
        invariant ip == entered.ip && fp == entered.fp && calls == entered.calls
        invariant gc.State() == old(gc.State())
        modifies stack
      {
        stack[i] := Nil;
        i := i + 1;
      }
      ShowsCalled(s, stack[..], gc.State(), gc.youngThreshold, program, vm, fid, first, count);
      out, vm1 := Run(entered, fuel);
    }

    /** A call and what comes back from it. */
    method CallThen(fid: nat, first: nat, count: nat, ghost vm: VM, fuel: nat)
      returns (more: bool, out: Outcome, ghost vm1: VM)
      requires Matches(vm) && first + count <= MAX_STACK && vm.fp + first + MAX_STACK <= STACK_SIZE
      requires vm.calls == [] ==> first == count == 0
      requires TameRest(program, DoCall(program, vm, fid, first, count), fuel) && Paced()
      modifies this, stack, gc
      ensures Went(DoCall(program, vm, fid, first, count), fuel, more, out, vm1)
      ensures Paced() && steps + (if more then Dispatches(program, vm1, fuel) else 0)
                      == old(steps) + DispatchesRest(program, DoCall(program, vm, fid, first, count), fuel)
      decreases fuel, 2
    {
      hide Shows, Resolves, Handles, Tame, Machine.Run, DoCall, Dispatches, InPace;
      DoCallEvents(program, vm, fid, first, count);
      out, vm1 := OpCall(fid, first, count, vm, fuel);
      more := out == Done;
    }

    /** The loop goes on at `vm1`, or this activation has ended. */
    ghost predicate Went(e: Event, fuel: nat, more: bool, out: Outcome, vm1: VM)
      reads this, stack, gc
    {
      if more then
        Matches(vm1) && Tame(program, vm1, fuel) && Machine.Run(program, vm1, fuel) == Rest(program, e, fuel)
      else Ended(Rest(program, e, fuel), out, vm1)
    }

    method Return(v: Value, ghost vm: VM, fuel: nat) returns (ghost vm1: VM)
      requires Matches(vm) && vm.calls != [] && (v.Arr? ==> Resolves(gc.State(), vm.heap, {v.handle}))
      modifies this`ip, this`fp, this`calls, stack
      ensures Went(DoReturn(vm, v), fuel, false, Done, vm1)
      ensures DispatchesRest(program, DoReturn(vm, v), fuel) == 0
    {
      hide Shows, Resolves, Handles, DoReturn;
      Writable(stack[..], gc.State(), gc.youngThreshold, vm, v);
      DoReturnEvents(vm, v);
      OpReturn(v, vm);
      vm1 := DoReturn(vm, v).vm;
    }

    /** One trip through the dispatch switch. `more` says that the loop goes on. */
    method Instruction(i: Instr, ghost vm: VM, fuel: nat) returns (more: bool, out: Outcome, ghost vm1: VM)
      requires Matches(vm) && TameInstr(i, vm) && TameRest(program, Execute(program, i, vm), fuel) && Paced()
      modifies this, stack, gc
      ensures Paced() && steps + (if more then Dispatches(program, vm1, fuel) else 0)
                      == old(steps) + DispatchesRest(program, Execute(program, i, vm), fuel)
      ensures Went(Execute(program, i, vm), fuel, more, out, vm1)
      decreases fuel, 3
    {
      hide Shows, Resolves, Handles, Tame, Machine.Run, DoCall, DoReturn, Execute, Rest, TameRest, Dispatches,
        DispatchesRest, InPace, InWindow;
      ExecuteControl(program, i, vm);
      RestThrows(program, fuel);
      if !i.known { return false, Outcome.Threw, vm; }
      match i.op
      case CALL =>
        CallInWindow(i);
        more, out, vm1 := CallThen(i.a, i.b, i.c, vm, fuel);
      case INVOKEDYNAMIC =>
        CallInWindow(i);
        var f := Reg(i.a, vm);
        if !f.Fun? { return false, Outcome.Threw, vm; }
        more, out, vm1 := CallThen(f.fid, i.b, i.c, vm, fuel);
      case RETURN =>
        CallInWindow(i);
        var v := Reg(i.a, vm);
        more, out := false, Done;
        vm1 := Return(v, vm, fuel);
      case RETURNNIL =>
        more, out := false, Done;
        vm1 := Return(Nil, vm, fuel);
      case HALT =>
        if |calls| > 0 { return false, Outcome.Threw, vm; }
        more, out := false, Outcome.Halted;
        vm1 := Halt(vm, fuel);
      case _ =>
        more, out, vm1 := SimpleThen(i, vm, fuel);
    }

    method Halt(ghost vm: VM, fuel: nat) returns (ghost vm1: VM)
      requires Matches(vm)
      modifies this`ip
      ensures Went(Stop(vm.(ip := CODE_MAX_SIZE - 1)), fuel, false, Outcome.Halted, vm1)
      ensures DispatchesRest(program, Stop(vm.(ip := CODE_MAX_SIZE - 1)), fuel) == 0
    {
      hide Shows;
      ip := CODE_MAX_SIZE - 1;
      ShowsIp(stack[..], gc.State(), gc.youngThreshold, vm, ip);
      vm1 := vm.(ip := CODE_MAX_SIZE - 1);
    }

    method SimpleThen(i: Instr, ghost vm: VM, fuel: nat) returns (more: bool, out: Outcome, ghost vm1: VM)
      requires Matches(vm) && vm.calls != [] && InWindow(i) && i.known && (i.op.ARRSET? ==> !vm.Reg(i.c).Arr?)
      requires !i.op.CALL? && !i.op.INVOKEDYNAMIC? && !i.op.RETURN? && !i.op.RETURNNIL? && !i.op.HALT?
      requires TameRest(program, Execute(program, i, vm), fuel)
      modifies stack, gc, this`ip
      ensures Went(Execute(program, i, vm), fuel, more, out, vm1)
      ensures DispatchesRest(program, Execute(program, i, vm), fuel) == if more then Dispatches(program, vm1, fuel)
                else 0
    {
      hide Shows, InWindow, Execute, Tame, Machine.Run, Dispatches;
      ghost var e := Execute(program, i, vm);
      more := Simple(i, vm);
      out := Outcome.Threw;
      vm1 := if e.Next? then e.vm else vm;
    }

    /** A collection as the dispatch loop starts it: the old and the large objects that the
        scanned stack does not name are gone, and the program cannot tell. */
    method Collect(ghost vm: VM)
      requires Matches(vm)
      modifies gc, this`collections
      ensures Matches(vm) && collections == old(collections) + 1
      ensures var g := old(gc.State());
              Freed(g, gc.State(), Dying(g, Handles(stack[..vm.Sp()]), true, true))
    {
      hide Shows, Resolves, Handles, Tidy, Alive, Kept, Freed, Dying;
      collections := collections + 1;
      ghost var g := gc.State();
      ScannedAlive(stack[..], g, gc.youngThreshold, vm);
      assert stack[..][..Sp()] == stack[..Sp()];
      gc.Call(stack[..Sp()]);
      ShowsCollected(stack[..], g, gc.State(), gc.youngThreshold, vm);
    }

    /** The start of a dispatch: every so often a collection is due. */
    method Tick(ghost vm: VM)
      requires Matches(vm) && Paced()
      modifies this`gcT, this`steps, this`collections, gc
      ensures Matches(vm) && Paced() && steps == old(steps) + 1
    {
      hide Shows, Freed, Dying, InPace;
      PaceNext(interval, steps, collections, gcT);
      steps := steps + 1;
      gcT := gcT + 1;
      if gcT >= interval {
        gcT := 0;
        Collect(vm);
      }
    }

    /** `run`: the collecting machine does what the machine without collector does, for
        every tame run, whenever collections happen. */
    method Run(ghost vm: VM, fuel: nat) returns (out: Outcome, ghost vm1: VM)
      requires Matches(vm) && Tame(program, vm, fuel) && Paced()
      modifies this, stack, gc
      ensures Ended(Machine.Run(program, vm, fuel), out, vm1)
      ensures Paced() && steps == old(steps) + Dispatches(program, vm, fuel)
      decreases fuel, 0
    {
      hide Shows, Resolves, Handles, Tame, Rest, TameRest, TameInstr, Machine.Run, Execute, Dispatch, Dispatches,
        DispatchesRest, InPace, Freed, Dying;
      vm1 := vm;
      var n := fuel;
      while n > 0
        invariant 0 <= n <= fuel && Matches(vm1) && Tame(program, vm1, n)
        invariant Machine.Run(program, vm1, n) == Machine.Run(program, vm, fuel)
        invariant Paced() && steps + Dispatches(program, vm1, n) == old(steps) + Dispatches(program, vm, fuel)
      {
        Tick(vm1);
        RunUnfolds(program, vm1, n);
        DispatchUnfolds(program, vm1);
        n := n - 1;
        if ip >= |program.code| {
          RestThrows(program, n);
          return Outcome.Threw, vm1;
        }
        var i := program.code[ip];
        ip := ip + 1;
        ghost var vm2 := vm1.(ip := vm1.ip + 1);
        ShowsIp(stack[..], gc.State(), gc.youngThreshold, vm1, ip);
        var more;
        more, out, vm1 := Instruction(i, vm2, n);
        if !more { return; }
      }
      OutOfFuelAtZero(program, vm1);
      out := Outcome.OutOfFuel;
    }
  }

  ghost predicate InPace(interval: nat, steps: nat, collections: nat, t: nat) {
    var n := if interval == 0 then 1 else interval;
    t < n && steps == collections * n + t
  }

  lemma PaceNext(interval: nat, steps: nat, collections: nat, t: nat)
    requires InPace(interval, steps, collections, t)
    ensures t + 1 >= interval ==> InPace(interval, steps + 1, collections + 1, 0)
    ensures t + 1 < interval ==> InPace(interval, steps + 1, collections, t + 1)
  {
    var n := if interval == 0 then 1 else interval;
    assert (collections + 1) * n == collections * n + n;
  }

  lemma CallInWindow(i: Instr)
    requires InWindow(i)
    ensures i.op.INVOKEDYNAMIC? || i.op.RETURN? ==> i.a < MAX_STACK
    ensures i.op.INVOKEDYNAMIC? || i.op.CALL? ==> i.b + i.c <= MAX_STACK
  {
  }

  lemma RestThrows(p: Program, fuel: nat)
    ensures Rest(p, Throw, fuel) == RunResult.Threw && DispatchesRest(p, Throw, fuel) == 0
  {
  }

  lemma OutOfFuelAtZero(p: Program, vm: VM)
    ensures Run(p, vm, 0) == RunResult.OutOfFuel && Dispatches(p, vm, 0) == 0
  {
  }

  lemma ExecuteControl(p: Program, i: Instr, vm: VM)
    ensures !i.known ==> Execute(p, i, vm) == Throw
    ensures i.known && i.op.CALL? ==> Execute(p, i, vm) == DoCall(p, vm, i.a, i.b, i.c)
    ensures i.known && i.op.INVOKEDYNAMIC? ==>
              Execute(p, i, vm) == if vm.Reg(i.a).Fun? then DoCall(p, vm, vm.Reg(i.a).fid, i.b, i.c) else Throw
    ensures i.known && i.op.RETURN? ==> Execute(p, i, vm) == DoReturn(vm, vm.Reg(i.a))
    ensures i.known && i.op.RETURNNIL? ==> Execute(p, i, vm) == DoReturn(vm, Nil)
    ensures i.known && i.op.HALT? ==>
              Execute(p, i, vm) == if vm.calls == [] then Stop(vm.(ip := CODE_MAX_SIZE - 1)) else Throw
  {
    hide DoCall, DoReturn;
  }

  lemma DoCallEvents(p: Program, vm: VM, fid: nat, first: nat, count: nat)
    ensures var e := DoCall(p, vm, fid, first, count); e.Enter? || e.Throw?
  {
  }

  lemma DoReturnEvents(vm: VM, v: Value)
    ensures var e := DoReturn(vm, v); if vm.calls == [] then e.Stop? else e.Leave?
  {
  }

  lemma FillFits(s: seq<Value>, g: Store, threshold: nat, vm: VM, first: nat, count: nat)
    requires Shows(s, g, threshold, vm) && first + count <= MAX_STACK && vm.fp + first + MAX_STACK <= STACK_SIZE
    ensures vm.fp + first + count <= vm.fp + first + MAX_STACK <= |s|
  {
    hide Tidy, Resolves, Framed;
  }

  lemma ShowsFirst(s: seq<Value>, g: Store, threshold: nat, vm: VM)
    requires Shows(s, g, threshold, vm)
    ensures |s| > 0 && s[0] == vm.Get(0)
  {
    hide Tidy, Resolves, Framed;
  }

  lemma ShowsNext(s: seq<Value>, g: Store, threshold: nat, vm: VM)
    requires Shows(s, g, threshold, vm)
    ensures g.nextHandle == vm.heap.next
  {
  }
}
