/** The virtual machine (src/vm.cpp): one dispatch step, the flat machine that
    repeats it, and `run`, which calls itself for every bytecode call. */
module Machine {
  import opened Values
  import opened Bytecode

  /** A return address, the caller's frame pointer and the callee. */
  datatype Frame = Frame(retIp: nat, basePtr: nat, fid: nat)

  datatype FuncInfo = FuncInfo(entry: nat, arity: nat, size: nat)

  datatype Program = Program(code: seq<Instr>, constants: seq<int32>, funcs: seq<FuncInfo>)

  /** Slots that were never written read as nil. */
  type Stack = map<nat, Value>

  datatype VM = VM(ip: nat, fp: nat, stack: Stack, calls: seq<Frame>, heap: Heap)
  {
    function Get(i: nat): Value { if i in stack then stack[i] else Nil }
    function Reg(r: nat): Value { Get(fp + r) }
    function SetReg(r: nat, v: Value): VM { this.(stack := stack[fp + r := v]) }

    /** `get_sp`: the end of the part of the stack that is in use. */
    function Sp(): nat { if calls == [] then fp else fp + MAX_STACK }
  }

  const MAX_STACK: nat := 120
  const CODE_MAX_SIZE: nat := 4096

  /** What one trip around the dispatch loop does. */
  datatype Event =
    | Next(vm: VM)    // go on in this activation of `run`
    | Enter(vm: VM)   // a call: a frame was pushed
    | Leave(vm: VM)   // a return: a frame was popped
    | Stop(vm: VM)
    | Throw

  function NilFill(s: Stack, lo: nat, hi: nat): Stack {
    map i | i in s && !(lo <= i < hi) :: s[i]
  }

  function DoCall(p: Program, vm: VM, fid: nat, first: nat, count: nat): Event {
    if fid >= |p.funcs| || count != p.funcs[fid].arity || |vm.calls| >= CALL_MAX_SIZE then Throw
    else
      var fp := vm.fp + first;
      Enter(VM(p.funcs[fid].entry, fp, NilFill(vm.stack, fp + count, fp + MAX_STACK),
               vm.calls + [Frame(vm.ip, vm.fp, fid)], vm.heap))
  }

  function DoReturn(vm: VM, v: Value): Event {
    if vm.calls == [] then Stop(vm.(ip := CODE_MAX_SIZE - 1))
    else
      var n := |vm.calls| - 1;
      Leave(VM(vm.calls[n].retIp, vm.calls[n].basePtr, vm.stack[vm.fp := v], vm.calls[..n], vm.heap))
  }

  function DoJump(vm: VM, taken: bool, offset: int): Event {
    if !taken then Next(vm)
    else if vm.ip + offset < 0 then Throw
    else Next(vm.(ip := vm.ip + offset))
  }

  function Store(vm: VM, r: nat, v: Option<Value>): Event {
    match v
    case Some(x) => Next(vm.SetReg(r, x))
    case None => Throw
  }

  function StoreWithHeap(vm: VM, r: nat, v: Option<(Value, Heap)>): Event {
    match v
    case Some((x, h)) => Next(vm.(heap := h).SetReg(r, x))
    case None => Throw
  }

  function BinaryOf(op: Op): Option<BinOp> {
    match op
    case ADD => Some(Add) case SUB => Some(Sub) case MUL => Some(Mul)
    case DIV => Some(Div) case MOD => Some(Mod)
    case EQ => Some(Eq) case NEQ => Some(Neq) case LT => Some(Lt) case LE => Some(Le)
    case _ => None
  }

  /** One instruction, with `vm.ip` already moved past it. */
  function Execute(p: Program, i: Instr, vm: VM): Event {
    if !i.known then Throw
    else if BinaryOf(i.op).Some? then
      Store(vm, i.a, Binary(BinaryOf(i.op).value, vm.Reg(i.b), vm.Reg(i.c)))
    else
      match i.op
      case LOADINT => if i.bx < |p.constants| then Next(vm.SetReg(i.a, Int(p.constants[i.bx]))) else Throw
      case LOADFUNC => if i.bx < |p.funcs| then Next(vm.SetReg(i.a, Fun(i.bx))) else Throw
      case MOVE => Next(vm.SetReg(i.a, vm.Reg(i.b)))
      case LOADNIL => Next(vm.SetReg(i.a, Nil))
      case NEG => Store(vm, i.a, Negate(vm.Reg(i.b)))
      case JMP => DoJump(vm, true, i.Sbx())
      case JMPT => DoJump(vm, vm.Reg(i.a).Truthy(), i.Sbx())
      case JMPF => DoJump(vm, !vm.Reg(i.a).Truthy(), i.Sbx())
      case CALL => DoCall(p, vm, i.a, i.b, i.c)
      case INVOKEDYNAMIC =>
        var f := vm.Reg(i.a);
        if f.Fun? then DoCall(p, vm, f.fid, i.b, i.c) else Throw
      case RETURN => DoReturn(vm, vm.Reg(i.a))
      case RETURNNIL => DoReturn(vm, Nil)
      // a HALT below the top level would resume fetching past the program
      case HALT => if vm.calls == [] then Stop(vm.(ip := CODE_MAX_SIZE - 1)) else Throw
      case ALLOC => StoreWithHeap(vm, i.a, Alloc(vm.heap, vm.Reg(i.b)))
      case ARRGET => StoreWithHeap(vm, i.a, ArrGet(vm.heap, vm.Reg(i.b), vm.Reg(i.c)))
      case ARRSET =>
        (match ArrSet(vm.heap, vm.Reg(i.a), vm.Reg(i.b), vm.Reg(i.c))
         case Some(h) => Next(vm.(heap := h))
         case None => Throw)
      case _ => Throw
  }

  function Dispatch(p: Program, vm: VM): Event {
    if vm.ip < |p.code| then Execute(p, p.code[vm.ip], vm.(ip := vm.ip + 1)) else Throw
  }

  // ---- the flat machine ----

  datatype State = Running(vm: VM) | Halted(vm: VM) | Fault

  function Step(p: Program, vm: VM): State {
    match Dispatch(p, vm)
    case Next(vm1) => Running(vm1)
    case Enter(vm1) => Running(vm1)
    case Leave(vm1) => Running(vm1)
    case Stop(vm1) => Halted(vm1)
    case Throw => Fault
  }

  function Steps(p: Program, st: State, n: nat): State
    decreases n
  {
    if n == 0 || !st.Running? then st else Steps(p, Step(p, st.vm), n - 1)
  }

  lemma {:induction false} StepsAdd(p: Program, st: State, m: nat, n: nat)
    ensures Steps(p, st, m + n) == Steps(p, Steps(p, st, m), n)
    decreases m
  {
    hide Step;
    if m > 0 && st.Running? {
      StepsAdd(p, Step(p, st.vm), m - 1, n);
    }
  }

  // ---- `run` ----

  datatype RunResult = Back(vm: VM) | Stopped(vm: VM) | Threw | OutOfFuel

  /** One activation of `run`: it ends at the return that matches the call that
      started it. Each instruction and each nested activation uses up fuel. */
  function Run(p: Program, vm: VM, fuel: nat): RunResult
    decreases fuel
  {
    if fuel == 0 then OutOfFuel
    else
      match Dispatch(p, vm)
      case Next(vm1) => Run(p, vm1, fuel - 1)
      case Enter(vm1) =>
        (match Run(p, vm1, fuel - 1)
         case Back(vm2) => Run(p, vm2, fuel - 1)
         case r => r)
      case Leave(vm1) => Back(vm1)
      case Stop(vm1) => Stopped(vm1)
      case Throw => Threw
  }

  /** No slot below `k` differs. */
  ghost predicate SameBelow(k: nat, vm: VM, vm1: VM) {
    forall i: nat | i < k :: vm.Get(i) == vm1.Get(i)
  }

  /** What an instruction may do to the frames: only a call pushes one, only a return
      pops one, and nothing below the frame pointer is written. */
  ghost predicate FramesKept(vm: VM, e: Event) {
    match e
    case Next(vm1) => vm1.calls == vm.calls && vm1.fp == vm.fp && SameBelow(vm.fp, vm, vm1)
    case Enter(vm1) =>
      && vm1.fp >= vm.fp && SameBelow(vm1.fp, vm, vm1)
      && |vm1.calls| == |vm.calls| + 1 && vm1.calls[..|vm.calls|] == vm.calls
      && vm1.calls[|vm.calls|].retIp == vm.ip && vm1.calls[|vm.calls|].basePtr == vm.fp
    case Leave(vm1) =>
      vm.calls != [] && SameBelow(vm.fp, vm, vm1) &&
      var n := |vm.calls| - 1;
      vm1.calls == vm.calls[..n] && vm1.ip == vm.calls[n].retIp && vm1.fp == vm.calls[n].basePtr
    case Stop(_) => vm.calls == []
    case Throw => true
  }

  lemma SetFrames(vm: VM, r: nat, v: Value)
    ensures FramesKept(vm, Next(vm.SetReg(r, v)))
  {
  }

  lemma StoreFrames(vm: VM, r: nat, v: Option<Value>)
    ensures FramesKept(vm, Store(vm, r, v))
  {
  }

  lemma HeapFrames(vm: VM, r: nat, v: Option<(Value, Heap)>)
    ensures FramesKept(vm, StoreWithHeap(vm, r, v))
  {
  }

  lemma EndFrames(vm: VM)
    ensures FramesKept(vm, Throw) && forall h :: FramesKept(vm, Next(vm.(heap := h)))
    ensures vm.calls == [] ==> FramesKept(vm, Stop(vm.(ip := CODE_MAX_SIZE - 1)))
  {
  }

  lemma JumpFrames(vm: VM, taken: bool, offset: int)
    ensures FramesKept(vm, DoJump(vm, taken, offset))
  {
  }

  lemma CallFrames(p: Program, vm: VM, fid: nat, base: nat, count: nat)
    ensures FramesKept(vm, DoCall(p, vm, fid, base, count))
  {
  }

  lemma ReturnFrames(vm: VM, v: Value)
    ensures FramesKept(vm, DoReturn(vm, v))
  {
  }

  lemma ExecuteFrames(p: Program, i: Instr, vm: VM)
    ensures FramesKept(vm, Execute(p, i, vm))
  {
    hide FramesKept, DoCall, DoReturn, DoJump, Store, StoreWithHeap, VM.SetReg;
    forall r, v ensures FramesKept(vm, Next(vm.SetReg(r, v))) { SetFrames(vm, r, v); }
    forall r, v ensures FramesKept(vm, Store(vm, r, v)) { StoreFrames(vm, r, v); }
    forall r, v ensures FramesKept(vm, StoreWithHeap(vm, r, v)) { HeapFrames(vm, r, v); }
    EndFrames(vm);
    forall taken, offset ensures FramesKept(vm, DoJump(vm, taken, offset)) { JumpFrames(vm, taken, offset); }
    forall fid, base, count ensures FramesKept(vm, DoCall(p, vm, fid, base, count)) {
      CallFrames(p, vm, fid, base, count);
    }
    forall v ensures FramesKept(vm, DoReturn(vm, v)) { ReturnFrames(vm, v); }
  }

  /** The same, for one dispatch. */
  lemma DispatchFrames(p: Program, vm: VM)
    ensures match Dispatch(p, vm)
            case Next(vm1) => vm1.calls == vm.calls && vm1.fp == vm.fp && SameBelow(vm.fp, vm, vm1)
            case Enter(vm1) =>
              && vm1.fp >= vm.fp && SameBelow(vm1.fp, vm, vm1)
              && |vm1.calls| == |vm.calls| + 1 && vm1.calls[..|vm.calls|] == vm.calls
              && vm1.calls[|vm.calls|].retIp == vm.ip + 1 && vm1.calls[|vm.calls|].basePtr == vm.fp
            case Leave(vm1) =>
              vm.calls != [] && SameBelow(vm.fp, vm, vm1) &&
              var n := |vm.calls| - 1;
              vm1.calls == vm.calls[..n] && vm1.ip == vm.calls[n].retIp && vm1.fp == vm.calls[n].basePtr
            case Stop(_) => vm.calls == []
            case Throw => true
  {
    hide Execute;
    if vm.ip < |p.code| { ExecuteFrames(p, p.code[vm.ip], vm.(ip := vm.ip + 1)); }
  }

  /** Calls balance and frames are isolated, for any bytecode at all: when an
      activation of `run` comes back, exactly one frame has been popped, `ip` and
      `fp` are what it recorded, and no slot below the frame has changed. */
  lemma {:induction false} RunBalanced(p: Program, vm: VM, fuel: nat)
    requires Run(p, vm, fuel).Back?
    requires vm.calls != []
    ensures var vm1 := Run(p, vm, fuel).vm;
            var n := |vm.calls| - 1;
            && vm1.calls == vm.calls[..n]
            && vm1.ip == vm.calls[n].retIp
            && vm1.fp == vm.calls[n].basePtr
            && SameBelow(vm.fp, vm, vm1)
    decreases fuel
  {
    hide Dispatch;
    DispatchFrames(p, vm);
    match Dispatch(p, vm)
    case Next(vm1) => RunBalanced(p, vm1, fuel - 1);
    case Enter(vm1) =>
      RunBalanced(p, vm1, fuel - 1);
      var vm2 := Run(p, vm1, fuel - 1).vm;
      assert vm2.calls == vm.calls;
      RunBalanced(p, vm2, fuel - 1);
    case Leave(_) =>
  }

  /** `op_call` as its caller sees it: the nested `run` puts the caller's frame
      pointer, return address and call stack back and leaves the caller's
      registers below the first argument alone. */
  lemma CallBalanced(p: Program, vm: VM, fid: nat, first: nat, count: nat, fuel: nat)
    requires DoCall(p, vm, fid, first, count).Enter?
    requires Run(p, DoCall(p, vm, fid, first, count).vm, fuel).Back?
    ensures var vm1 := Run(p, DoCall(p, vm, fid, first, count).vm, fuel).vm;
            && vm1.calls == vm.calls && vm1.ip == vm.ip && vm1.fp == vm.fp
            && forall r: nat | r < first :: vm1.Reg(r) == vm.Reg(r)
  {
    RunBalanced(p, DoCall(p, vm, fid, first, count).vm, fuel);
  }

  /** The nested machine is the flat one: the same result after some number of
      steps, and out of fuel only when the flat machine has run at least that long. */
  lemma {:induction false} RunIsFlat(p: Program, vm: VM, fuel: nat) returns (n: nat)
    ensures match Run(p, vm, fuel)
            case Back(vm1) => Steps(p, Running(vm), n) == Running(vm1)
            case Stopped(vm1) => Steps(p, Running(vm), n) == Halted(vm1)
            case Threw => Steps(p, Running(vm), n) == Fault
            case OutOfFuel => n >= fuel && Steps(p, Running(vm), n).Running?
    decreases fuel
  {
    hide Dispatch;
    if fuel == 0 { return 0; }
    match Dispatch(p, vm)
    case Next(vm1) =>
      var m := RunIsFlat(p, vm1, fuel - 1);
      n := m + 1;
    case Enter(vm1) =>
      var m := RunIsFlat(p, vm1, fuel - 1);
      n := m + 1;
      if Run(p, vm1, fuel - 1).Back? {
        var m1 := RunIsFlat(p, Run(p, vm1, fuel - 1).vm, fuel - 1);
        StepsAdd(p, Running(vm1), m, m1);
        n := m + m1 + 1;
      }
    case Leave(_) => n := 1;
    case Stop(_) => n := 1;
    case Throw => n := 1;
  }

  ghost predicate Reaches(p: Program, vm: VM, st: State) {
    exists n: nat :: Steps(p, Running(vm), n) == st
  }

  ghost predicate Ends(p: Program, vm: VM, r: RunResult) {
    exists fuel: nat :: Run(p, vm, fuel) == r
  }

  /** At the top level, where no frame is left to return from, `run` stops or
      throws exactly when the flat machine does, and in the same state. */
  lemma TopLevelRun(p: Program, vm: VM, vm1: VM)
    requires vm.calls == []
    ensures Ends(p, vm, Stopped(vm1)) <==> Reaches(p, vm, Halted(vm1))
    ensures Ends(p, vm, Threw) <==> Reaches(p, vm, Fault)
  {
    hide Step, Dispatch;
    forall n: nat, st: State | Steps(p, Running(vm), n) == st && !st.Running?
      ensures Ends(p, vm, if st.Halted? then Stopped(st.vm) else Threw)
    {
      var m := RunIsFlat(p, vm, n + 1);
      NeverBack(p, vm, n + 1);
      SettledStays(p, Running(vm), m, n);
      assert Run(p, vm, n + 1) == if st.Halted? then Stopped(st.vm) else Threw;
    }
    forall fuel: nat, r: RunResult | Run(p, vm, fuel) == r && (r.Stopped? || r.Threw?)
      ensures Reaches(p, vm, if r.Stopped? then Halted(r.vm) else Fault)
    {
      var m := RunIsFlat(p, vm, fuel);
    }
  }

  lemma {:induction false} NeverBack(p: Program, vm: VM, fuel: nat)
    requires vm.calls == []
    ensures !Run(p, vm, fuel).Back?
    decreases fuel
  {
    hide Dispatch;
    DispatchFrames(p, vm);
    if fuel > 0 {
      match Dispatch(p, vm)
      case Next(vm1) => NeverBack(p, vm1, fuel - 1);
      case Enter(vm1) =>
        if Run(p, vm1, fuel - 1).Back? {
          RunBalanced(p, vm1, fuel - 1);
          NeverBack(p, Run(p, vm1, fuel - 1).vm, fuel - 1);
        }
      case _ =>
    }
  }

  /** Two step counts at which the machine has stopped give the same state. */
  lemma SettledStays(p: Program, st: State, m: nat, n: nat)
    ensures m <= n && !Steps(p, st, m).Running? ==> Steps(p, st, n) == Steps(p, st, m)
    ensures n <= m && !Steps(p, st, n).Running? ==> Steps(p, st, n) == Steps(p, st, m)
  {
    hide Step;
    if m <= n { StepsAdd(p, st, m, n - m); } else { StepsAdd(p, st, n, m - n); }
  }
}
