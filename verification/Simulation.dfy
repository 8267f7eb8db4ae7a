/** Compiled code does what the source says: every expression, statement and call
    of the evaluator is matched step for step by the machine, whether it ends with
    a value, fails, or runs out of fuel. */
module Simulation {
  import opened Values
  import opened Ast
  import opened Codegen
  import opened CodegenFacts
  import opened SourceSemantics
  import opened Bytecode
  import opened Machine

  /** A function of a loaded program: its number, where its code starts, and the
      finished emission it was linked from. */
  datatype Ctx = Ctx(p: Program, src: Source, k: nat, base: nat, fin: Emit)

  /** A linked instruction does what the emitted one stands for. */
  ghost predicate Realizes(p: Program, i: Instr, li: LInstr, pos: nat, labels: map<nat, nat>) {
    && i.known
    && match li
       case LoadI(a, v) => i.op == LOADINT && i.a == a && i.bx < |p.constants| && p.constants[i.bx] == v
       case LoadF(a, f) => i.op == LOADFUNC && i.a == a && i.bx == f && f < |p.funcs|
       case LoadNil(a) => i.op == LOADNIL && i.a == a
       case Move(a, b) => i.op == MOVE && i.a == a && i.b == b
       case NegI(a, b) => i.op == NEG && i.a == a && i.b == b
       case BinI(op, a, b, c) => BinaryOf(i.op) == Some(op) && i.a == a && i.b == b && i.c == c
       case AllocI(a, b) => i.op == ALLOC && i.a == a && i.b == b
       case GetI(a, b, c) => i.op == ARRGET && i.a == a && i.b == b && i.c == c
       case SetI(a, b, c) => i.op == ARRSET && i.a == a && i.b == b && i.c == c
       case Invoke(a, b, c) => i.op == INVOKEDYNAMIC && i.a == a && i.b == b && i.c == c
       case Ret(a) => i.op == RETURN && i.a == a
       case RetNil => i.op == RETURNNIL
       case Jmp(l) => i.op == JMP && l in labels && i.Sbx() == labels[l] - pos - 1
       case JmpT(a, l) => i.op == JMPT && i.a == a && l in labels && i.Sbx() == labels[l] - pos - 1
       case JmpF(a, l) => i.op == JMPF && i.a == a && l in labels && i.Sbx() == labels[l] - pos - 1
  }

  ghost predicate Loaded(p: Program, base: nat, em: Emit) {
    && base + |em.code| <= |p.code|
    && forall i | 0 <= i < |em.code| :: Realizes(p, p.code[base + i], em.code[i], i, em.labels)
  }

  /** Function `k` of the program was compiled from function `k` of the source. */
  ghost predicate LinkedAt(p: Program, src: Source, k: nat, uid: nat, em: Emit)
    requires k < |src| && k < |p.funcs|
  {
    && CompileFunction(src[k], FuncTable(src, k), uid) == Some(em)
    && p.funcs[k].arity == |src[k].params| && p.funcs[k].size == |em.code|
    && Loaded(p, p.funcs[k].entry, em)
  }

  ghost predicate LinkedFunction(p: Program, src: Source, k: nat)
    requires k < |src| && k < |p.funcs|
  {
    exists uid, em :: LinkedAt(p, src, k, uid, em)
  }

  ghost predicate Linked(p: Program, src: Source) {
    && |p.funcs| == |src|
    && forall k: nat | k < |src| :: LinkedFunction(p, src, k)
  }

  ghost predicate Ready(c: Ctx) {
    && c.k < |c.src| && Linked(c.p, c.src) && WellScoped(c.src)
    && Loaded(c.p, c.base, c.fin)
  }

  lemma InSource(c: Ctx)
    requires Ready(c)
    ensures c.k < |c.src|
  {
  }

  // ---- one emitted instruction ----

  function FromEvent(e: Event): State {
    match e
    case Next(vm) => Running(vm)
    case Enter(vm) => Running(vm)
    case Leave(vm) => Running(vm)
    case Stop(vm) => Halted(vm)
    case Throw => Fault
  }

  /** What an emitted instruction stands for. */
  function Effect(c: Ctx, li: LInstr, vm: VM): State {
    var next := vm.(ip := vm.ip + 1);
    match li
    case LoadI(a, v) => Running(next.SetReg(a, Int(v)))
    case LoadF(a, f) => Running(next.SetReg(a, Fun(f)))
    case LoadNil(a) => Running(next.SetReg(a, Nil))
    case Move(a, b) => Running(next.SetReg(a, vm.Reg(b)))
    case NegI(a, b) => FromEvent(Store(next, a, Negate(vm.Reg(b))))
    case BinI(op, a, b, d) => FromEvent(Store(next, a, Binary(op, vm.Reg(b), vm.Reg(d))))
    case AllocI(a, b) => FromEvent(StoreWithHeap(next, a, Alloc(vm.heap, vm.Reg(b))))
    case GetI(a, b, d) => FromEvent(StoreWithHeap(next, a, ArrGet(vm.heap, vm.Reg(b), vm.Reg(d))))
    case SetI(a, b, d) =>
      (match ArrSet(vm.heap, vm.Reg(a), vm.Reg(b), vm.Reg(d))
       case Some(h) => Running(next.(heap := h))
       case None => Fault)
    case Invoke(a, b, d) =>
      var f := vm.Reg(a);
      if f.Fun? then FromEvent(DoCall(c.p, next, f.fid, b, d)) else Fault
    case Ret(a) => FromEvent(DoReturn(next, vm.Reg(a)))
    case RetNil => FromEvent(DoReturn(next, Nil))
    case Jmp(l) => Running(GoTo(c, l, vm))
    case JmpT(a, l) => Running(if vm.Reg(a).Truthy() then GoTo(c, l, vm) else next)
    case JmpF(a, l) => Running(if vm.Reg(a).Truthy() then next else GoTo(c, l, vm))
  }

  function GoTo(c: Ctx, l: nat, vm: VM): VM {
    if l in c.fin.labels then vm.(ip := c.base + c.fin.labels[l]) else vm
  }

  lemma ExecuteRealizes(c: Ctx, i: Instr, pos: nat, vm: VM)
    requires pos < |c.fin.code| && vm.ip == c.base + pos
    requires Realizes(c.p, i, c.fin.code[pos], pos, c.fin.labels)
    ensures FromEvent(Execute(c.p, i, vm.(ip := vm.ip + 1))) == Effect(c, c.fin.code[pos], vm)
  {
    hide Execute, Effect, Realizes;
    if JumpLabel(c.fin.code[pos]).Some? {
      ExecuteJump(c, i, pos, vm);
    } else if InRegisters(c.fin.code[pos]) {
      ExecutePlain(c, i, pos, vm);
    } else {
      ExecuteHeap(c, i, pos, vm);
    }
  }

  lemma ExecuteJump(c: Ctx, i: Instr, pos: nat, vm: VM)
    requires pos < |c.fin.code| && vm.ip == c.base + pos && JumpLabel(c.fin.code[pos]).Some?
    requires Realizes(c.p, i, c.fin.code[pos], pos, c.fin.labels)
    ensures FromEvent(Execute(c.p, i, vm.(ip := vm.ip + 1))) == Effect(c, c.fin.code[pos], vm)
  {
    var next := vm.(ip := vm.ip + 1);
    assert forall r: nat :: next.Reg(r) == vm.Reg(r);
  }

  /** Instructions that only move or compute values. */
  predicate InRegisters(li: LInstr) {
    li.LoadI? || li.LoadF? || li.LoadNil? || li.Move? || li.NegI? || li.BinI?
  }

  lemma ExecutePlain(c: Ctx, i: Instr, pos: nat, vm: VM)
    requires pos < |c.fin.code| && vm.ip == c.base + pos && InRegisters(c.fin.code[pos])
    requires Realizes(c.p, i, c.fin.code[pos], pos, c.fin.labels)
    ensures FromEvent(Execute(c.p, i, vm.(ip := vm.ip + 1))) == Effect(c, c.fin.code[pos], vm)
  {
    hide Binary, Negate, Alloc, ArrGet, ArrSet, DoCall, DoReturn;
    var next := vm.(ip := vm.ip + 1);
    assert forall r: nat :: next.Reg(r) == vm.Reg(r);
  }

  lemma ExecuteHeap(c: Ctx, i: Instr, pos: nat, vm: VM)
    requires pos < |c.fin.code| && vm.ip == c.base + pos
    requires JumpLabel(c.fin.code[pos]).None? && !InRegisters(c.fin.code[pos])
    requires Realizes(c.p, i, c.fin.code[pos], pos, c.fin.labels)
    ensures FromEvent(Execute(c.p, i, vm.(ip := vm.ip + 1))) == Effect(c, c.fin.code[pos], vm)
  {
    hide Binary, Negate, Alloc, ArrGet, ArrSet, DoCall, DoReturn, VM.SetReg;
    var next := vm.(ip := vm.ip + 1);
    assert forall r: nat :: next.Reg(r) == vm.Reg(r);
  }

  lemma OneStep(c: Ctx, pos: nat, vm: VM)
    requires Ready(c) && pos < |c.fin.code| && vm.ip == c.base + pos
    ensures Steps(c.p, Running(vm), 1) == Effect(c, c.fin.code[pos], vm)
    ensures JumpLabel(c.fin.code[pos]).Some? ==> JumpLabel(c.fin.code[pos]).value in c.fin.labels
  {
    hide Execute, Effect, Realizes;
    var i := c.p.code[c.base + pos];
    ReadyAt(c, pos);
    ExecuteRealizes(c, i, pos, vm);
    assert Steps(c.p, Running(vm), 1) == Steps(c.p, Step(c.p, vm), 0);
  }

  lemma ReadyAt(c: Ctx, pos: nat)
    requires Ready(c) && pos < |c.fin.code|
    ensures c.base + pos < |c.p.code| && Realizes(c.p, c.p.code[c.base + pos], c.fin.code[pos], pos, c.fin.labels)
    ensures JumpLabel(c.fin.code[pos]).Some? ==> JumpLabel(c.fin.code[pos]).value in c.fin.labels
  {
  }

  // ---- machine states that match source states ----

  /** Every name in scope has its value in its register. */
  ghost predicate Holds(names: Names, env: Env, vm: VM) {
    forall x | x in names :: x in env && vm.Reg(names[x]) == env[x]
  }

  ghost predicate Agree(names: Names, env: Env, vm: VM) {
    env.Keys == names.Keys && Holds(names, env, vm)
  }

  /** The emission so far is part of the finished one. */
  ghost predicate Inside(em: Emit, fin: Emit) {
    && em.code <= fin.code
    && forall l | l in em.labels :: l in fin.labels && fin.labels[l] == em.labels[l]
  }

  /** Control is at position `pos` of the function, in the same frame, and no slot
      below `k` has changed. */
  ghost predicate At(c: Ctx, pos: nat, k: nat, vm: VM, vm1: VM) {
    && vm1.ip == c.base + pos && vm1.fp == vm.fp && vm1.calls == vm.calls
    && SameBelow(k, vm, vm1)
  }

  ghost predicate ExprDone(c: Ctx, r: ExprResult, end: nat, sp: nat, vm: VM, n: nat, fuel: nat) {
    var st := Steps(c.p, Running(vm), n);
    match r
    case Val(v, h) =>
      st.Running? && At(c, end, vm.fp + sp, vm, st.vm) && st.vm.heap == h && st.vm.Reg(sp) == v
    case ExprErr => st == Fault
    case ExprOut => n >= fuel && st.Running?
  }

  ghost predicate ArgsDone(c: Ctx, r: ArgsResult, end: nat, sp: nat, vm: VM, n: nat, fuel: nat) {
    var st := Steps(c.p, Running(vm), n);
    match r
    case Vals(vs, h) =>
      && st.Running? && At(c, end, vm.fp + sp, vm, st.vm) && st.vm.heap == h
      && forall i | 0 <= i < |vs| :: st.vm.Reg(sp + i) == vs[i]
    case ArgsErr => st == Fault
    case ArgsOut => n >= fuel && st.Running?
  }

  /** The state in which the callee starts. */
  function Entered(p: Program, vm: VM, f: Value, first: nat, count: nat): State {
    if f.Fun? then FromEvent(DoCall(p, vm, f.fid, first, count)) else Fault
  }

  /** The callee has returned to `vm` with its result in register `first`. */
  ghost predicate CallDone(p: Program, r: ExprResult, first: nat, vm: VM, st: State, n: nat, fuel: nat) {
    match r
    case Val(v, h) =>
      && st.Running? && st.vm.ip == vm.ip && st.vm.fp == vm.fp && st.vm.calls == vm.calls
      && SameBelow(vm.fp + first, vm, st.vm) && st.vm.heap == h && st.vm.Reg(first) == v
    case ExprErr => st == Fault
    case ExprOut => n + 1 >= fuel && st.Running?
  }

  /** `start` is the scope before the statement, `sc` the one after it. */
  ghost predicate StmtDone(c: Ctx, r: StmtResult, end: nat, start: Names, names: Names, brk: Option<nat>,
                           vm: VM, n: nat, fuel: nat) {
    var st := Steps(c.p, Running(vm), n);
    match r
    case Normal(env, h) =>
      st.Running? && At(c, end, vm.fp, vm, st.vm) && st.vm.heap == h && Agree(names, env, st.vm)
    case Broke(env, h) =>
      && brk.Some? && brk.value in c.fin.labels && st.Running?
      && At(c, c.fin.labels[brk.value], vm.fp, vm, st.vm) && st.vm.heap == h && Holds(start, env, st.vm)
    case Returned(v, h) =>
      && vm.calls != [] && st.Running? && st.vm.heap == h && st.vm.Get(vm.fp) == v && SameBelow(vm.fp, vm, st.vm)
      && var k := |vm.calls| - 1;
         st.vm.ip == vm.calls[k].retIp && st.vm.fp == vm.calls[k].basePtr && st.vm.calls == vm.calls[..k]
    case StmtErr => st == Fault
    case StmtOut => n >= fuel && st.Running?
  }

  lemma Chain(p: Program, vm: VM, m: nat, vm1: VM, n: nat)
    requires Steps(p, Running(vm), m) == Running(vm1)
    ensures Steps(p, Running(vm), m + n) == Steps(p, Running(vm1), n)
  {
    StepsAdd(p, Running(vm), m, n);
  }

  lemma KeptBelow(k: nat, i: nat, vm: VM, vm1: VM)
    requires SameBelow(k, vm, vm1) && i < k
    ensures vm1.Get(i) == vm.Get(i)
  {
  }

  lemma AgreeKept(names: Names, sp: nat, env: Env, vm: VM, vm1: VM)
    requires WfScope(Scope(names, sp)) && Agree(names, env, vm)
    requires vm1.fp == vm.fp && SameBelow(vm.fp + sp, vm, vm1)
    ensures Agree(names, env, vm1) && WfScope(Scope(names, sp + 1))
  {
  }

  // ---- expressions ----

  /** The value an instruction makes of two evaluated operands. */
  function Combine(e: Expr, v: Value, w: Value, h: Heap): ExprResult
    requires e.Bin? || e.Index?
  {
    if e.Bin? then (match Apply(e.op, v, w) case Some(x) => Val(x, h) case None => ExprErr)
    else (match ArrGet(h, v, w) case Some((x, h1)) => Val(x, h1) case None => ExprErr)
  }

  function CombineInstr(e: Expr, sp: nat): LInstr
    requires e.Bin? || e.Index?
  {
    if e.Bin? then OperatorInstr(e.op, sp) else GetI(sp, sp, sp + 1)
  }

  lemma CombineStep(c: Ctx, e: Expr, pos: nat, sp: nat, vm: VM, fuel: nat)
    requires e.Bin? || e.Index?
    requires Ready(c) && vm.ip == c.base + pos
    requires pos < |c.fin.code| && c.fin.code[pos] == CombineInstr(e, sp)
    ensures ExprDone(c, Combine(e, vm.Reg(sp), vm.Reg(sp + 1), vm.heap), pos + 1, sp, vm, 1, fuel)
  {
    hide Execute, Dispatch, Step, Steps, Linked, Loaded, WellScoped;
    OneStep(c, pos, vm);
  }

  /** Where a successful evaluation leaves the machine. */
  lemma ExprValue(c: Ctx, r: ExprResult, end: nat, sp: nat, vm: VM, n: nat, fuel: nat) returns (vm1: VM)
    requires r.Val? && ExprDone(c, r, end, sp, vm, n, fuel)
    ensures Steps(c.p, Running(vm), n) == Running(vm1)
    ensures At(c, end, vm.fp + sp, vm, vm1) && vm1.heap == r.heap && vm1.Reg(sp) == r.v
  {
    hide Steps;
    vm1 := Steps(c.p, Running(vm), n).vm;
  }

  /** One thing after another: the second starts where the first stopped. */
  lemma ExprThen(c: Ctx, mid: nat, k: nat, vm: VM, m: nat, vm1: VM, r: ExprResult, end: nat, sp: nat, n: nat, fuel: nat)
    requires Steps(c.p, Running(vm), m) == Running(vm1)
    requires At(c, mid, k, vm, vm1) && vm.fp + sp <= k
    requires ExprDone(c, r, end, sp, vm1, n, fuel)
    ensures ExprDone(c, r, end, sp, vm, m + n, fuel)
  {
    hide Step, Steps;
    Chain(c.p, vm, m, vm1, n);
  }

  lemma ExprFails(c: Ctx, r: ExprResult, end: nat, sp: nat, vm: VM, n: nat, fuel: nat, end1: nat, sp1: nat)
    requires !r.Val? && ExprDone(c, r, end, sp, vm, n, fuel)
    ensures ExprDone(c, r, end1, sp1, vm, n, fuel)
  {
    hide Steps;
  }

  /** Every expression: its value ends up in register `sp`. */
  lemma {:induction false} SimExpr(c: Ctx, e: Expr, code: Code, names: Names, sp: nat, env: Env, vm: VM, fuel: nat)
    returns (n: nat)
    requires Ready(c) && vm.ip == c.base + |code| && WfScope(Scope(names, sp)) && Agree(names, env, vm)
    requires var r := CompileExpr(e, code, names, sp, FuncTable(c.src, c.k)); r.Some? && r.value <= c.fin.code
    ensures ExprDone(c, EvalExpr(c.src, c.k, e, env, vm.heap, |vm.calls|, fuel),
                     |CompileExpr(e, code, names, sp, FuncTable(c.src, c.k)).value|, sp, vm, n, fuel)
    decreases fuel, 1, e, 1
  {
    hide Ready, Steps, EvalExpr, CompileExpr, FuncTable, WfScope, Agree, ExprDone;
    match e
    case Var(_) => n := 1; SimLeaf(c, e, code, names, sp, env, vm, fuel);
    case IntLit(_) => n := 1; SimLeaf(c, e, code, names, sp, env, vm, fuel);
    case Neg(_) => n := SimNeg(c, e, code, names, sp, env, vm, fuel);
    case Bin(_, l, r) => n := SimPair(c, e, l, r, code, names, sp, env, vm, fuel);
    case Index(b, i) => n := SimPair(c, e, b, i, code, names, sp, env, vm, fuel);
    case Call(_, _) => n := SimCallExpr(c, e, code, names, sp, env, vm, fuel);
  }

  lemma LoadDone(c: Ctx, v: Value, pos: nat, sp: nat, vm: VM, fuel: nat)
    requires Ready(c) && pos < |c.fin.code| && vm.ip == c.base + pos
    requires Effect(c, c.fin.code[pos], vm) == Running(vm.(ip := vm.ip + 1).SetReg(sp, v))
    ensures ExprDone(c, Val(v, vm.heap), pos + 1, sp, vm, 1, fuel)
  {
    hide Steps, Effect, Ready;
    OneStep(c, pos, vm);
  }

  lemma SimLeaf(c: Ctx, e: Expr, code: Code, names: Names, sp: nat, env: Env, vm: VM, fuel: nat)
    requires e.Var? || e.IntLit?
    requires Ready(c) && vm.ip == c.base + |code| && WfScope(Scope(names, sp)) && Agree(names, env, vm)
    requires var r := CompileExpr(e, code, names, sp, FuncTable(c.src, c.k)); r.Some? && r.value <= c.fin.code
    ensures ExprDone(c, EvalExpr(c.src, c.k, e, env, vm.heap, |vm.calls|, fuel),
                     |CompileExpr(e, code, names, sp, FuncTable(c.src, c.k)).value|, sp, vm, 1, fuel)
  {
    hide Steps, FuncTable, Linked, Loaded, WellScoped, Ready, ExprDone, VM.SetReg;
    InSource(c);
    match e
    case IntLit(n) => LoadDone(c, Int(Wrap32(n)), |code|, sp, vm, fuel);
    case Var(name) =>
      if name == "nil" {
        LoadDone(c, Nil, |code|, sp, vm, fuel);
      } else if name in names {
        LoadDone(c, env[name], |code|, sp, vm, fuel);
      } else {
        LoadDone(c, Fun(FuncTable(c.src, c.k)[name]), |code|, sp, vm, fuel);
      }
  }

  lemma NegUnfolds(c: Ctx, e: Expr, code: Code, names: Names, sp: nat, env: Env, heap: Heap, depth: nat, fuel: nat)
    requires e.Neg? && c.k < |c.src|
    ensures var res := EvalExpr(c.src, c.k, e.operand, env, heap, depth, fuel);
            EvalExpr(c.src, c.k, e, env, heap, depth, fuel) ==
            if !res.Val? then res else match Negate(res.v) case Some(w) => Val(w, res.heap) case None => ExprErr
    ensures var funcs := FuncTable(c.src, c.k);
            CompileExpr(e, code, names, sp, funcs).Some? ==>
              && CompileExpr(e.operand, code, names, sp, funcs).Some?
              && CompileExpr(e, code, names, sp, funcs).value == CompileExpr(e.operand, code, names, sp,
                 funcs).value + [NegI(sp, sp)]
  {
  }

  lemma {:induction false} SimNeg(c: Ctx, e: Expr, code: Code, names: Names, sp: nat, env: Env, vm: VM, fuel: nat)
    returns (n: nat)
    requires e.Neg?
    requires Ready(c) && vm.ip == c.base + |code| && WfScope(Scope(names, sp)) && Agree(names, env, vm)
    requires var r := CompileExpr(e, code, names, sp, FuncTable(c.src, c.k)); r.Some? && r.value <= c.fin.code
    ensures ExprDone(c, EvalExpr(c.src, c.k, e, env, vm.heap, |vm.calls|, fuel),
                     |CompileExpr(e, code, names, sp, FuncTable(c.src, c.k)).value|, sp, vm, n, fuel)
    decreases fuel, 1, e, 0
  {
    hide Steps, FuncTable, Ready, WellScoped, WfScope, Agree, CompileExpr, EvalExpr;
    InSource(c);
    NegUnfolds(c, e, code, names, sp, env, vm.heap, |vm.calls|, fuel);
    var c1 := CompileExpr(e.operand, code, names, sp, FuncTable(c.src, c.k)).value;
    n := SimExpr(c, e.operand, code, names, sp, env, vm, fuel);
    var res := EvalExpr(c.src, c.k, e.operand, env, vm.heap, |vm.calls|, fuel);
    if res.Val? {
      var vm1 := ExprValue(c, res, |c1|, sp, vm, n, fuel);
      OneStep(c, |c1|, vm1);
      Chain(c.p, vm, n, vm1, 1);
      n := n + 1;
    }
  }

  /** The definitions of the evaluator and the code generator for two operands. */
  lemma PairUnfolds(c: Ctx, e: Expr, l: Expr, r: Expr, code: Code, names: Names, sp: nat, env: Env,
                    heap: Heap, depth: nat, fuel: nat)
    requires c.k < |c.src|
    requires (e.Bin? && l == e.l && r == e.r) || (e.Index? && l == e.base && r == e.index)
    ensures var res := EvalExpr(c.src, c.k, l, env, heap, depth, fuel);
            var all := EvalExpr(c.src, c.k, e, env, heap, depth, fuel);
            && (!res.Val? ==> all == res)
            && (res.Val? ==>
                  var res2 := EvalExpr(c.src, c.k, r, env, res.heap, depth, fuel);
                  all == if res2.Val? then Combine(e, res.v, res2.v, res2.heap) else res2)
    ensures var funcs := FuncTable(c.src, c.k);
            CompileExpr(e, code, names, sp, funcs).Some? ==>
              && CompileExpr(l, code, names, sp, funcs).Some?
              && var c1 := CompileExpr(l, code, names, sp, funcs).value;
                 && CompileExpr(r, c1, names, sp + 1, funcs).Some?
                 && CompileExpr(e, code, names, sp, funcs).value
                      == CompileExpr(r, c1, names, sp + 1, funcs).value + [CombineInstr(e, sp)]
  {
  }

  /** Two operands in adjacent registers and one instruction that combines them. */
  lemma {:induction false} SimPair(c: Ctx, e: Expr, l: Expr, r: Expr, code: Code, names: Names, sp: nat, env: Env,
                                   vm: VM, fuel: nat) returns (n: nat)
    requires (e.Bin? && l == e.l && r == e.r) || (e.Index? && l == e.base && r == e.index)
    requires Ready(c) && vm.ip == c.base + |code| && WfScope(Scope(names, sp)) && Agree(names, env, vm)
    requires var r := CompileExpr(e, code, names, sp, FuncTable(c.src, c.k)); r.Some? && r.value <= c.fin.code
    ensures ExprDone(c, EvalExpr(c.src, c.k, e, env, vm.heap, |vm.calls|, fuel),
                     |CompileExpr(e, code, names, sp, FuncTable(c.src, c.k)).value|, sp, vm, n, fuel)
    decreases fuel, 1, e, 0
  {
    hide Ready, Steps, EvalExpr, CompileExpr, CombineInstr, Combine, WfScope, Agree, SameBelow, ExprDone;
    InSource(c);
    var funcs := FuncTable(c.src, c.k);
    var depth := |vm.calls|;
    PairUnfolds(c, e, l, r, code, names, sp, env, vm.heap, depth, fuel);
    var c1 := CompileExpr(l, code, names, sp, funcs).value;
    var c2 := CompileExpr(r, c1, names, sp + 1, funcs).value;
    assert c.fin.code[|c2|] == CombineInstr(e, sp);
    var res := EvalExpr(c.src, c.k, l, env, vm.heap, depth, fuel);
    n := SimExpr(c, l, code, names, sp, env, vm, fuel);
    if !res.Val? { ExprFails(c, res, |c1|, sp, vm, n, fuel, |c2| + 1, sp); return; }
    var vm1 := ExprValue(c, res, |c1|, sp, vm, n, fuel);
    AgreeKept(names, sp, env, vm, vm1);
    var res2 := EvalExpr(c.src, c.k, r, env, res.heap, depth, fuel);
    var m := SimExpr(c, r, c1, names, sp + 1, env, vm1, fuel);
    if res2.Val? {
      var vm2 := ExprValue(c, res2, |c2|, sp + 1, vm1, m, fuel);
      KeptBelow(vm1.fp + sp + 1, vm1.fp + sp, vm1, vm2);
      CombineStep(c, e, |c2|, sp, vm2, fuel);
      ExprThen(c, |c2|, vm1.fp + sp + 1, vm1, m, vm2, Combine(e, res.v, res2.v, res2.heap), |c2| + 1, sp, 1, fuel);
      m := m + 1;
    } else {
      ExprFails(c, res2, |c2|, sp + 1, vm1, m, fuel, |c2| + 1, sp);
    }
    ExprThen(c, |c1|, vm.fp + sp, vm, n, vm1, EvalExpr(c.src, c.k, e, env, vm.heap, depth, fuel), |c2| + 1, sp, m,
        fuel);
    n := n + m;
  }

  // ---- arguments and calls ----

  lemma ArgsUnfold(c: Ctx, args: seq<Expr>, code: Code, names: Names, sp: nat, env: Env, heap: Heap, depth: nat,
      fuel: nat)
    requires c.k < |c.src| && args != []
    ensures var res := EvalExpr(c.src, c.k, args[0], env, heap, depth, fuel);
            var all := EvalArgs(c.src, c.k, args, env, heap, depth, fuel);
            && (res.ExprErr? ==> all == ArgsErr)
            && (res.ExprOut? ==> all == ArgsOut)
            && (res.Val? ==>
                  var rest := EvalArgs(c.src, c.k, args[1..], env, res.heap, depth, fuel);
                  all == if rest.Vals? then Vals([res.v] + rest.vs, rest.heap) else rest)
    ensures var funcs := FuncTable(c.src, c.k);
            CompileArgs(args, code, names, sp, funcs).Some? ==>
              && CompileExpr(args[0], code, names, sp, funcs).Some?
              && CompileArgs(args, code, names, sp, funcs)
                   == CompileArgs(args[1..], CompileExpr(args[0], code, names, sp, funcs).value, names, sp + 1, funcs)
  {
  }

  lemma ArgsValues(c: Ctx, r: ArgsResult, end: nat, sp: nat, vm: VM, n: nat, fuel: nat) returns (vm1: VM)
    requires r.Vals? && ArgsDone(c, r, end, sp, vm, n, fuel)
    ensures Steps(c.p, Running(vm), n) == Running(vm1)
    ensures At(c, end, vm.fp + sp, vm, vm1) && vm1.heap == r.heap
    ensures forall i | 0 <= i < |r.vs| :: vm1.Reg(sp + i) == r.vs[i]
  {
    hide Steps;
    vm1 := Steps(c.p, Running(vm), n).vm;
  }

  /** The first argument, then the others. */
  lemma ArgsCons(c: Ctx, v: Value, mid: nat, sp: nat, vm: VM, m: nat, vm1: VM, rest: ArgsResult, end: nat, n: nat,
      fuel: nat)
    requires Steps(c.p, Running(vm), m) == Running(vm1)
    requires At(c, mid, vm.fp + sp, vm, vm1) && vm1.Reg(sp) == v
    requires ArgsDone(c, rest, end, sp + 1, vm1, n, fuel)
    ensures ArgsDone(c, if rest.Vals? then Vals([v] + rest.vs, rest.heap) else rest, end, sp, vm, m + n, fuel)
  {
    hide Steps;
    Chain(c.p, vm, m, vm1, n);
    if rest.Vals? {
      var vs := [v] + rest.vs;
      var vm2 := ArgsValues(c, rest, end, sp + 1, vm1, n, fuel);
      KeptBelow(vm1.fp + sp + 1, vm1.fp + sp, vm1, vm2);
      forall i | 0 <= i < |vs| ensures vm2.Reg(sp + i) == vs[i] {
        if i > 0 { assert vm2.Reg(sp + 1 + (i - 1)) == rest.vs[i - 1]; }
      }
    }
  }

  lemma {:induction false} SimArgs(c: Ctx, args: seq<Expr>, code: Code, names: Names, sp: nat, env: Env, vm: VM,
      fuel: nat)
    returns (n: nat)
    requires Ready(c) && vm.ip == c.base + |code| && WfScope(Scope(names, sp)) && Agree(names, env, vm)
    requires var r := CompileArgs(args, code, names, sp, FuncTable(c.src, c.k)); r.Some? && r.value <= c.fin.code
    ensures ArgsDone(c, EvalArgs(c.src, c.k, args, env, vm.heap, |vm.calls|, fuel),
                     |CompileArgs(args, code, names, sp, FuncTable(c.src, c.k)).value|, sp, vm, n, fuel)
    decreases fuel, 1, args, 0
  {
    hide Ready, Steps, EvalExpr, CompileExpr, EvalArgs, CompileArgs, FuncTable, WfScope, Agree, SameBelow, ExprDone,
        ArgsDone;
    InSource(c);
    var funcs := FuncTable(c.src, c.k);
    if args == [] {
      NoArgs(c, args, code, names, sp, env, vm, fuel);
      return 0;
    }
    ArgsUnfold(c, args, code, names, sp, env, vm.heap, |vm.calls|, fuel);
    var c1 := CompileExpr(args[0], code, names, sp, funcs).value;
    n := SimExpr(c, args[0], code, names, sp, env, vm, fuel);
    var res := EvalExpr(c.src, c.k, args[0], env, vm.heap, |vm.calls|, fuel);
    var end := |CompileArgs(args, code, names, sp, funcs).value|;
    if !res.Val? { ArgsFail(c, res, |c1|, sp, vm, n, fuel, end, sp); return; }
    var vm1 := ExprValue(c, res, |c1|, sp, vm, n, fuel);
    AgreeKept(names, sp, env, vm, vm1);
    var m := SimArgs(c, args[1..], c1, names, sp + 1, env, vm1, fuel);
    ArgsCons(c, res.v, |c1|, sp, vm, n, vm1, EvalArgs(c.src, c.k, args[1..], env, res.heap, |vm.calls|, fuel), end, m,
        fuel);
    n := n + m;
  }

  lemma NoArgs(c: Ctx, args: seq<Expr>, code: Code, names: Names, sp: nat, env: Env, vm: VM, fuel: nat)
    requires c.k < |c.src| && vm.ip == c.base + |code| && args == []
    ensures ArgsDone(c, EvalArgs(c.src, c.k, args, env, vm.heap, |vm.calls|, fuel),
                     |CompileArgs(args, code, names, sp, FuncTable(c.src, c.k)).value|, sp, vm, 0, fuel)
  {
  }

  lemma ArgsFail(c: Ctx, r: ExprResult, end: nat, sp: nat, vm: VM, n: nat, fuel: nat, end1: nat, sp1: nat)
    requires !r.Val? && ExprDone(c, r, end, sp, vm, n, fuel)
    ensures ArgsDone(c, if r.ExprErr? then ArgsErr else ArgsOut, end1, sp1, vm, n, fuel)
  {
    hide Steps;
  }

  lemma ArgsFailAll(c: Ctx, r: ArgsResult, end: nat, sp: nat, vm: VM, n: nat, fuel: nat, end1: nat, sp1: nat)
    requires !r.Vals? && ArgsDone(c, r, end, sp, vm, n, fuel)
    ensures ExprDone(c, if r.ArgsErr? then ExprErr else ExprOut, end1, sp1, vm, n, fuel)
  {
    hide Steps;
  }

  lemma CallUnfolds(c: Ctx, e: Expr, code: Code, names: Names, sp: nat, env: Env, heap: Heap, depth: nat, fuel: nat)
    requires c.k < |c.src| && e.Call? && e.callee != Var("array")
    ensures var fv := EvalExpr(c.src, c.k, e.callee, env, heap, depth, fuel);
            var all := EvalExpr(c.src, c.k, e, env, heap, depth, fuel);
            && (!fv.Val? ==> all == fv)
            && (fv.Val? ==>
                  var vs := EvalArgs(c.src, c.k, e.args, env, fv.heap, depth, fuel);
                  all == if vs.Vals? then CallFunction(c.src, fv.v, vs.vs, vs.heap, depth, fuel)
                         else if vs.ArgsErr? then ExprErr else ExprOut)
    ensures var funcs := FuncTable(c.src, c.k);
            CompileExpr(e, code, names, sp, funcs).Some? ==>
              && CompileExpr(e.callee, code, names, sp, funcs).Some?
              && var c1 := CompileExpr(e.callee, code, names, sp, funcs).value;
                 && CompileArgs(e.args, c1, names, sp + 1, funcs).Some?
                 && CompileExpr(e, code, names, sp, funcs).value
                      == CompileArgs(e.args, c1, names, sp + 1,
                          funcs).value + [Invoke(sp, sp + 1, |e.args|)] + [Move(sp, sp + 1)]
  {
  }

  lemma {:induction false} SimCallExpr(c: Ctx, e: Expr, code: Code, names: Names, sp: nat, env: Env, vm: VM, fuel: nat)
    returns (n: nat)
    requires e.Call?
    requires Ready(c) && vm.ip == c.base + |code| && WfScope(Scope(names, sp)) && Agree(names, env, vm)
    requires var r := CompileExpr(e, code, names, sp, FuncTable(c.src, c.k)); r.Some? && r.value <= c.fin.code
    ensures ExprDone(c, EvalExpr(c.src, c.k, e, env, vm.heap, |vm.calls|, fuel),
                     |CompileExpr(e, code, names, sp, FuncTable(c.src, c.k)).value|, sp, vm, n, fuel)
    decreases fuel, 1, e, 0
  {
    hide Ready, Steps, EvalExpr, CompileExpr, EvalArgs, CompileArgs, CallFunction, FuncTable, WfScope, Agree,
        SameBelow, ExprDone, ArgsDone;
    InSource(c);
    if e.callee == Var("array") {
      n := SimArray(c, e, code, names, sp, env, vm, fuel);
      return;
    }
    var funcs := FuncTable(c.src, c.k);
    var depth := |vm.calls|;
    CallUnfolds(c, e, code, names, sp, env, vm.heap, depth, fuel);
    var c1 := CompileExpr(e.callee, code, names, sp, funcs).value;
    var c2 := CompileArgs(e.args, c1, names, sp + 1, funcs).value;
    var all := EvalExpr(c.src, c.k, e, env, vm.heap, depth, fuel);
    var end := |c2| + 2;
    n := SimExpr(c, e.callee, code, names, sp, env, vm, fuel);
    var fv := EvalExpr(c.src, c.k, e.callee, env, vm.heap, depth, fuel);
    if !fv.Val? { ExprFails(c, fv, |c1|, sp, vm, n, fuel, end, sp); return; }
    var vm1 := ExprValue(c, fv, |c1|, sp, vm, n, fuel);
    AgreeKept(names, sp, env, vm, vm1);
    var m := SimArgs(c, e.args, c1, names, sp + 1, env, vm1, fuel);
    var vs := EvalArgs(c.src, c.k, e.args, env, fv.heap, depth, fuel);
    if !vs.Vals? {
      ArgsFailAll(c, vs, |c2|, sp + 1, vm1, m, fuel, end, sp);
    } else {
      var vm2 := ArgsValues(c, vs, |c2|, sp + 1, vm1, m, fuel);
      KeptBelow(vm1.fp + sp + 1, vm1.fp + sp, vm1, vm2);
      var m1 := SimInvoke(c, |c2|, fv.v, vs.vs, sp, vm2, fuel);
      ExprThen(c, |c2|, vm1.fp + sp + 1, vm1, m, vm2, all, end, sp, m1, fuel);
      m := m + m1;
    }
    ExprThen(c, |c1|, vm.fp + sp, vm, n, vm1, all, end, sp, m, fuel);
    n := n + m;
  }

  lemma ArrayUnfolds(c: Ctx, e: Expr, code: Code, names: Names, sp: nat, env: Env, heap: Heap, depth: nat, fuel: nat)
    requires c.k < |c.src| && e.Call? && e.callee == Var("array")
    ensures var vs := EvalArgs(c.src, c.k, e.args, env, heap, depth, fuel);
            var all := EvalExpr(c.src, c.k, e, env, heap, depth, fuel);
            if !vs.Vals? then all == (if vs.ArgsErr? then ExprErr else ExprOut)
            else if |e.args| != 1 || Alloc(vs.heap, vs.vs[0]).None? then all == ExprErr
            else all == Val(Alloc(vs.heap, vs.vs[0]).value.0, Alloc(vs.heap, vs.vs[0]).value.1)
    ensures var all := CompileExpr(e, code, names, sp, FuncTable(c.src, c.k));
            var c1 := CompileArgs(e.args, code, names, sp + 1, FuncTable(c.src, c.k));
            all.Some? ==> c1.Some? && |e.args| == 1 && all.value == c1.value + [AllocI(sp, sp + 1)]
  {
    hide FuncTable, CompileArgs, EvalArgs, Alloc;
  }

  /** `array(n)`. */
  lemma {:induction false} SimArray(c: Ctx, e: Expr, code: Code, names: Names, sp: nat, env: Env, vm: VM, fuel: nat)
    returns (n: nat)
    requires e.Call? && e.callee == Var("array")
    requires Ready(c) && vm.ip == c.base + |code| && WfScope(Scope(names, sp)) && Agree(names, env, vm)
    requires var r := CompileExpr(e, code, names, sp, FuncTable(c.src, c.k)); r.Some? && r.value <= c.fin.code
    ensures ExprDone(c, EvalExpr(c.src, c.k, e, env, vm.heap, |vm.calls|, fuel),
                     |CompileExpr(e, code, names, sp, FuncTable(c.src, c.k)).value|, sp, vm, n, fuel)
    decreases fuel, 1, e, 0, 0
  {
    hide Steps, FuncTable, Linked, Loaded, WellScoped, CompileArgs, EvalArgs, ArgsDone, CompileExpr, EvalExpr, Alloc;
    WiderScope(names, sp);
    ArrayUnfolds(c, e, code, names, sp, env, vm.heap, |vm.calls|, fuel);
    n := SimArgs(c, e.args, code, names, sp + 1, env, vm, fuel);
    var vs := EvalArgs(c.src, c.k, e.args, env, vm.heap, |vm.calls|, fuel);
    var c1 := CompileArgs(e.args, code, names, sp + 1, FuncTable(c.src, c.k)).value;
    if !vs.Vals? { ArgsFailAll(c, vs, |c1|, sp + 1, vm, n, fuel, |c1| + 1, sp); return; }
    var vm1 := ArgsValues(c, vs, |c1|, sp + 1, vm, n, fuel);
    assert vm1.Reg(sp + 1 + 0) == vs.vs[0];
    OneStep(c, |c1|, vm1);
    Chain(c.p, vm, n, vm1, 1);
    n := n + 1;
  }

  lemma WiderScope(names: Names, sp: nat)
    requires WfScope(Scope(names, sp))
    ensures WfScope(Scope(names, sp + 1))
  {
  }

  /** The call itself and the move of its result over the callee. */
  lemma {:induction false} SimInvoke(c: Ctx, pos: nat, fv: Value, vs: seq<Value>, sp: nat, vm: VM, fuel: nat)
    returns (n: nat)
    requires Ready(c) && vm.ip == c.base + pos && pos + 2 <= |c.fin.code|
    requires c.fin.code[pos] == Invoke(sp, sp + 1, |vs|) && c.fin.code[pos + 1] == Move(sp, sp + 1)
    requires vm.Reg(sp) == fv && forall i | 0 <= i < |vs| :: vm.Reg(sp + 1 + i) == vs[i]
    ensures ExprDone(c, CallFunction(c.src, fv, vs, vm.heap, |vm.calls|, fuel), pos + 2, sp, vm, n, fuel)
    decreases fuel, 0, 1
  {
    hide Steps, DoCall, Linked, Loaded, WellScoped, CallFunction;
    OneStep(c, pos, vm);
    var next := vm.(ip := vm.ip + 1);
    var st := Entered(c.p, next, fv, sp + 1, |vs|);
    assert Effect(c, c.fin.code[pos], vm) == st;
    forall i | 0 <= i < |vs| ensures next.Reg(sp + 1 + i) == vs[i] { assert vm.Reg(sp + 1 + i) == vs[i]; }
    var m := SimCall(c, fv, vs, sp + 1, next, fuel);
    StepsAdd(c.p, Running(vm), 1, m);
    n := 1 + m;
    if CallFunction(c.src, fv, vs, vm.heap, |vm.calls|, fuel).Val? {
      var vm1 := Steps(c.p, st, m).vm;
      OneStep(c, pos + 1, vm1);
      Chain(c.p, vm, n, vm1, 1);
      n := n + 1;
      var vm2 := vm1.(ip := vm1.ip + 1).SetReg(sp, vm1.Reg(sp + 1));
      forall i: nat | i < vm.fp + sp ensures vm2.Get(i) == vm.Get(i) {
        KeptBelow(next.fp + sp + 1, i, next, vm1);
      }
    }
  }

  lemma {:induction false} ParamsAgree(params: seq<string>, vs: seq<Value>, vm: VM)
    requires |params| == |vs| && Distinct(params)
    requires forall i | 0 <= i < |vs| :: vm.Reg(i) == vs[i]
    ensures Agree(ParamNames(params), BindParams(params, vs), vm)
  {
    if params != [] {
      var n := |params| - 1;
      ParamsAgree(params[..n], vs[..n], vm);
    }
  }

  /** A function body together with the implicit `return nil` behind it. */
  function BodyResult(r: StmtResult): StmtResult {
    if r.Normal? then Returned(Nil, r.heap) else r
  }

  lemma CallUnfold(src: Source, fv: Value, vs: seq<Value>, heap: Heap, depth: nat, fuel: nat)
    ensures var all := CallFunction(src, fv, vs, heap, depth, fuel);
            if !fv.Fun? || fv.fid >= |src| || |vs| != |src[fv.fid].params|
                || depth >= CALL_MAX_SIZE then
              all == ExprErr
            else if fuel == 0 then all == ExprOut
            else
              var f := src[fv.fid];
              var r := BodyResult(ExecStmts(src, fv.fid, f.body, BindParams(f.params, vs), heap, depth + 1, fuel - 1));
              && (r.Returned? ==> all == Val(r.v, r.heap))
              && (r.StmtOut? ==> all == ExprOut)
              && (r.StmtErr? ==> all == ExprErr)
  {
  }

  /** A call: the callee's window starts at the caller's register `first`. */
  lemma {:induction false} SimCall(c: Ctx, fv: Value, vs: seq<Value>, first: nat, vm: VM, fuel: nat) returns (n: nat)
    requires Ready(c)
    requires forall i | 0 <= i < |vs| :: vm.Reg(first + i) == vs[i]
    ensures CallDone(c.p, CallFunction(c.src, fv, vs, vm.heap, |vm.calls|, fuel), first, vm,
                     Steps(c.p, Entered(c.p, vm, fv, first, |vs|), n), n, fuel)
    decreases fuel, 0, 0
  {
    hide Loaded, FuncTable, CompileFunction, ExecStmts, ScopedAll, ParamNames, BindParams, CallFunction, StmtDone;
    n := 0;
    CallUnfold(c.src, fv, vs, vm.heap, |vm.calls|, fuel);
    if !fv.Fun? || fv.fid >= |c.src| { return; }
    var f := c.src[fv.fid];
    assert LinkedFunction(c.p, c.src, fv.fid);
    var uid, em :| LinkedAt(c.p, c.src, fv.fid, uid, em);
    if |vs| != |f.params| || |vm.calls| >= CALL_MAX_SIZE || fuel == 0 { return; }
    var c1 := Ctx(c.p, c.src, fv.fid, c.p.funcs[fv.fid].entry, em);
    var vm1 := Entered(c.p, vm, fv, first, |vs|).vm;
    forall i | 0 <= i < |vs| ensures vm1.Reg(i) == vs[i] { assert vm.Reg(first + i) == vs[i]; }
    n := SimFunction(c1, uid, vs, vm1, fuel - 1);
    var r := BodyResult(ExecStmts(c.src, fv.fid, f.body, BindParams(f.params, vs), vm.heap, |vm.calls| + 1, fuel - 1));
    CallReturns(c1, r, first, vm, vm1, n, fuel - 1);
  }

  lemma CallReturns(c: Ctx, r: StmtResult, first: nat, vm: VM, vm1: VM, n: nat, fuel: nat)
    requires StmtDone(c, r, 0, map[], map[], None, vm1, n, fuel) && !r.Normal?
    requires vm1.fp == vm.fp + first && SameBelow(vm1.fp, vm, vm1)
    requires |vm1.calls| == |vm.calls| + 1 && vm1.calls[..|vm.calls|] == vm.calls
    requires vm1.calls[|vm.calls|].retIp == vm.ip && vm1.calls[|vm.calls|].basePtr == vm.fp
    ensures !r.Broke?
    ensures r.Returned? ==> CallDone(c.p, Val(r.v, r.heap), first, vm, Steps(c.p, Running(vm1), n), n, fuel)
    ensures r.StmtErr? ==> CallDone(c.p, ExprErr, first, vm, Steps(c.p, Running(vm1), n), n, fuel)
    ensures r.StmtOut? ==> CallDone(c.p, ExprOut, first, vm, Steps(c.p, Running(vm1), n), n, fuel + 1)
  {
    hide Steps;
  }

  lemma {:induction false} SimFunction(c: Ctx, uid: nat, vs: seq<Value>, vm: VM, fuel: nat) returns (n: nat)
    requires Ready(c) && LinkedAt(c.p, c.src, c.k, uid, c.fin) && c.base == c.p.funcs[c.k].entry
    requires vm.ip == c.base && vm.calls != [] && |vs| == |c.src[c.k].params|
    requires forall i | 0 <= i < |vs| :: vm.Reg(i) == vs[i]
    ensures var f := c.src[c.k];
            StmtDone(c, BodyResult(ExecStmts(c.src, c.k, f.body, BindParams(f.params, vs), vm.heap, |vm.calls|, fuel)),
                     0, map[], map[], None, vm, n, fuel)
    decreases fuel, 1
  {
    hide Loaded, FuncTable, ExecStmts, CompileStmts, ParamNames, BindParams, StmtDone, ScopedAll, Steps, Agree, Linked;
    var f := c.src[c.k];
    var funcs := FuncTable(c.src, c.k);
    ParamFacts(f.params);
    ParamsAgree(f.params, vs, vm);
    var sc := Scope(ParamNames(f.params), |f.params|);
    var em0 := Emit([], map[], uid);
    var (em, sc1) := CompileStmts(f.body, em0, sc, funcs, None).value;
    var env := BindParams(f.params, vs);
    n := SimStmts(c, f.body, em0, sc, None, env, vm, fuel);
    var r := ExecStmts(c.src, c.k, f.body, env, vm.heap, |vm.calls|, fuel);
    if r.Normal? {
      var vm1 := StmtNormal(c, r, |em.code|, sc.names, sc1.names, None, vm, n, fuel);
      OneStep(c, |em.code|, vm1);
      Chain(c.p, vm, n, vm1, 1);
      n := n + 1;
      NilReturned(c, r.heap, vm, vm1, n, fuel);
    } else {
      StmtFails(c, r, |em.code|, sc.names, sc1.names, vm, n, fuel);
    }
  }

  lemma NilReturned(c: Ctx, h: Heap, vm: VM, vm1: VM, n: nat, fuel: nat)
    requires vm.calls != [] && vm1.calls == vm.calls && vm1.fp == vm.fp && SameBelow(vm.fp, vm, vm1) && vm1.heap == h
    requires Steps(c.p, Running(vm), n) == Effect(c, RetNil, vm1)
    ensures StmtDone(c, Returned(Nil, h), 0, map[], map[], None, vm, n, fuel)
  {
    hide Steps;
  }

  // ---- statements ----

  lemma StmtNormal(c: Ctx, r: StmtResult, end: nat, start: Names, names: Names, brk: Option<nat>, vm: VM, n: nat,
      fuel: nat)
    returns (vm1: VM)
    requires r.Normal? && StmtDone(c, r, end, start, names, brk, vm, n, fuel)
    ensures Steps(c.p, Running(vm), n) == Running(vm1)
    ensures At(c, end, vm.fp, vm, vm1) && vm1.heap == r.heap && Agree(names, r.env, vm1)
  {
    hide Steps;
    vm1 := Steps(c.p, Running(vm), n).vm;
  }

  /** An outcome that does not fall through to the next statement. */
  lemma StmtFails(c: Ctx, r: StmtResult, end: nat, start: Names, names: Names, vm: VM, n: nat, fuel: nat)
    requires !r.Normal? && StmtDone(c, r, end, start, names, None, vm, n, fuel)
    ensures forall end1, start1, names1 ::
              StmtDone(c, r, end1, start1, names1, None, vm, n, fuel)
  {
    hide Steps;
  }

  /** One statement after another. */
  lemma StmtThen(c: Ctx, mid: nat, k: nat, vm: VM, m: nat, vm1: VM, r: StmtResult, end: nat, start: Names,
      start1: Names,
                 names: Names, brk: Option<nat>, n: nat, fuel: nat)
    requires Steps(c.p, Running(vm), m) == Running(vm1)
    requires At(c, mid, k, vm, vm1) && vm.fp <= k && SubNames(start, start1)
    requires StmtDone(c, r, end, start1, names, brk, vm1, n, fuel)
    ensures StmtDone(c, r, end, start, names, brk, vm, m + n, fuel)
  {
    hide Step, Steps;
    Chain(c.p, vm, m, vm1, n);
  }

  lemma StmtBreaks(c: Ctx, r: StmtResult, end: nat, start: Names, names: Names, brk: Option<nat>, vm: VM, n: nat,
      fuel: nat,
                   end1: nat, names1: Names)
    requires !r.Normal? && StmtDone(c, r, end, start, names, brk, vm, n, fuel)
    ensures StmtDone(c, r, end1, start, names1, brk, vm, n, fuel)
  {
    hide Steps;
  }

  lemma StmtFromExpr(c: Ctx, r: ExprResult, end: nat, sp: nat, vm: VM, n: nat, fuel: nat,
                     end1: nat, start: Names, names: Names, brk: Option<nat>)
    requires !r.Val? && ExprDone(c, r, end, sp, vm, n, fuel)
    ensures StmtDone(c, if r.ExprErr? then StmtErr else StmtOut, end1, start, names, brk, vm, n, fuel)
  {
    hide Steps;
  }

  lemma StmtsUnfold(c: Ctx, ss: seq<Stmt>, em: Emit, sc: Scope, brk: Option<nat>, env: Env, heap: Heap, depth: nat,
      fuel: nat)
    requires c.k < |c.src| && ss != []
    ensures var r := ExecStmt(c.src, c.k, ss[0], env, heap, depth, fuel);
            ExecStmts(c.src, c.k, ss, env, heap, depth, fuel)
              == if r.Normal? then ExecStmts(c.src, c.k, ss[1..], r.env, r.heap, depth, fuel) else r
    ensures var funcs := FuncTable(c.src, c.k);
            CompileStmts(ss, em, sc, funcs, brk).Some? ==>
              && CompileStmt(ss[0], em, sc, funcs, brk).Some?
              && var (em1, sc1) := CompileStmt(ss[0], em, sc, funcs, brk).value;
                 CompileStmts(ss, em, sc, funcs, brk) == CompileStmts(ss[1..], em1, sc1, funcs, brk)
    ensures forall names :: ScopedAll(ss, names) ==> Scoped(ss[0], names) && ScopedAll(ss[1..], Declared(ss[0], names))
  {
  }

  lemma NoStmts(c: Ctx, ss: seq<Stmt>, em: Emit, sc: Scope, brk: Option<nat>, env: Env, vm: VM, fuel: nat)
    requires c.k < |c.src| && ss == [] && vm.ip == c.base + |em.code| && Agree(sc.names, env, vm)
    ensures var (em1, sc1) := CompileStmts(ss, em, sc, FuncTable(c.src, c.k), brk).value;
            StmtDone(c, ExecStmts(c.src, c.k, ss, env, vm.heap, |vm.calls|, fuel), |em1.code|, sc.names, sc1.names,
                brk, vm, 0, fuel)
  {
  }

  /** The emission grew into one that is inside the finished function. */
  lemma InsideEarlier(em: Emit, em1: Emit, fin: Emit)
    requires Grows(em, em1) && Inside(em1, fin)
    ensures Inside(em, fin)
  {
  }

  /** What a statement starts from: the machine stands at the end of the code
      emitted so far and the registers agree with the environment. */
  ghost predicate Before(c: Ctx, em: Emit, sc: Scope, brk: Option<nat>, env: Env, vm: VM) {
    && Ready(c) && vm.ip == c.base + |em.code| && vm.calls != []
    && WfScope(sc) && Agree(sc.names, env, vm)
    && WfEmit(em) && Reserved(brk, em)
    && (brk.Some? ==> brk.value in c.fin.labels)
  }

  lemma BeforeNext(c: Ctx, em: Emit, sc: Scope, brk: Option<nat>, env: Env, vm: VM, em1: Emit, sc1: Scope, env1: Env,
      vm1: VM)
    requires Before(c, em, sc, brk, env, vm)
    requires Grows(em, em1) && WfEmit(em1) && Widened(sc, sc1) && At(c, |em1.code|, vm.fp, vm, vm1)
    requires Agree(sc1.names, env1, vm1)
    ensures Before(c, em1, sc1, brk, env1, vm1)
  {
    hide Ready, Agree;
  }

  lemma ReservedKept(brk: Option<nat>, em: Emit, em1: Emit)
    requires Reserved(brk, em) && Grows(em, em1)
    ensures Reserved(brk, em1)
  {
  }

  lemma {:induction false} SimStmts(c: Ctx, ss: seq<Stmt>, em: Emit, sc: Scope, brk: Option<nat>, env: Env, vm: VM,
      fuel: nat)
    returns (n: nat)
    requires Before(c, em, sc, brk, env, vm) && ScopedAll(ss, sc.names.Keys)
    requires CompileStmts(ss, em, sc, FuncTable(c.src, c.k), brk).Some?
    requires Inside(CompileStmts(ss, em, sc, FuncTable(c.src, c.k), brk).value.0, c.fin)
    ensures var (em1, sc1) := CompileStmts(ss, em, sc, FuncTable(c.src, c.k), brk).value;
            StmtDone(c, ExecStmts(c.src, c.k, ss, env, vm.heap, |vm.calls|, fuel), |em1.code|, sc.names, sc1.names,
                brk, vm, n, fuel)
    decreases fuel, 1, ss, 0
  {
    hide Steps, Ready, Agree, WfScope, WfEmit, Reserved, FuncTable, ExecStmt, ExecStmts, CompileStmt, CompileStmts,
         Scoped, ScopedAll, Declared, StmtDone, Inside, Grows, Targeted, SubNames, SourceSemantics.DeclaredByAll;
    InSource(c);
    var funcs := FuncTable(c.src, c.k);
    if ss == [] { NoStmts(c, ss, em, sc, brk, env, vm, fuel); return 0; }
    StmtsUnfold(c, ss, em, sc, brk, env, vm.heap, |vm.calls|, fuel);
    var (em1, sc1) := CompileStmt(ss[0], em, sc, funcs, brk).value;
    var (em2, sc2) := CompileStmts(ss, em, sc, funcs, brk).value;
    StmtFacts(ss[0], em, sc, funcs, brk);
    ReservedKept(brk, em, em1);
    StmtsFacts(ss[1..], em1, sc1, funcs, brk);
    InsideEarlier(em1, em2, c.fin);
    n := SimStmt(c, ss[0], em, sc, brk, env, vm, fuel);
    var r := ExecStmt(c.src, c.k, ss[0], env, vm.heap, |vm.calls|, fuel);
    if r.Normal? {
      var vm1 := StmtNormal(c, r, |em1.code|, sc.names, sc1.names, brk, vm, n, fuel);
      BeforeNext(c, em, sc, brk, env, vm, em1, sc1, r.env, vm1);
      var m := SimStmts(c, ss[1..], em1, sc1, brk, r.env, vm1, fuel);
      StmtThen(c, |em1.code|, vm.fp, vm, n, vm1, ExecStmts(c.src, c.k, ss, env, vm.heap, |vm.calls|, fuel),
               |em2.code|, sc.names, sc1.names, sc2.names, brk, m, fuel);
      n := n + m;
    } else {
      StmtBreaks(c, r, |em1.code|, sc.names, sc1.names, brk, vm, n, fuel, |em2.code|, sc2.names);
    }
  }

  lemma {:induction false} SimStmt(c: Ctx, s: Stmt, em: Emit, sc: Scope, brk: Option<nat>, env: Env, vm: VM, fuel: nat)
    returns (n: nat)
    requires Before(c, em, sc, brk, env, vm) && Scoped(s, sc.names.Keys)
    requires CompileStmt(s, em, sc, FuncTable(c.src, c.k), brk).Some?
    requires Inside(CompileStmt(s, em, sc, FuncTable(c.src, c.k), brk).value.0, c.fin)
    ensures var (em1, sc1) := CompileStmt(s, em, sc, FuncTable(c.src, c.k), brk).value;
            StmtDone(c, ExecStmt(c.src, c.k, s, env, vm.heap, |vm.calls|, fuel), |em1.code|, sc.names, sc1.names, brk,
                vm, n, fuel)
    decreases fuel, 1, s, 4
  {
    hide Steps, Ready, Agree, WfScope, WfEmit, Reserved, FuncTable, Inside, StmtDone, Before, Scoped, ExecStmt,
        CompileStmt;
    match s
    case Do(_) => n := SimDo(c, s, em, sc, brk, env, vm, fuel);
    case Break => n := 1; SimBreak(c, s, em, sc, brk, env, vm, fuel);
    case Return(_) => n := SimReturn(c, s, em, sc, brk, env, vm, fuel);
    case If(_, _, _) => n := SimIf(c, s, em, sc, brk, env, vm, fuel);
    case While(_, _) => n := SimWhile(c, s, em, sc, brk, env, vm, fuel);
    case For(_, _, _, _) => n := SimFor(c, s, em, sc, brk, env, vm, fuel);
  }

  lemma SimBreak(c: Ctx, s: Stmt, em: Emit, sc: Scope, brk: Option<nat>, env: Env, vm: VM, fuel: nat)
    requires s.Break? && Before(c, em, sc, brk, env, vm)
    requires CompileStmt(s, em, sc, FuncTable(c.src, c.k), brk).Some?
    requires Inside(CompileStmt(s, em, sc, FuncTable(c.src, c.k), brk).value.0, c.fin)
    ensures StmtDone(c, Broke(env, vm.heap), 0, sc.names, sc.names, brk, vm, 1, fuel)
    ensures var (em1, sc1) := CompileStmt(s, em, sc, FuncTable(c.src, c.k), brk).value;
            StmtDone(c, ExecStmt(c.src, c.k, s, env, vm.heap, |vm.calls|, fuel), |em1.code|, sc.names, sc1.names, brk,
                vm, 1, fuel)
  {
    hide Steps, Loaded, Linked, WellScoped, WfScope, WfEmit, FuncTable;
    OneStep(c, |em.code|, vm);
  }

  lemma ReturnUnfolds(c: Ctx, s: Stmt, em: Emit, sc: Scope, brk: Option<nat>, env: Env, heap: Heap, depth: nat,
      fuel: nat)
    requires c.k < |c.src| && s.Return?
    ensures var res := EvalExpr(c.src, c.k, s.e, env, heap, depth, fuel);
            ExecStmt(c.src, c.k, s, env, heap, depth, fuel) ==
            if res.Val? then Returned(res.v, res.heap) else if res.ExprErr? then StmtErr else StmtOut
    ensures var c1 := CompileExpr(s.e, em.code, sc.names, sc.sp, FuncTable(c.src, c.k));
            CompileStmt(s, em, sc, FuncTable(c.src, c.k), brk) ==
            if c1.Some? then Some((em.(code := c1.value + [Ret(sc.sp)]), sc)) else None
  {
    hide EvalExpr, CompileExpr, FuncTable;
  }

  lemma {:induction false} SimReturn(c: Ctx, s: Stmt, em: Emit, sc: Scope, brk: Option<nat>, env: Env, vm: VM,
      fuel: nat)
    returns (n: nat)
    requires s.Return? && Before(c, em, sc, brk, env, vm)
    requires CompileStmt(s, em, sc, FuncTable(c.src, c.k), brk).Some?
    requires Inside(CompileStmt(s, em, sc, FuncTable(c.src, c.k), brk).value.0, c.fin)
    ensures var (em1, sc1) := CompileStmt(s, em, sc, FuncTable(c.src, c.k), brk).value;
            StmtDone(c, ExecStmt(c.src, c.k, s, env, vm.heap, |vm.calls|, fuel), |em1.code|, sc.names, sc1.names, brk,
                vm, n, fuel)
    decreases fuel, 1, s, 3
  {
    hide Steps, Loaded, Linked, WellScoped, WfScope, WfEmit, FuncTable, EvalExpr, CompileExpr, Agree, ExprDone,
        CompileStmt, ExecStmt;
    ReturnUnfolds(c, s, em, sc, brk, env, vm.heap, |vm.calls|, fuel);
    var c1 := CompileExpr(s.e, em.code, sc.names, sc.sp, FuncTable(c.src, c.k)).value;
    n := SimExpr(c, s.e, em.code, sc.names, sc.sp, env, vm, fuel);
    var res := EvalExpr(c.src, c.k, s.e, env, vm.heap, |vm.calls|, fuel);
    if res.Val? {
      var vm1 := ExprValue(c, res, |c1|, sc.sp, vm, n, fuel);
      OneStep(c, |c1|, vm1);
      Chain(c.p, vm, n, vm1, 1);
      n := n + 1;
    } else {
      StmtFromExpr(c, res, |c1|, sc.sp, vm, n, fuel, |c1| + 1, sc.names, sc.names, brk);
    }
  }

  lemma {:induction false} SimDo(c: Ctx, s: Stmt, em: Emit, sc: Scope, brk: Option<nat>, env: Env, vm: VM, fuel: nat)
    returns (n: nat)
    requires s.Do? && Before(c, em, sc, brk, env, vm)
    requires CompileStmt(s, em, sc, FuncTable(c.src, c.k), brk).Some?
    requires Inside(CompileStmt(s, em, sc, FuncTable(c.src, c.k), brk).value.0, c.fin)
    ensures var (em1, sc1) := CompileStmt(s, em, sc, FuncTable(c.src, c.k), brk).value;
            StmtDone(c, ExecStmt(c.src, c.k, s, env, vm.heap, |vm.calls|, fuel), |em1.code|, sc.names, sc1.names, brk,
                vm, n, fuel)
    decreases fuel, 1, s, 3
  {
    hide Steps, Ready, WfScope, WfEmit, FuncTable, ExecSimple, CompileSimple, Agree, StmtDone;
    InSource(c);
    n := SimSimple(c, s.simple, em.code, sc, env, vm, fuel);
    var (c1, sc1) := CompileSimple(s.simple, em.code, sc, FuncTable(c.src, c.k)).value;
    NoBreakOut(c, ExecSimple(c.src, c.k, s.simple, env, vm.heap, |vm.calls|, fuel), |c1|, sc.names, sc1.names, brk,
        vm, n, fuel);
  }

  /** What never breaks out may stand anywhere. */
  lemma NoBreakOut(c: Ctx, r: StmtResult, end: nat, start: Names, names: Names, brk: Option<nat>, vm: VM, n: nat,
      fuel: nat)
    requires StmtDone(c, r, end, start, names, None, vm, n, fuel)
    ensures StmtDone(c, r, end, start, names, brk, vm, n, fuel)
  {
    hide Steps, Agree;
  }

  // ---- assignments ----

  lemma {:induction false} SimSimple(c: Ctx, s: Simple, code: Code, sc: Scope, env: Env, vm: VM, fuel: nat)
    returns (n: nat)
    requires Ready(c) && vm.ip == c.base + |code| && WfScope(sc) && Agree(sc.names, env, vm)
    requires CompileSimple(s, code, sc, FuncTable(c.src, c.k)).Some?
    requires CompileSimple(s, code, sc, FuncTable(c.src, c.k)).value.0 <= c.fin.code
    ensures var (c1, sc1) := CompileSimple(s, code, sc, FuncTable(c.src, c.k)).value;
            StmtDone(c, ExecSimple(c.src, c.k, s, env, vm.heap, |vm.calls|, fuel), |c1|, sc.names, sc1.names, None,
                vm, n, fuel)
    decreases fuel, 1, s, 1
  {
    hide Steps, Ready, WfScope, Agree, FuncTable, CompileSimple, ExecSimple, StmtDone;
    if s.Eval? {
      n := SimEval(c, s, code, sc, env, vm, fuel);
    } else if s.lhs.Index? {
      n := SimAssignElement(c, s, code, sc, env, vm, fuel);
    } else {
      n := SimAssignVar(c, s, code, sc, env, vm, fuel);
    }
  }

  lemma {:induction false} SimEval(c: Ctx, s: Simple, code: Code, sc: Scope, env: Env, vm: VM, fuel: nat)
    returns (n: nat)
    requires s.Eval?
    requires Ready(c) && vm.ip == c.base + |code| && WfScope(sc) && Agree(sc.names, env, vm)
    requires CompileSimple(s, code, sc, FuncTable(c.src, c.k)).Some?
    requires CompileSimple(s, code, sc, FuncTable(c.src, c.k)).value.0 <= c.fin.code
    ensures var (c1, sc1) := CompileSimple(s, code, sc, FuncTable(c.src, c.k)).value;
            StmtDone(c, ExecSimple(c.src, c.k, s, env, vm.heap, |vm.calls|, fuel), |c1|, sc.names, sc1.names, None,
                vm, n, fuel)
    decreases fuel, 1, s, 0
  {
    hide Steps, Linked, Loaded, WellScoped, FuncTable, EvalExpr, CompileExpr, ExprDone, Agree;
    n := SimExpr(c, s.e, code, sc.names, sc.sp, env, vm, fuel);
    var c1 := CompileExpr(s.e, code, sc.names, sc.sp, FuncTable(c.src, c.k)).value;
    var res := EvalExpr(c.src, c.k, s.e, env, vm.heap, |vm.calls|, fuel);
    if res.Val? {
      var vm1 := ExprValue(c, res, |c1|, sc.sp, vm, n, fuel);
      AgreeKept(sc.names, sc.sp, env, vm, vm1);
    } else {
      StmtFromExpr(c, res, |c1|, sc.sp, vm, n, fuel, |c1|, sc.names, sc.names, None);
    }
  }

  /** Assigning a register that holds a variable changes that variable only. */
  lemma AgreeAssigned(sc: Scope, x: string, v: Value, env: Env, vm: VM, vm1: VM)
    requires WfScope(sc) && x in sc.names && Agree(sc.names, env, vm)
    requires vm1.fp == vm.fp && vm1.stack == vm.SetReg(sc.names[x], v).stack
    ensures Agree(sc.names, env[x := v], vm1) && SameBelow(vm.fp, vm, vm1)
  {
  }

  /** A new variable takes over the register its value was computed in. */
  lemma AgreeDeclared(sc: Scope, x: string, env: Env, vm: VM)
    requires WfScope(sc) && x !in sc.names && Agree(sc.names, env, vm)
    ensures Agree(sc.names[x := sc.sp], env[x := vm.Reg(sc.sp)], vm)
  {
  }

  lemma UpdateStep(c: Ctx, aop: AssignOp, code: Code, sc: Scope, x: string, env: Env, vm: VM, fuel: nat)
    requires Ready(c) && vm.ip == c.base + |code| && WfScope(sc) && Agree(sc.names, env, vm) && x in sc.names
    requires EmitUpdate(aop, code, sc.names[x], sc.sp) <= c.fin.code
    ensures var r := match Update(aop, env[x], vm.Reg(sc.sp)) case Some(w) => Normal(env[x := w],
              vm.heap) case None => StmtErr;
            StmtDone(c, r, |code| + 1, sc.names, sc.names, None, vm, 1, fuel)
    ensures |EmitUpdate(aop, code, sc.names[x], sc.sp)| == |code| + 1
  {
    hide Steps, Linked, Loaded, WellScoped, SameBelow, Execute, Binary;
    OneStep(c, |code|, vm);
    var w := Update(aop, env[x], vm.Reg(sc.sp));
    if w.Some? {
      var vm1 := vm.(ip := vm.ip + 1).SetReg(sc.names[x], w.value);
      AgreeAssigned(sc, x, w.value, env, vm, vm1);
      assert Steps(c.p, Running(vm), 1) == Running(vm1);
    }
  }

  lemma {:induction false} SimAssignVar(c: Ctx, s: Simple, code: Code, sc: Scope, env: Env, vm: VM, fuel: nat)
    returns (n: nat)
    requires s.Assign? && !s.lhs.Index?
    requires Ready(c) && vm.ip == c.base + |code| && WfScope(sc) && Agree(sc.names, env, vm)
    requires CompileSimple(s, code, sc, FuncTable(c.src, c.k)).Some?
    requires CompileSimple(s, code, sc, FuncTable(c.src, c.k)).value.0 <= c.fin.code
    ensures var (c1, sc1) := CompileSimple(s, code, sc, FuncTable(c.src, c.k)).value;
            StmtDone(c, ExecSimple(c.src, c.k, s, env, vm.heap, |vm.calls|, fuel), |c1|, sc.names, sc1.names, None,
                vm, n, fuel)
    decreases fuel, 1, s, 0
  {
    hide Steps, Linked, Loaded, WellScoped, FuncTable, EvalExpr, CompileExpr, ExprDone, Update, WfScope, Holds,
        EmitUpdate, StmtDone;
    var (end, sc1) := CompileSimple(s, code, sc, FuncTable(c.src, c.k)).value;
    var all := ExecSimple(c.src, c.k, s, env, vm.heap, |vm.calls|, fuel);
    n := SimExpr(c, s.rhs, code, sc.names, sc.sp, env, vm, fuel);
    var c1 := CompileExpr(s.rhs, code, sc.names, sc.sp, FuncTable(c.src, c.k)).value;
    var res := EvalExpr(c.src, c.k, s.rhs, env, vm.heap, |vm.calls|, fuel);
    if !res.Val? { StmtFromExpr(c, res, |c1|, sc.sp, vm, n, fuel, |end|, sc.names, sc1.names, None); return; }
    var vm1 := ExprValue(c, res, |c1|, sc.sp, vm, n, fuel);
    AgreeKept(sc.names, sc.sp, env, vm, vm1);
    if s.lhs.Var? && s.lhs.name in sc.names {
      UpdateStep(c, s.aop, c1, sc, s.lhs.name, env, vm1, fuel);
      StmtThen(c, |c1|, vm.fp + sc.sp, vm, n, vm1, all, |end|, sc.names, sc.names, sc1.names, None, 1, fuel);
      n := n + 1;
    } else if s.lhs.Var? {
      AgreeDeclared(sc, s.lhs.name, env, vm1);
      NormalHere(c, all, |c1|, sc.names, sc1.names, vm, n, vm1, fuel);
    } else {
      NormalHere(c, all, |c1|, sc.names, sc1.names, vm, n, vm1, fuel);
    }
  }

  lemma NormalHere(c: Ctx, r: StmtResult, end: nat, start: Names, names: Names, vm: VM, n: nat, vm1: VM, fuel: nat)
    requires r.Normal? && Steps(c.p, Running(vm), n) == Running(vm1) && r.heap == vm1.heap
    requires vm1.ip == c.base + end && vm1.fp == vm.fp && vm1.calls == vm.calls && SameBelow(vm.fp, vm, vm1)
    requires Agree(names, r.env, vm1)
    ensures StmtDone(c, r, end, start, names, None, vm, n, fuel)
  {
    hide Steps, Agree, SameBelow;
  }

  /** The store has gone through to position `end`, or it has failed. */
  ghost predicate Stored(c: Ctx, r: Option<Heap>, end: nat, k: nat, vm: VM, n: nat) {
    var st := Steps(c.p, Running(vm), n);
    match r
    case None => st == Fault
    case Some(h) => st.Running? && st.vm.heap == h && At(c, end, k, vm, st.vm)
  }

  lemma StoredLater(c: Ctx, r: Option<Heap>, end: nat, k: nat, vm: VM, m: nat, vm1: VM, n: nat)
    requires Steps(c.p, Running(vm), m) == Running(vm1)
    requires vm1.fp == vm.fp && vm1.calls == vm.calls && SameBelow(k, vm, vm1) && Stored(c, r, end, k, vm1, n)
    ensures Stored(c, r, end, k, vm, m + n)
  {
    hide Steps;
    Chain(c.p, vm, m, vm1, n);
  }

  lemma SetStep(c: Ctx, pos: nat, a: nat, b: nat, d: nat, k: nat, vm: VM)
    requires Ready(c) && vm.ip == c.base + pos && pos < |c.fin.code| && c.fin.code[pos] == SetI(a, b, d)
    ensures Stored(c, ArrSet(vm.heap, vm.Reg(a), vm.Reg(b), vm.Reg(d)), pos + 1, k, vm, 1)
  {
    hide Steps, Linked, Loaded, WellScoped, ArrSet, FuncTable;
    OneStep(c, pos, vm);
  }

  lemma GetStep(c: Ctx, pos: nat, a: nat, b: nat, d: nat, vm: VM) returns (vm1: VM)
    requires Ready(c) && vm.ip == c.base + pos && pos < |c.fin.code| && c.fin.code[pos] == GetI(a, b, d)
    ensures match ArrGet(vm.heap, vm.Reg(b), vm.Reg(d))
            case None => Steps(c.p, Running(vm), 1) == Fault
            case Some(r) => Steps(c.p, Running(vm), 1) == Running(vm1) && At(c, pos + 1, vm.fp + a, vm, vm1)
                            && vm1.heap == r.1 && vm1.Reg(a) == r.0
  {
    hide Steps, Linked, Loaded, WellScoped, ArrGet, FuncTable;
    OneStep(c, pos, vm);
    if Effect(c, c.fin.code[pos], vm).Running? { vm1 := Effect(c, c.fin.code[pos], vm).vm; } else { vm1 := vm; }
  }

  lemma BinStep(c: Ctx, pos: nat, op: BinOp, a: nat, b: nat, d: nat, vm: VM) returns (vm1: VM)
    requires Ready(c) && vm.ip == c.base + pos && pos < |c.fin.code| && c.fin.code[pos] == BinI(op, a, b, d)
    ensures match Binary(op, vm.Reg(b), vm.Reg(d))
            case None => Steps(c.p, Running(vm), 1) == Fault
            case Some(v) => Steps(c.p, Running(vm), 1) == Running(vm1) && At(c, pos + 1, vm.fp + a, vm, vm1)
                            && vm1.heap == vm.heap && vm1.Reg(a) == v
                            && forall r: nat | r != a :: vm1.Reg(r) == vm.Reg(r)
  {
    hide Steps, Linked, Loaded, WellScoped, Binary, FuncTable;
    OneStep(c, pos, vm);
    if Effect(c, c.fin.code[pos], vm).Running? { vm1 := Effect(c, c.fin.code[pos], vm).vm; } else { vm1 := vm; }
  }

  /** The tail of an element assignment, once value, array and index are in place. */
  lemma StoreSteps(c: Ctx, aop: AssignOp, code: Code, sp: nat, vm: VM) returns (n: nat)
    requires Ready(c) && vm.ip == c.base + |code|
    requires EmitStore(aop, code, sp) <= c.fin.code
    ensures Stored(c, StoreElement(vm.heap, aop, vm.Reg(sp + 1), vm.Reg(sp + 2), vm.Reg(sp)),
                   |EmitStore(aop, code, sp)|, vm.fp + sp, vm, n)
  {
    hide Steps, Ready, Binary, ArrGet, ArrSet, Stored;
    if aop.Set? {
      SetStep(c, |code|, sp + 1, sp + 2, sp, vm.fp + sp, vm);
      n := 1;
      return;
    }
    n := StoreUpdated(c, aop, |code|, sp, vm);
  }

  lemma StoreUpdated(c: Ctx, aop: AssignOp, pos: nat, sp: nat, vm: VM) returns (n: nat)
    requires Ready(c) && vm.ip == c.base + pos && !aop.Set? && pos + 2 < |c.fin.code|
    requires c.fin.code[pos] == GetI(sp + 3, sp + 1, sp + 2)
    requires c.fin.code[pos + 1] == BinI(ElementOp(aop), sp, sp, sp + 3)
    requires c.fin.code[pos + 2] == SetI(sp + 1, sp + 2, sp)
    ensures Stored(c, StoreElement(vm.heap, aop, vm.Reg(sp + 1), vm.Reg(sp + 2), vm.Reg(sp)), pos + 3, vm.fp + sp,
                   vm, n)
  {
    hide Steps, Ready, Binary, ArrGet, ArrSet;
    n := 1;
    var vm1 := GetStep(c, pos, sp + 3, sp + 1, sp + 2, vm);
    if ArrGet(vm.heap, vm.Reg(sp + 1), vm.Reg(sp + 2)).None? { return; }
    var vm2 := BinStep(c, pos + 1, ElementOp(aop), sp, sp, sp + 3, vm1);
    Chain(c.p, vm, 1, vm1, 1);
    n := 2;
    KeptBelow(vm.fp + sp + 3, vm.fp + sp, vm, vm1);
    if Binary(ElementOp(aop), vm1.Reg(sp), vm1.Reg(sp + 3)).None? { return; }
    BelowTrans(vm.fp + sp, vm, vm1, vm.fp + sp, vm2);
    SetStep(c, pos + 2, sp + 1, sp + 2, sp, vm.fp + sp, vm2);
    StoredLater(c, ArrSet(vm2.heap, vm2.Reg(sp + 1), vm2.Reg(sp + 2), vm2.Reg(sp)), pos + 3, vm.fp + sp, vm, 2, vm2, 1);
    n := 3;
  }

  lemma ElementUnfolds(c: Ctx, s: Simple, env: Env, heap: Heap, depth: nat, fuel: nat)
    requires c.k < |c.src| && s.Assign? && s.lhs.Index?
    ensures var all := ExecSimple(c.src, c.k, s, env, heap, depth, fuel);
            var r1 := EvalExpr(c.src, c.k, s.rhs, env, heap, depth, fuel);
            if !r1.Val? then all == (if r1.ExprErr? then StmtErr else StmtOut)
            else
              var r2 := EvalExpr(c.src, c.k, s.lhs.base, env, r1.heap, depth, fuel);
              if !r2.Val? then all == (if r2.ExprErr? then StmtErr else StmtOut)
              else
                var r3 := EvalExpr(c.src, c.k, s.lhs.index, env, r2.heap, depth, fuel);
                if !r3.Val? then all == (if r3.ExprErr? then StmtErr else StmtOut)
                else
                  all == match StoreElement(r3.heap, s.aop, r2.v, r3.v, r1.v)
                         case Some(h) => Normal(env, h)
                         case None => StmtErr
  {
    hide CompileExpr, CompileSimple, EvalExpr, StoreElement;
  }

  lemma ElementEmitted(s: Simple, code: Code, sc: Scope, funcs: Names)
    requires s.Assign? && s.lhs.Index? && CompileSimple(s, code, sc, funcs).Some?
    ensures CompileExpr(s.rhs, code, sc.names, sc.sp, funcs).Some?
    ensures var c1 := CompileExpr(s.rhs, code, sc.names, sc.sp, funcs).value;
            && CompileExpr(s.lhs.base, c1, sc.names, sc.sp + 1, funcs).Some?
            && var c2 := CompileExpr(s.lhs.base, c1, sc.names, sc.sp + 1, funcs).value;
               && CompileExpr(s.lhs.index, c2, sc.names, sc.sp + 2, funcs).Some?
               && CompileSimple(s, code, sc, funcs).value
                    == (EmitStore(s.aop, CompileExpr(s.lhs.index, c2, sc.names, sc.sp + 2, funcs).value, sc.sp), sc)
  {
    hide CompileExpr, EmitStore;
  }

  lemma {:induction false} SimAssignElement(c: Ctx, s: Simple, code: Code, sc: Scope, env: Env, vm: VM, fuel: nat)
    returns (n: nat)
    requires s.Assign? && s.lhs.Index?
    requires Ready(c) && vm.ip == c.base + |code| && WfScope(sc) && Agree(sc.names, env, vm)
    requires CompileSimple(s, code, sc, FuncTable(c.src, c.k)).Some?
    requires CompileSimple(s, code, sc, FuncTable(c.src, c.k)).value.0 <= c.fin.code
    ensures var (c1, sc1) := CompileSimple(s, code, sc, FuncTable(c.src, c.k)).value;
            StmtDone(c, ExecSimple(c.src, c.k, s, env, vm.heap, |vm.calls|, fuel), |c1|, sc.names, sc1.names, None,
                vm, n, fuel)
    decreases fuel, 1, s, 0
  {
    hide Steps, Ready, FuncTable, EvalExpr, CompileExpr, ExprDone, WfScope, Agree, StmtDone, ExecSimple, CompileSimple,
         StoreElement, SameBelow, EmitStore;
    InSource(c);
    var funcs := FuncTable(c.src, c.k);
    var depth := |vm.calls|;
    var all := ExecSimple(c.src, c.k, s, env, vm.heap, depth, fuel);
    ElementUnfolds(c, s, env, vm.heap, depth, fuel);
    ElementEmitted(s, code, sc, funcs);
    var c1 := CompileExpr(s.rhs, code, sc.names, sc.sp, funcs).value;
    var c2 := CompileExpr(s.lhs.base, c1, sc.names, sc.sp + 1, funcs).value;
    var c3 := CompileExpr(s.lhs.index, c2, sc.names, sc.sp + 2, funcs).value;
    var end := |EmitStore(s.aop, c3, sc.sp)|;
    n := SimExpr(c, s.rhs, code, sc.names, sc.sp, env, vm, fuel);
    var r1 := EvalExpr(c.src, c.k, s.rhs, env, vm.heap, depth, fuel);
    if !r1.Val? { StmtFromExpr(c, r1, |c1|, sc.sp, vm, n, fuel, end, sc.names, sc.names, None); return; }
    var vm1 := ExprValue(c, r1, |c1|, sc.sp, vm, n, fuel);
    AgreeKept(sc.names, sc.sp, env, vm, vm1);
    var m := SimExpr(c, s.lhs.base, c1, sc.names, sc.sp + 1, env, vm1, fuel);
    Chain(c.p, vm, n, vm1, m);
    var r2 := EvalExpr(c.src, c.k, s.lhs.base, env, r1.heap, depth, fuel);
    if !r2.Val? {
      StmtFromExpr(c, r2, |c2|, sc.sp + 1, vm1, m, fuel, end, sc.names, sc.names, None);
      StmtThen(c, |c1|, vm.fp + sc.sp, vm, n, vm1, all, end, sc.names, sc.names, sc.names, None, m, fuel);
      n := n + m;
      return;
    }
    var vm2 := ExprValue(c, r2, |c2|, sc.sp + 1, vm1, m, fuel);
    KeptBelow(vm1.fp + sc.sp + 1, vm1.fp + sc.sp, vm1, vm2);
    BelowTrans(vm.fp + sc.sp, vm, vm1, vm1.fp + sc.sp + 1, vm2);
    AgreeKept(sc.names, sc.sp, env, vm, vm2);
    n := n + m;
    WiderScope(sc.names, sc.sp + 1);
    m := SimExpr(c, s.lhs.index, c2, sc.names, sc.sp + 2, env, vm2, fuel);
    Chain(c.p, vm, n, vm2, m);
    var r3 := EvalExpr(c.src, c.k, s.lhs.index, env, r2.heap, depth, fuel);
    if !r3.Val? {
      StmtFromExpr(c, r3, |c3|, sc.sp + 2, vm2, m, fuel, end, sc.names, sc.names, None);
      StmtThen(c, |c2|, vm.fp + sc.sp, vm, n, vm2, all, end, sc.names, sc.names, sc.names, None, m, fuel);
      n := n + m;
      return;
    }
    var vm3 := ExprValue(c, r3, |c3|, sc.sp + 2, vm2, m, fuel);
    KeptBelow(vm2.fp + sc.sp + 2, vm2.fp + sc.sp, vm2, vm3);
    KeptBelow(vm2.fp + sc.sp + 2, vm2.fp + sc.sp + 1, vm2, vm3);
    BelowTrans(vm.fp + sc.sp, vm, vm2, vm2.fp + sc.sp + 2, vm3);
    n := n + m;
    m := StoreSteps(c, s.aop, c3, sc.sp, vm3);
    Chain(c.p, vm, n, vm3, m);
    n := n + m;
    StoreDone(c, s.aop, c3, sc, env, vm, vm3, m, n, fuel);
  }

  lemma BelowTrans(k: nat, vm: VM, vm1: VM, k1: nat, vm2: VM)
    requires SameBelow(k, vm, vm1) && SameBelow(k1, vm1, vm2) && k <= k1
    ensures SameBelow(k, vm, vm2)
  {
  }

  lemma StoreDone(c: Ctx, aop: AssignOp, code: Code, sc: Scope, env: Env, vm: VM, vm3: VM, m: nat, n: nat, fuel: nat)
    requires WfScope(sc) && Agree(sc.names, env, vm) && vm3.fp == vm.fp && vm3.calls == vm.calls
    requires SameBelow(vm.fp + sc.sp, vm, vm3) && Steps(c.p, Running(vm), n) == Steps(c.p, Running(vm3), m)
    requires Stored(c, StoreElement(vm3.heap, aop, vm3.Reg(sc.sp + 1), vm3.Reg(sc.sp + 2), vm3.Reg(sc.sp)),
                    |EmitStore(aop, code, sc.sp)|, vm3.fp + sc.sp, vm3, m)
    ensures var r := match StoreElement(vm3.heap, aop, vm3.Reg(sc.sp + 1), vm3.Reg(sc.sp + 2), vm3.Reg(sc.sp))
                     case Some(h) => Normal(env, h) case None => StmtErr;
            StmtDone(c, r, |EmitStore(aop, code, sc.sp)|, sc.names, sc.names, None, vm, n, fuel)
  {
    hide Steps, StoreElement, WfScope, Agree, EmitStore;
    var o := StoreElement(vm3.heap, aop, vm3.Reg(sc.sp + 1), vm3.Reg(sc.sp + 2), vm3.Reg(sc.sp));
    if o.Some? {
      var vm4 := Steps(c.p, Running(vm3), m).vm;
      BelowTrans(vm.fp + sc.sp, vm, vm3, vm3.fp + sc.sp, vm4);
      AgreeKept(sc.names, sc.sp, env, vm, vm4);
    }
  }

  // ---- conditionals ----

  lemma {:induction false} SimBody(c: Ctx, b: Body, em: Emit, sc: Scope, brk: Option<nat>, env: Env, vm: VM, fuel: nat)
    returns (n: nat)
    requires Before(c, em, sc, brk, env, vm) && ScopedBody(b, sc.names.Keys)
    requires CompileBody(b, em, sc, FuncTable(c.src, c.k), brk).Some?
    requires Inside(CompileBody(b, em, sc, FuncTable(c.src, c.k), brk).value.0, c.fin)
    ensures var (em1, sc1) := CompileBody(b, em, sc, FuncTable(c.src, c.k), brk).value;
            StmtDone(c, ExecBody(c.src, c.k, b, env, vm.heap, |vm.calls|, fuel), |em1.code|, sc.names, sc1.names, brk,
                vm, n, fuel)
    decreases fuel, 1, b, 0
  {
    hide Steps, Ready, Agree, WfScope, WfEmit, Reserved, FuncTable, Inside, StmtDone, Before, Scoped, ScopedAll,
         ExecStmt, ExecStmts, CompileStmt, CompileStmts;
    match b
    case Block(ss) => n := SimStmts(c, ss, em, sc, brk, env, vm, fuel);
    case Single(s) => n := SimStmt(c, s, em, sc, brk, env, vm, fuel);
  }

  /** Closing a scope forgets exactly the names declared in it. */
  lemma AgreeRestricted(names: Names, names1: Names, env1: Env, vm: VM)
    requires SubNames(names, names1) && Holds(names1, env1, vm)
    ensures Agree(names, Restrict(env1, names.Keys), vm)
  {
  }

  lemma LeaveDone(c: Ctx, r: StmtResult, end: nat, start: Names, names1: Names, brk: Option<nat>, vm: VM, n: nat,
      fuel: nat)
    requires StmtDone(c, r, end, start, names1, brk, vm, n, fuel) && SubNames(start, names1)
    ensures StmtDone(c, LeaveScope(r, start.Keys), end, start, start, brk, vm, n, fuel)
  {
    hide Steps, SubNames, Restrict, Holds, SameBelow;
    if r.Normal? {
      AgreeRestricted(start, names1, r.env, Steps(c.p, Running(vm), n).vm);
    }
  }

  lemma {:induction false} SimBranch(c: Ctx, b: Body, em: Emit, sc: Scope, brk: Option<nat>, env: Env, vm: VM,
      fuel: nat)
    returns (n: nat)
    requires Before(c, em, sc, brk, env, vm) && ScopedBody(b, sc.names.Keys)
    requires CompileBranch(b, em, sc, FuncTable(c.src, c.k), brk).Some?
    requires Inside(CompileBranch(b, em, sc, FuncTable(c.src, c.k), brk).value.0, c.fin)
    ensures var (em1, sc1) := CompileBranch(b, em, sc, FuncTable(c.src, c.k), brk).value;
            StmtDone(c, ExecBranch(c.src, c.k, b, env, vm.heap, |vm.calls|, fuel), |em1.code|, sc.names, sc1.names,
                brk, vm, n, fuel)
    decreases fuel, 1, b, 1
  {
    hide Steps, Ready, WfScope, WfEmit, Reserved, FuncTable, Inside, StmtDone, Scoped, ScopedBody, LeaveScope,
         ExecBody, CompileBody, Holds, SourceSemantics.DeclaredByBranch, SubNames, Grows, Targeted;
    InSource(c);
    n := SimBody(c, b, em, sc, brk, env, vm, fuel);
    if b.Block? {
      BodyFacts(b, em, sc, FuncTable(c.src, c.k), brk);
      var (em1, sc1) := CompileBody(b, em, sc, FuncTable(c.src, c.k), brk).value;
      var r := ExecBody(c.src, c.k, b, env, vm.heap, |vm.calls|, fuel);
      LeaveDone(c, r, |em1.code|, sc.names, sc1.names, brk, vm, n, fuel);
    }
  }

  lemma SameNames(names: Names, names1: Names)
    requires SubNames(names, names1) && names1.Keys == names.Keys
    ensures names1 == names
  {
  }

  /** The emission when the first branch starts, and when the second one does. */
  function ThenStart(s: Stmt, c1: Code, em: Emit, sc: Scope): Emit {
    Emit(c1 + [JmpF(sc.sp, em.uid)], em.labels, em.uid + 1)
  }

  function ElseStart(em2: Emit, id1: nat): Emit {
    em2.(uid := em2.uid + 1).Add(Jmp(em2.uid)).Place(id1)
  }

  /** Everything emitted for a conditional: code and scope after the condition, the
      first branch, and the second branch, with the jumps and labels in place. */
  ghost predicate IfLayout(c: Ctx, s: Stmt, em: Emit, sc: Scope, brk: Option<nat>, c1: Code, em2: Emit, sc2: Scope,
                           em4: Emit, sc4: Scope)
    requires c.k < |c.src| && s.If?
  {
    var funcs := FuncTable(c.src, c.k);
    var em1, em3 := ThenStart(s, c1, em, sc), ElseStart(em2, em.uid);
    && CompileExpr(s.cond, em.code, sc.names, sc.sp, funcs) == Some(c1)
    && c1 <= c.fin.code && |c1| < |c.fin.code| && c.fin.code[|c1|] == JmpF(sc.sp, em.uid)
    && Grows(em, em1) && WfEmit(em1) && Reserved(brk, em1)
    && CompileBranch(s.thn, em1, sc, funcs, brk) == Some((em2, sc2))
    && Inside(em2, c.fin) && Widened(sc, sc2) && sc2.names.Keys == DeclaredByBranch(s.thn, sc.names.Keys)
    && em.uid in c.fin.labels
    && if s.els.NoElse? then
         em4 == em2 && sc4 == sc2 && c.fin.labels[em.uid] == |em2.code|
       else
         && |em2.code| < |c.fin.code| && c.fin.code[|em2.code|] == Jmp(em2.uid)
         && c.fin.labels[em.uid] == |em3.code|
         && Grows(em, em3) && WfEmit(em3) && Reserved(brk, em3)
         && CompileBranch(s.els.body, em3, sc2, funcs, brk) == Some((em4, sc4))
         && Inside(em4, c.fin) && sc4.names == sc2.names
         && em2.uid in c.fin.labels && c.fin.labels[em2.uid] == |em4.code|
  }

  lemma ThenGrown(c: Ctx, s: Stmt, em: Emit, sc: Scope, brk: Option<nat>, c1: Code, em2: Emit, sc2: Scope)
    requires c.k < |c.src| && s.If? && WfEmit(em) && WfScope(sc) && Reserved(brk, em)
    requires em.code <= c1
    requires CompileBranch(s.thn, ThenStart(s, c1, em, sc), sc, FuncTable(c.src, c.k), brk) == Some((em2, sc2))
    ensures var em1 := ThenStart(s, c1, em, sc);
            Grows(em, em1) && WfEmit(em1) && Reserved(brk, em1) && Grows(em1, em2) && WfEmit(em2)
    ensures Widened(sc, sc2) && sc2.names.Keys == DeclaredByBranch(s.thn, sc.names.Keys) && em.uid !in em2.labels
  {
    hide FuncTable, CompileExpr, CompileBranch;
    BranchFacts(s.thn, ThenStart(s, c1, em, sc), sc, FuncTable(c.src, c.k), brk);
  }

  lemma ElseGrown(c: Ctx, s: Stmt, em: Emit, em1: Emit, sc: Scope, brk: Option<nat>, em2: Emit, sc2: Scope, em4: Emit,
      sc4: Scope)
    requires c.k < |c.src| && s.If? && s.els.Else? && Reserved(brk, em)
    requires DeclaredByBranch(s.els.body, sc2.names.Keys) == sc2.names.Keys
    requires WfEmit(em) && Grows(em, em1) && em1.uid == em.uid + 1 && em1.labels == em.labels
    requires Grows(em1, em2) && WfEmit(em2) && Widened(sc, sc2) && em.uid !in em2.labels
    requires CompileBranch(s.els.body, ElseStart(em2, em.uid), sc2, FuncTable(c.src, c.k), brk) == Some((em4, sc4))
    ensures var em3 := ElseStart(em2, em.uid);
            Grows(em, em3) && Inside(em2, em3) && WfEmit(em3) && Reserved(brk, em3) && Grows(em3, em4) && WfEmit(em4)
    ensures sc4.names == sc2.names && em2.uid !in em4.labels
  {
    hide FuncTable, CompileBranch;
    BranchFacts(s.els.body, ElseStart(em2, em.uid), sc2, FuncTable(c.src, c.k), brk);
    SameNames(sc2.names, sc4.names);
  }

  /** Behind the first branch the second one declares nothing new. */
  lemma ElseDeclaresNothing(s: Stmt, names: set<string>)
    requires s.If? && s.els.Else? && Scoped(s, names)
    ensures var names2 := DeclaredByBranch(s.thn, names); DeclaredByBranch(s.els.body, names2) == names2
  {
    hide ScopedBody;
    var els := s.els.body;
    if BothDeclare(s.thn, s.els, names) {
      var names2 := DeclaredByBranch(s.thn, names);
      PlainDeclares(els, names2);
      assert names2 + {els.stmt.simple.lhs.name} == names2;
    } else {
      assert ScopedBranch(s.thn, names) && ScopedBranch(els, names);
    }
  }

  lemma PlainDeclares(b: Body, names: set<string>)
    requires b.Single? && PlainAssignment(b.stmt)
    ensures DeclaredByBranch(b, names) == names + {b.stmt.simple.lhs.name}
  {
  }

  lemma IfLaidOut(c: Ctx, s: Stmt, em: Emit, sc: Scope, brk: Option<nat>)
    returns (c1: Code, em2: Emit, sc2: Scope, em4: Emit, sc4: Scope)
    requires c.k < |c.src| && s.If? && WfEmit(em) && WfScope(sc) && Reserved(brk, em) && Scoped(s, sc.names.Keys)
    requires CompileStmt(s, em, sc, FuncTable(c.src, c.k), brk).Some?
    requires Inside(CompileStmt(s, em, sc, FuncTable(c.src, c.k), brk).value.0, c.fin)
    ensures IfLayout(c, s, em, sc, brk, c1, em2, sc2, em4, sc4)
    ensures var (end, sc1) := CompileStmt(s, em, sc, FuncTable(c.src, c.k), brk).value;
            end.code == em4.code && sc1 == sc4
  {
    hide FuncTable, CompileExpr, CompileBranch, CompileStmt, WfEmit, WfScope, Reserved, Scoped, ScopedBranch, Widened,
        Grows, Inside;
    IfUnfolds(c, s, em, sc, brk, map[], Heap(map[], 0), 0, 0);
    var funcs := FuncTable(c.src, c.k);
    c1 := CompileExpr(s.cond, em.code, sc.names, sc.sp, funcs).value;
    var em1, r2 := ThenStart(s, c1, em, sc), CompileBranch(s.thn, ThenStart(s, c1, em, sc), sc, funcs, brk);
    em2, sc2, em4, sc4 := r2.value.0, r2.value.1, r2.value.0, r2.value.1;
    ThenGrown(c, s, em, sc, brk, c1, em2, sc2);
    if s.els.NoElse? {
      PlacedInside(em2, em.uid, c.fin);
    } else {
      ElseDeclaresNothing(s, sc.names.Keys);
      var r4 := CompileBranch(s.els.body, ElseStart(em2, em.uid), sc2, funcs, brk);
      em4, sc4 := r4.value.0, r4.value.1;
      ElseGrown(c, s, em, em1, sc, brk, em2, sc2, em4, sc4);
      PlacedInside(em4, em2.uid, c.fin);
      var em3 := ElseStart(em2, em.uid);
      InsideEarlier(em3, em4, c.fin);
      InsideTrans(em2, em3, c.fin);
      InsideCode(em3, c.fin, |em2.code|);
      InsideLabel(em3, c.fin, em.uid);
    }
    InsideEarlier(em1, em2, c.fin);
    InsideCode(em1, c.fin, |c1|);
  }

  lemma InsideTrans(em: Emit, em1: Emit, fin: Emit)
    requires Inside(em, em1) && Inside(em1, fin)
    ensures Inside(em, fin)
  {
  }

  lemma InsideCode(em: Emit, fin: Emit, i: nat)
    requires Inside(em, fin) && i < |em.code|
    ensures em.code <= fin.code && i < |fin.code| && fin.code[i] == em.code[i]
  {
  }

  lemma InsideLabel(em: Emit, fin: Emit, l: nat)
    requires Inside(em, fin) && l in em.labels
    ensures l in fin.labels && fin.labels[l] == em.labels[l]
  {
  }

  lemma PlacedInside(em: Emit, l: nat, fin: Emit)
    requires Inside(em.Place(l), fin) && l !in em.labels
    ensures Inside(em, fin) && l in fin.labels && fin.labels[l] == |em.code|
  {
    assert l in em.Place(l).labels;
    forall k | k in em.labels ensures k in fin.labels && fin.labels[k] == em.labels[k] {
      assert k in em.Place(l).labels;
    }
  }

  lemma IfUnfolds(c: Ctx, s: Stmt, em: Emit, sc: Scope, brk: Option<nat>, env: Env, heap: Heap, depth: nat, fuel: nat)
    requires c.k < |c.src| && s.If?
    ensures var all := ExecStmt(c.src, c.k, s, env, heap, depth, fuel);
            var r := EvalExpr(c.src, c.k, s.cond, env, heap, depth, fuel);
            all == if !r.Val? then (if r.ExprErr? then StmtErr else StmtOut)
                   else if r.v.Truthy() then ExecBranch(c.src, c.k, s.thn, env, r.heap, depth, fuel)
                   else if s.els.Else? then ExecBranch(c.src, c.k, s.els.body, env, r.heap, depth, fuel)
                   else Normal(env, r.heap)
    ensures var funcs := FuncTable(c.src, c.k);
            CompileStmt(s, em, sc, funcs, brk).Some? ==>
              && CompileExpr(s.cond, em.code, sc.names, sc.sp, funcs).Some?
              && var em1 := ThenStart(s, CompileExpr(s.cond, em.code, sc.names, sc.sp, funcs).value, em, sc);
                 && CompileBranch(s.thn, em1, sc, funcs, brk).Some?
                 && var (em2, sc2) := CompileBranch(s.thn, em1, sc, funcs, brk).value;
                    if s.els.NoElse? then CompileStmt(s, em, sc, funcs, brk) == Some((em2.Place(em.uid), sc2))
                    else
                      && CompileBranch(s.els.body, ElseStart(em2, em.uid), sc2, funcs, brk).Some?
                      && var (em4, sc4) := CompileBranch(s.els.body, ElseStart(em2, em.uid), sc2, funcs, brk).value;
                         CompileStmt(s, em, sc, funcs, brk) == Some((em4.Place(em2.uid), sc4))
  {
  }

  /** The two kinds of conditional whose scopes are right. */
  lemma IfScopes(s: Stmt, names: set<string>)
    requires s.If? && Scoped(s, names)
    ensures ScopedBody(s.thn, names)
    ensures s.els.NoElse? ==> DeclaredByBranch(s.thn, names) == names
    ensures s.els.Else? && !BothDeclare(s.thn, s.els, names) ==>
              DeclaredByBranch(s.thn, names) == names && ScopedBody(s.els.body, names)
  {
    hide ScopedBody, DeclaredByBranch;
    var thn, els := s.thn, s.els;
    if !BothDeclare(thn, els, names) {
      assert ScopedBranch(thn, names) && (els.Else? ==> ScopedBranch(els.body, names));
    }
  }

  ghost predicate SameOn(vars: set<string>, names: Names, names1: Names) {
    forall x | x in vars :: (x in names <==> x in names1) && (x in names ==> names1[x] == names[x])
  }

  lemma SameOnParts(a: set<string>, b: set<string>, names: Names, names1: Names)
    requires SameOn(a + b, names, names1)
    ensures SameOn(a, names, names1) && SameOn(b, names, names1)
  {
  }

  /** The code of an expression does not depend on names it does not mention. */
  lemma {:induction false} SameCode(e: Expr, code: Code, names: Names, names1: Names, sp: nat, funcs: Names)
    requires SameOn(Mentioned(e), names, names1)
    ensures CompileExpr(e, code, names, sp, funcs) == CompileExpr(e, code, names1, sp, funcs)
    decreases e, 1
  {
    match e
    case Var(_) =>
    case IntLit(_) =>
    case Neg(e1) => SameCode(e1, code, names, names1, sp, funcs);
    case Bin(_, l, r) => SamePairCode(e, l, r, code, names, names1, sp, funcs);
    case Index(b, i) => SamePairCode(e, b, i, code, names, names1, sp, funcs);
    case Call(_, _) => SameCallCode(e, code, names, names1, sp, funcs);
  }

  lemma PairCompiles(e: Expr, l: Expr, r: Expr, code: Code, names: Names, sp: nat, funcs: Names)
    requires (e.Bin? && l == e.l && r == e.r) || (e.Index? && l == e.base && r == e.index)
    ensures Mentioned(e) == Mentioned(l) + Mentioned(r)
    ensures var c1 := CompileExpr(l, code, names, sp, funcs);
            CompileExpr(e, code, names, sp, funcs) ==
            if (e.Index? && !CheckLvalue(l)) || c1.None? then None
            else match CompileExpr(r, c1.value, names, sp + 1, funcs)
                 case None => None
                 case Some(c2) => Some(c2 + [CombineInstr(e, sp)])
  {
    hide CheckLvalue, OperatorInstr;
  }

  lemma {:induction false} SamePairCode(e: Expr, l: Expr, r: Expr, code: Code, names: Names, names1: Names, sp: nat,
      funcs: Names)
    requires (e.Bin? && l == e.l && r == e.r) || (e.Index? && l == e.base && r == e.index)
    requires SameOn(Mentioned(e), names, names1)
    ensures CompileExpr(e, code, names, sp, funcs) == CompileExpr(e, code, names1, sp, funcs)
    decreases e, 0
  {
    hide CheckLvalue, CombineInstr, CompileExpr, Mentioned, SameOn;
    PairCompiles(e, l, r, code, names, sp, funcs);
    PairCompiles(e, l, r, code, names1, sp, funcs);
    SameOnParts(Mentioned(l), Mentioned(r), names, names1);
    SameCode(l, code, names, names1, sp, funcs);
    var c1 := CompileExpr(l, code, names, sp, funcs);
    if c1.Some? { SameCode(r, c1.value, names, names1, sp + 1, funcs); }
  }

  lemma CallCompiles(e: Expr, code: Code, names: Names, sp: nat, funcs: Names)
    requires e.Call?
    ensures Mentioned(e) == Mentioned(e.callee) + MentionedAll(e.args)
    ensures CompileExpr(e, code, names, sp, funcs) ==
            if !CheckLvalue(e.callee) then None
            else if e.callee == Var("array") then
              match CompileArgs(e.args, code, names, sp + 1, funcs)
              case None => None
              case Some(c1) => if |e.args| != 1 then None else Some(c1 + [AllocI(sp, sp + 1)])
            else
              match CompileExpr(e.callee, code, names, sp, funcs)
              case None => None
              case Some(c1) =>
                match CompileArgs(e.args, c1, names, sp + 1, funcs)
                case None => None
                case Some(c2) => Some(EmitMove(c2 + [Invoke(sp, sp + 1, |e.args|)], sp, sp + 1))
  {
    hide CheckLvalue, EmitMove, CompileArgs;
  }

  lemma {:induction false} SameCallCode(e: Expr, code: Code, names: Names, names1: Names, sp: nat, funcs: Names)
    requires e.Call? && SameOn(Mentioned(e), names, names1)
    ensures CompileExpr(e, code, names, sp, funcs) == CompileExpr(e, code, names1, sp, funcs)
    decreases e, 0
  {
    hide CheckLvalue, EmitMove, CompileExpr, CompileArgs, Mentioned, MentionedAll, SameOn;
    CallCompiles(e, code, names, sp, funcs);
    CallCompiles(e, code, names1, sp, funcs);
    SameOnParts(Mentioned(e.callee), MentionedAll(e.args), names, names1);
    SameCode(e.callee, code, names, names1, sp, funcs);
    SameArgsCode(e.args, code, names, names1, sp + 1, funcs);
    var c1 := CompileExpr(e.callee, code, names, sp, funcs);
    if c1.Some? { SameArgsCode(e.args, c1.value, names, names1, sp + 1, funcs); }
  }

  lemma {:induction false} SameArgsCode(args: seq<Expr>, code: Code, names: Names, names1: Names, sp: nat, funcs: Names)
    requires SameOn(MentionedAll(args), names, names1)
    ensures CompileArgs(args, code, names, sp, funcs) == CompileArgs(args, code, names1, sp, funcs)
    decreases args, 0
  {
    hide CompileExpr, Mentioned, SameOn;
    if args != [] {
      SameOnParts(Mentioned(args[0]), MentionedAll(args[1..]), names, names1);
      SameCode(args[0], code, names, names1, sp, funcs);
      var c1 := CompileExpr(args[0], code, names, sp, funcs);
      if c1.Some? { SameArgsCode(args[1..], c1.value, names, names1, sp + 1, funcs); }
    }
  }

  /** `names1` has one name more, which is assigned. */
  lemma AgreeDefined(names: Names, names1: Names, sp: nat, x: string, v: Value, env: Env, vm: VM, vm1: VM)
    requires WfScope(Scope(names1, sp)) && SubNames(names, names1) && names1.Keys == names.Keys + {x} && x !in names
    requires Agree(names, env, vm) && vm1.fp == vm.fp && vm1.stack == vm.SetReg(names1[x], v).stack
    ensures Agree(names1, env[x := v], vm1) && SameBelow(vm.fp, vm, vm1)
  {
    forall y | y in names1 ensures vm1.Reg(names1[y]) == env[x := v][y] {
      if y != x { assert y in names && names1[y] != names1[x]; }
    }
  }

  /** What a plain assignment to a variable in scope emits. */
  lemma PlainUnfolds(c: Ctx, s: Stmt, em: Emit, sc: Scope, brk: Option<nat>, env: Env, heap: Heap, depth: nat,
      fuel: nat)
    requires c.k < |c.src| && PlainAssignment(s) && s.simple.lhs.name in sc.names && s.simple.lhs.name !in env
    requires WfScope(sc)
    ensures var r := EvalExpr(c.src, c.k, s.simple.rhs, env, heap, depth, fuel);
            ExecStmt(c.src, c.k, s, env, heap, depth, fuel) ==
            match r case Val(v, h) => Normal(env[s.simple.lhs.name := v],
                h) case ExprErr => StmtErr case ExprOut => StmtOut
    ensures var funcs := FuncTable(c.src, c.k);
            CompileStmt(s, em, sc, funcs, brk).Some? ==>
              && CompileExpr(s.simple.rhs, em.code, sc.names, sc.sp, funcs).Some?
              && var c1 := CompileExpr(s.simple.rhs, em.code, sc.names, sc.sp, funcs).value;
                 CompileStmt(s, em, sc, funcs, brk) ==
                 Some((em.(code := c1 + [Move(sc.names[s.simple.lhs.name], sc.sp)]), sc))
  {
    hide CompileExpr, EvalExpr;
  }

  /** The second branch `x = e` of a conditional whose first branch has declared `x`: `x` is
      in scope already, but has no value yet. */
  lemma {:induction false} SimDefine(c: Ctx, s: Stmt, em: Emit, names: Names, sc: Scope, brk: Option<nat>, env: Env,
      vm: VM, fuel: nat)
    returns (n: nat)
    requires PlainAssignment(s) && Before(c, em, Scope(names, sc.sp), brk, env, vm)
    requires WfScope(sc) && SubNames(names, sc.names)
    requires s.simple.lhs.name !in names && sc.names.Keys == names.Keys + {s.simple.lhs.name}
    requires CompileStmt(s, em, sc, FuncTable(c.src, c.k), brk).Some?
    requires Inside(CompileStmt(s, em, sc, FuncTable(c.src, c.k), brk).value.0, c.fin)
    ensures var (em1, sc1) := CompileStmt(s, em, sc, FuncTable(c.src, c.k), brk).value;
            sc1 == sc &&
            StmtDone(c, ExecStmt(c.src, c.k, s, env, vm.heap, |vm.calls|, fuel), |em1.code|, names, sc.names, brk, vm,
                n, fuel)
    decreases fuel, 1, s, 3
  {
    hide Steps, Ready, FuncTable, EvalExpr, CompileExpr, ExprDone, WfScope, Holds, StmtDone, ExecStmt, CompileStmt,
         SubNames, WfEmit, Reserved, Mentioned;
    InSource(c);
    var x, e, depth := s.simple.lhs.name, s.simple.rhs, |vm.calls|;
    PlainUnfolds(c, s, em, sc, brk, env, vm.heap, depth, fuel);
    PlainSameCode(s, em.code, names, sc, FuncTable(c.src, c.k));
    var c1 := CompileExpr(e, em.code, names, sc.sp, FuncTable(c.src, c.k)).value;
    var all := ExecStmt(c.src, c.k, s, env, vm.heap, depth, fuel);
    n := SimExpr(c, e, em.code, names, sc.sp, env, vm, fuel);
    var res := EvalExpr(c.src, c.k, e, env, vm.heap, depth, fuel);
    if !res.Val? {
      StmtFromExpr(c, res, |c1|, sc.sp, vm, n, fuel, |c1| + 1, names, sc.names, brk);
      return;
    }
    var vm1 := ExprValue(c, res, |c1|, sc.sp, vm, n, fuel);
    AgreeKept(names, sc.sp, env, vm, vm1);
    OneStep(c, |c1|, vm1);
    Chain(c.p, vm, n, vm1, 1);
    n := n + 1;
    var vm2 := vm1.(ip := vm1.ip + 1).SetReg(sc.names[x], res.v);
    AgreeDefined(names, sc.names, sc.sp, x, res.v, env, vm1, vm2);
    BelowTrans(vm.fp, vm, vm1, vm.fp, vm2);
    NormalHere(c, all, |c1| + 1, names, sc.names, vm, n, vm2, fuel);
    NoBreakOut(c, all, |c1| + 1, names, sc.names, brk, vm, n, fuel);
  }

  lemma PlainSameCode(s: Stmt, code: Code, names: Names, sc: Scope, funcs: Names)
    requires PlainAssignment(s) && SubNames(names, sc.names)
    requires sc.names.Keys == names.Keys + {s.simple.lhs.name}
    ensures CompileExpr(s.simple.rhs, code, sc.names, sc.sp, funcs) == CompileExpr(s.simple.rhs, code, names, sc.sp,
              funcs)
  {
    SameCode(s.simple.rhs, code, sc.names, names, sc.sp, funcs);
  }

  /** The second branch, of either kind. */
  lemma {:induction false} SimElse(c: Ctx, s: Stmt, em: Emit, sc: Scope, sc2: Scope, brk: Option<nat>, env: Env,
      vm: VM, fuel: nat)
    returns (n: nat)
    requires s.If? && s.els.Else? && Scoped(s, sc.names.Keys)
    requires Before(c, em, Scope(sc.names, sc2.sp), brk, env, vm)
    requires Widened(sc, sc2) && sc2.names.Keys == DeclaredByBranch(s.thn, sc.names.Keys)
    requires CompileBranch(s.els.body, em, sc2, FuncTable(c.src, c.k), brk).Some?
    requires Inside(CompileBranch(s.els.body, em, sc2, FuncTable(c.src, c.k), brk).value.0, c.fin)
    requires CompileBranch(s.els.body, em, sc2, FuncTable(c.src, c.k), brk).value.1.names == sc2.names
    ensures var (em1, _) := CompileBranch(s.els.body, em, sc2, FuncTable(c.src, c.k), brk).value;
            StmtDone(c, ExecBranch(c.src, c.k, s.els.body, env, vm.heap, |vm.calls|, fuel), |em1.code|, sc.names,
                sc2.names,
                     brk, vm, n, fuel)
    decreases fuel, 1, s, 2
  {
    hide Steps, Ready, FuncTable, Inside, StmtDone, Scoped, ScopedBody, ExecStmt, CompileStmt, DeclaredByBranch,
         WfEmit, Reserved, Agree, WfScope, PlainAssignment, SubNames, ExecStmts, CompileStmts;
    InSource(c);
    IfScopes(s, sc.names.Keys);
    if BothDeclare(s.thn, s.els, sc.names.Keys) {
      n := SimDefine(c, s.els.body.stmt, em, sc.names, sc2, brk, env, vm, fuel);
    } else {
      SameNames(sc.names, sc2.names);
      n := SimBranch(c, s.els.body, em, sc2, brk, env, vm, fuel);
    }
  }

  /** The condition and the jump on it. */
  lemma {:induction false} SimCond(c: Ctx, e: Expr, code: Code, sc: Scope, l: nat, env: Env, vm: VM, fuel: nat)
    returns (n: nat, vm1: VM)
    requires Ready(c) && vm.ip == c.base + |code| && WfScope(sc) && Agree(sc.names, env, vm)
    requires var r := CompileExpr(e, code, sc.names, sc.sp, FuncTable(c.src, c.k));
             && r.Some? && r.value <= c.fin.code && |r.value| < |c.fin.code|
             && (c.fin.code[|r.value|] == JmpF(sc.sp, l) || c.fin.code[|r.value|] == JmpT(sc.sp, l))
    ensures var end := |CompileExpr(e, code, sc.names, sc.sp, FuncTable(c.src, c.k)).value|;
            var r := EvalExpr(c.src, c.k, e, env, vm.heap, |vm.calls|, fuel);
            if r.Val? then
              && n > 0 && Steps(c.p, Running(vm), n) == Running(vm1) && vm1.heap == r.heap && Agree(sc.names, env, vm1)
              && l in c.fin.labels
              && At(c, if r.v.Truthy() == c.fin.code[end].JmpT? then c.fin.labels[l] else end + 1, vm.fp, vm, vm1)
            else
              ExprDone(c, r, end, sc.sp, vm, n, fuel)
    decreases fuel, 1, e, 2
  {
    hide Steps, Ready, WfScope, FuncTable, EvalExpr, CompileExpr, ExprDone, Holds;
    InSource(c);
    n := SimExpr(c, e, code, sc.names, sc.sp, env, vm, fuel);
    vm1 := vm;
    var r := EvalExpr(c.src, c.k, e, env, vm.heap, |vm.calls|, fuel);
    if r.Val? {
      var end := |CompileExpr(e, code, sc.names, sc.sp, FuncTable(c.src, c.k)).value|;
      var vm0 := ExprValue(c, r, end, sc.sp, vm, n, fuel);
      AgreeKept(sc.names, sc.sp, env, vm, vm0);
      OneStep(c, end, vm0);
      Chain(c.p, vm, n, vm0, 1);
      vm1 := Effect(c, c.fin.code[end], vm0).vm;
      AgreeKept(sc.names, sc.sp, env, vm0, vm1);
      n := n + 1;
    }
  }


  lemma {:induction false} SimIf(c: Ctx, s: Stmt, em: Emit, sc: Scope, brk: Option<nat>, env: Env, vm: VM, fuel: nat)
    returns (n: nat)
    requires s.If? && Before(c, em, sc, brk, env, vm) && Scoped(s, sc.names.Keys)
    requires CompileStmt(s, em, sc, FuncTable(c.src, c.k), brk).Some?
    requires Inside(CompileStmt(s, em, sc, FuncTable(c.src, c.k), brk).value.0, c.fin)
    ensures var (em1, sc1) := CompileStmt(s, em, sc, FuncTable(c.src, c.k), brk).value;
            StmtDone(c, ExecStmt(c.src, c.k, s, env, vm.heap, |vm.calls|, fuel), |em1.code|, sc.names, sc1.names, brk,
                vm, n, fuel)
    decreases fuel, 1, s, 3
  {
    hide Steps, Ready, Agree, WfScope, WfEmit, Reserved, FuncTable, EvalExpr, ExecStmt, ExecBranch, CompileExpr,
        CompileBranch,
         CompileStmt, Scoped, ScopedBranch, StmtDone, ExprDone, Grows, Inside, SubNames, SameBelow;
    InSource(c);
    var depth := |vm.calls|;
    var c1, em2, sc2, em4, sc4 := IfLaidOut(c, s, em, sc, brk);
    IfUnfolds(c, s, em, sc, brk, env, vm.heap, depth, fuel);
    IfScopes(s, sc.names.Keys);
    SubNamesRefl(sc.names);
    var all := ExecStmt(c.src, c.k, s, env, vm.heap, depth, fuel);
    var vm1: VM;
    n, vm1 := SimCond(c, s.cond, em.code, sc, em.uid, env, vm, fuel);
    var r := EvalExpr(c.src, c.k, s.cond, env, vm.heap, depth, fuel);
    if !r.Val? {
      StmtFromExpr(c, r, |c1|, sc.sp, vm, n, fuel, |em4.code|, sc.names, sc4.names, brk);
      return;
    }
    var m;
    if r.v.Truthy() {
      var em1 := ThenStart(s, c1, em, sc);
      BeforeNext(c, em, sc, brk, env, vm, em1, sc, env, vm1);
      m := SimBranch(c, s.thn, em1, sc, brk, env, vm1, fuel);
      if s.els.Else? {
        m := JumpOver(c, all, em2, em4, sc.names, sc2.names, brk, vm1, m, fuel);
      }
    } else if s.els.Else? {
      NarrowScope(sc, sc2);
      BeforeNext(c, em, sc, brk, env, vm, ElseStart(em2, em.uid), Scope(sc.names, sc2.sp), env, vm1);
      m := SimElse(c, s, ElseStart(em2, em.uid), sc, sc2, brk, env, vm1, fuel);
    } else {
      m := 0;
      SameNames(sc.names, sc2.names);
      NormalNow(c, all, |em4.code|, sc.names, sc.names, brk, vm1, fuel);
    }
    StmtThen(c, vm1.ip - c.base, vm.fp, vm, n, vm1, all, |em4.code|, sc.names, sc.names, sc4.names, brk, m, fuel);
    n := n + m;
  }

  lemma NarrowScope(sc: Scope, sc2: Scope)
    requires WfScope(sc) && Widened(sc, sc2)
    ensures Widened(sc, Scope(sc.names, sc2.sp))
  {
  }

  lemma SubNamesRefl(names: Names)
    ensures SubNames(names, names)
  {
  }

  lemma NormalNow(c: Ctx, r: StmtResult, end: nat, start: Names, names: Names, brk: Option<nat>, vm: VM, fuel: nat)
    requires r.Normal? && r.heap == vm.heap && vm.ip == c.base + end && Agree(names, r.env, vm)
    ensures StmtDone(c, r, end, start, names, brk, vm, 0, fuel)
  {
  }

  /** The jump from the end of the first branch over the second one. */
  lemma JumpOver(c: Ctx, r: StmtResult, em2: Emit, em4: Emit, start: Names, names: Names, brk: Option<nat>, vm: VM,
      m: nat, fuel: nat)
    returns (n: nat)
    requires Ready(c) && |em2.code| < |c.fin.code| && c.fin.code[|em2.code|] == Jmp(em2.uid)
    requires em2.uid in c.fin.labels && c.fin.labels[em2.uid] == |em4.code|
    requires StmtDone(c, r, |em2.code|, start, names, brk, vm, m, fuel)
    ensures StmtDone(c, r, |em4.code|, start, names, brk, vm, n, fuel)
  {
    hide Steps, Linked, Loaded, WellScoped, Agree, SameBelow;
    n := m;
    if r.Normal? {
      var vm1 := StmtNormal(c, r, |em2.code|, start, names, brk, vm, m, fuel);
      OneStep(c, |em2.code|, vm1);
      Chain(c.p, vm, m, vm1, 1);
      n := n + 1;
      var vm2 := GoTo(c, em2.uid, vm1);
      AgreeMoved(names, r.env, vm, vm1, vm2);
    }
  }

  lemma AgreeMoved(names: Names, env: Env, vm: VM, vm1: VM, vm2: VM)
    requires Agree(names, env, vm1) && SameBelow(vm.fp, vm, vm1) && vm2 == vm1.(ip := vm2.ip)
    ensures Agree(names, env, vm2) && SameBelow(vm.fp, vm, vm2)
  {
  }

  // ---- loops ----

  function LoopStart(c1: Code, em: Emit, sc: Scope): Emit {
    Emit(c1 + [JmpF(sc.sp, em.uid + 1)], em.labels, em.uid + 2).Place(em.uid)
  }

  /** Everything emitted for a loop: code after the first test, the body, the
      increment and the second test, with `start` and `end` in place. */
  ghost predicate LoopLayout(c: Ctx, s: Stmt, em: Emit, sc: Scope, c1: Code, em2: Emit, sc2: Scope, c3: Code,
      sc3: Scope, c4: Code)
    requires c.k < |c.src| && (s.While? || s.For?)
  {
    var funcs := FuncTable(c.src, c.k);
    var start, end := em.uid, em.uid + 1;
    var em1 := LoopStart(c1, em, sc);
    && CompileExpr(s.cond, em.code, sc.names, sc.sp, funcs) == Some(c1)
    && c1 <= c.fin.code && |c1| < |c.fin.code| && c.fin.code[|c1|] == JmpF(sc.sp, end)
    && Grows(em, em1) && WfEmit(em1) && Reserved(Some(end), em1)
    && CompileBody(s.body, em1, sc, funcs, Some(end)) == Some((em2, sc2))
    && Inside(em2, c.fin) && Widened(sc, sc2)
    && CompileInc(s, em2.code, sc2, funcs) == Some((c3, sc3))
    && c3 <= c.fin.code && Widened(sc, sc3) && WfScope(sc2)
    && CompileExpr(s.cond, c3, sc3.names, sc3.sp, funcs) == Some(c4)
    && c4 <= c.fin.code && |c4| < |c.fin.code| && c.fin.code[|c4|] == JmpT(sc3.sp, start)
    && start in c.fin.labels && c.fin.labels[start] == |em1.code|
    && end in c.fin.labels && c.fin.labels[end] == |c4| + 1
  }

  lemma LoopUnfolds(c: Ctx, s: Stmt, em: Emit, sc: Scope)
    requires c.k < |c.src| && (s.While? || s.For?)
    requires CompileLoop(s, em, sc, FuncTable(c.src, c.k)).Some?
    ensures var funcs := FuncTable(c.src, c.k);
            && CompileExpr(s.cond, em.code, sc.names, sc.sp, funcs).Some?
            && var em1 := LoopStart(CompileExpr(s.cond, em.code, sc.names, sc.sp, funcs).value, em, sc);
               && CompileBody(s.body, em1, sc, funcs, Some(em.uid + 1)).Some?
               && var (em2, sc2) := CompileBody(s.body, em1, sc, funcs, Some(em.uid + 1)).value;
                  && CompileInc(s, em2.code, sc2, funcs).Some?
                  && var (c3, sc3) := CompileInc(s, em2.code, sc2, funcs).value;
                     && CompileExpr(s.cond, c3, sc3.names, sc3.sp, funcs).Some?
                     && var c4 := CompileExpr(s.cond, c3, sc3.names, sc3.sp, funcs).value;
                        CompileLoop(s, em, sc, funcs)
                          == Some(Emit(c4 + [JmpT(sc3.sp, em.uid)], em2.labels, em2.uid).Place(em.uid + 1))
  {
  }

  lemma LoopGrown(c: Ctx, s: Stmt, em: Emit, sc: Scope, c1: Code, em2: Emit, sc2: Scope)
    requires c.k < |c.src| && (s.While? || s.For?) && WfEmit(em) && WfScope(sc) && em.code <= c1
    requires CompileBody(s.body, LoopStart(c1, em, sc), sc, FuncTable(c.src, c.k), Some(em.uid + 1)) == Some((em2, sc2))
    ensures var em1 := LoopStart(c1, em, sc);
            Grows(em, em1) && WfEmit(em1) && Reserved(Some(em.uid + 1), em1) && Grows(em1, em2)
                && em.uid + 1 !in em2.labels
    ensures Widened(sc, sc2) && WfScope(sc2)
  {
    hide FuncTable, CompileBody;
    BodyFacts(s.body, LoopStart(c1, em, sc), sc, FuncTable(c.src, c.k), Some(em.uid + 1));
  }

  lemma IncGrown(s: Stmt, code: Code, sc: Scope, sc2: Scope, funcs: Names)
    requires CompileInc(s, code, sc2, funcs).Some? && Widened(sc, sc2)
    ensures Widened(sc, CompileInc(s, code, sc2, funcs).value.1)
  {
    hide CompileSimple;
    if s.For? { SimpleFacts(s.inc, code, sc2, funcs); }
  }

  lemma LoopLaidOut(c: Ctx, s: Stmt, em: Emit, sc: Scope)
    returns (c1: Code, em2: Emit, sc2: Scope, c3: Code, sc3: Scope, c4: Code)
    requires c.k < |c.src| && (s.While? || s.For?) && WfEmit(em) && WfScope(sc)
    requires CompileLoop(s, em, sc, FuncTable(c.src, c.k)).Some?
    requires Inside(CompileLoop(s, em, sc, FuncTable(c.src, c.k)).value, c.fin)
    ensures LoopLayout(c, s, em, sc, c1, em2, sc2, c3, sc3, c4)
    ensures CompileLoop(s, em, sc, FuncTable(c.src, c.k)).value.code == c4 + [JmpT(sc3.sp, em.uid)]
  {
    hide FuncTable, CompileExpr, CompileBody, CompileInc, CompileLoop, WfEmit, WfScope, Reserved, Widened, Grows,
        Inside;
    LoopUnfolds(c, s, em, sc);
    var funcs := FuncTable(c.src, c.k);
    var end := em.uid + 1;
    c1 := CompileExpr(s.cond, em.code, sc.names, sc.sp, funcs).value;
    var em1 := LoopStart(c1, em, sc);
    var r2 := CompileBody(s.body, em1, sc, funcs, Some(end)).value;
    em2, sc2 := r2.0, r2.1;
    var r3 := CompileInc(s, em2.code, sc2, funcs).value;
    c3, sc3 := r3.0, r3.1;
    c4 := CompileExpr(s.cond, c3, sc3.names, sc3.sp, funcs).value;
    LoopGrown(c, s, em, sc, c1, em2, sc2);
    IncGrown(s, em2.code, sc, sc2, funcs);
    var em4 := Emit(c4 + [JmpT(sc3.sp, em.uid)], em2.labels, em2.uid);
    PlacedInside(em4, end, c.fin);
    InsideCode(em4, c.fin, |c4|);
    InsideShorter(em2, em4, c.fin);
    InsideEarlier(em1, em2, c.fin);
    InsideCode(em1, c.fin, |c1|);
    InsideLabel(em1, c.fin, em.uid);
  }

  lemma InsideShorter(em: Emit, em1: Emit, fin: Emit)
    requires em.code <= em1.code && em.labels == em1.labels && Inside(em1, fin)
    ensures Inside(em, fin)
  {
  }

  lemma IterateUnfolds(c: Ctx, s: Stmt, env: Env, heap: Heap, depth: nat, fuel: nat)
    requires c.k < |c.src| && (s.While? || s.For?)
    ensures fuel == 0 ==> Iterate(c.src, c.k, s, env, heap, depth, fuel) == StmtOut
    ensures var all := Iterate(c.src, c.k, s, env, heap, depth, fuel);
            var r := ExecBody(c.src, c.k, s.body, env, heap, depth, fuel);
            fuel > 0 ==>
              if r.Broke? then all == Normal(Restrict(r.env, env.Keys), r.heap)
              else if !r.Normal? then all == r
              else
                var r1 := ExecInc(c, s, r.env, r.heap, depth, fuel);
                if !r1.Normal? then all == r1
                else
                  var v := EvalExpr(c.src, c.k, s.cond, r1.env, r1.heap, depth, fuel);
                  all == if v.ExprErr? then StmtErr else if v.ExprOut? then StmtOut
                         else if v.v.Truthy() then Iterate(c.src, c.k, s, Restrict(r1.env, env.Keys), v.heap, depth,
                             fuel - 1)
                         else Normal(Restrict(r1.env, env.Keys), v.heap)
  {
  }

  function ExecInc(c: Ctx, s: Stmt, env: Env, heap: Heap, depth: nat, fuel: nat): (r: StmtResult)
    requires c.k < |c.src|
    ensures !r.Broke? && !r.Returned?
  {
    if s.For? then ExecSimple(c.src, c.k, s.inc, env, heap, depth, fuel) else Normal(env, heap)
  }

  lemma {:induction false} SimInc(c: Ctx, s: Stmt, code: Code, sc: Scope, env: Env, vm: VM, fuel: nat) returns (n: nat)
    requires Ready(c) && vm.ip == c.base + |code| && WfScope(sc) && Agree(sc.names, env, vm)
    requires CompileInc(s, code, sc, FuncTable(c.src, c.k)).Some?
    requires CompileInc(s, code, sc, FuncTable(c.src, c.k)).value.0 <= c.fin.code
    ensures var (c1, sc1) := CompileInc(s, code, sc, FuncTable(c.src, c.k)).value;
            StmtDone(c, ExecInc(c, s, env, vm.heap, |vm.calls|, fuel), |c1|, sc.names, sc1.names, None, vm, n, fuel)
    decreases fuel, 1, s, 0
  {
    hide Steps, Ready, Agree, WfScope, FuncTable, StmtDone, ExecSimple, CompileSimple;
    InSource(c);
    if s.For? {
      n := SimSimple(c, s.inc, code, sc, env, vm, fuel);
    } else {
      n := 0;
      NormalNow(c, Normal(env, vm.heap), |code|, sc.names, sc.names, None, vm, fuel);
    }
  }

  /** What the machine has done when the loop ends. */
  ghost predicate LoopDone(c: Ctx, r: StmtResult, end: nat, names: Names, vm: VM, n: nat, fuel: nat) {
    StmtDone(c, r, end, names, names, None, vm, n, fuel)
  }

  /** From the label `start`, with the condition true: the body, the increment, the
      second test, and back, or on to `end`. */
  lemma {:induction false} SimIterate(c: Ctx, s: Stmt, em: Emit, sc: Scope, c1: Code, em2: Emit, sc2: Scope, c3: Code,
                                      sc3: Scope, c4: Code, env: Env, vm: VM, fuel: nat) returns (n: nat)
    requires c.k < |c.src| && (s.While? || s.For?) && LoopLayout(c, s, em, sc, c1, em2, sc2, c3, sc3, c4)
    requires Before(c, LoopStart(c1, em, sc), sc, Some(em.uid + 1), env, vm) && ScopedBody(s.body, sc.names.Keys)
    ensures LoopDone(c, Iterate(c.src, c.k, s, env, vm.heap, |vm.calls|, fuel), |c4| + 1, sc.names, vm, n, fuel)
    decreases fuel, 1, s, 1
  {
    hide Steps, Ready, Agree, WfScope, WfEmit, Reserved, FuncTable, EvalExpr, ExecBody, ExecInc, Iterate, CompileExpr,
        CompileBody,
         CompileInc, ScopedBody, StmtDone, ExprDone, Grows, Inside, SubNames, SameBelow, Restrict, Holds;
    var depth := |vm.calls|;
    var end := Some(em.uid + 1);
    var em1 := LoopStart(c1, em, sc);
    var all := Iterate(c.src, c.k, s, env, vm.heap, depth, fuel);
    IterateUnfolds(c, s, env, vm.heap, depth, fuel);
    if fuel == 0 { n := 0; OutNow(c, |c4| + 1, sc.names, vm); return; }
    n := SimBody(c, s.body, em1, sc, end, env, vm, fuel);
    var r := ExecBody(c.src, c.k, s.body, env, vm.heap, depth, fuel);
    if r.Broke? {
      SameKeys(sc.names, env, vm);
      BrokenOut(c, r, |em2.code|, sc.names, sc2.names, em.uid + 1, |c4| + 1, vm, n, fuel);
      return;
    }
    if !r.Normal? { Unbroken(c, r, |em2.code|, sc.names, sc2.names, end, vm, n, fuel, |c4| + 1, sc.names); return; }
    var vm1 := StmtNormal(c, r, |em2.code|, sc.names, sc2.names, end, vm, n, fuel);
    var m := SimInc(c, s, em2.code, sc2, r.env, vm1, fuel);
    var r1 := ExecInc(c, s, r.env, r.heap, depth, fuel);
    if !r1.Normal? {
      Unbroken(c, r1, |c3|, sc2.names, sc3.names, None, vm1, m, fuel, |c4| + 1, sc.names);
      SubNamesRefl(sc.names);
      StmtThen(c, |em2.code|, vm.fp, vm, n, vm1, all, |c4| + 1, sc.names, sc.names, sc.names, None, m, fuel);
      n := n + m;
      return;
    }
    var vm2 := StmtNormal(c, r1, |c3|, sc2.names, sc3.names, None, vm1, m, fuel);
    Chain(c.p, vm, n, vm1, m);
    n := n + m;
    BelowTrans(vm.fp, vm, vm1, vm1.fp, vm2);
    var vm3: VM;
    m, vm3 := SimCond(c, s.cond, c3, sc3, em.uid, r1.env, vm2, fuel);
    var v := EvalExpr(c.src, c.k, s.cond, r1.env, r1.heap, depth, fuel);
    SubNamesRefl(sc.names);
    if !v.Val? {
      StmtFromExpr(c, v, |c4|, sc3.sp, vm2, m, fuel, |c4| + 1, sc.names, sc.names, None);
      StmtThen(c, |c3|, vm.fp, vm, n, vm2, all, |c4| + 1, sc.names, sc.names, sc.names, None, m, fuel);
      n := n + m;
      return;
    }
    Chain(c.p, vm, n, vm2, m);
    n := n + m;
    BelowTrans(vm.fp, vm, vm2, vm2.fp, vm3);
    AgreeNarrowed(sc.names, sc3.names, r1.env, env, vm, vm3);
    if v.v.Truthy() {
      BeforeAgain(c, em1, sc, end, env, vm, Restrict(r1.env, env.Keys), vm3);
      m := SimIterate(c, s, em, sc, c1, em2, sc2, c3, sc3, c4, Restrict(r1.env, env.Keys), vm3, fuel - 1);
      Ticked(c, all, |em1.code|, |c4| + 1, sc.names, vm, n, vm3, m, fuel);
      n := n + m;
    } else {
      NormalHere(c, all, |c4| + 1, sc.names, sc.names, vm, n, vm3, fuel);
    }
  }

  lemma SameKeys(names: Names, env: Env, vm: VM)
    requires Agree(names, env, vm)
    ensures env.Keys == names.Keys
  {
  }

  lemma OutNow(c: Ctx, end: nat, names: Names, vm: VM)
    ensures StmtDone(c, StmtOut, end, names, names, None, vm, 0, 0)
  {
  }

  /** `break` leaves the loop with the variables of the enclosing scope. */
  lemma BrokenOut(c: Ctx, r: StmtResult, mid: nat, names: Names, names1: Names, l: nat, end: nat, vm: VM, n: nat,
      fuel: nat)
    requires r.Broke? && StmtDone(c, r, mid, names, names1, Some(l), vm, n, fuel)
    requires l in c.fin.labels && c.fin.labels[l] == end
    ensures StmtDone(c, Normal(Restrict(r.env, names.Keys), r.heap), end, names, names, None, vm, n, fuel)
  {
    hide Steps, Restrict, Holds, SameBelow, SubNames;
    SubNamesRefl(names);
    AgreeRestricted(names, names, r.env, Steps(c.p, Running(vm), n).vm);
  }

  lemma Unbroken(c: Ctx, r: StmtResult, end: nat, start: Names, names: Names, brk: Option<nat>, vm: VM, n: nat,
      fuel: nat, end1: nat, names1: Names)
    requires !r.Normal? && !r.Broke? && StmtDone(c, r, end, start, names, brk, vm, n, fuel)
    ensures StmtDone(c, r, end1, names1, names1, None, vm, n, fuel)
  {
    hide Steps;
  }

  lemma AgreeNarrowed(names: Names, names1: Names, env1: Env, env: Env, vm: VM, vm1: VM)
    requires Agree(names, env, vm) && Agree(names1, env1, vm1) && SubNames(names, names1)
    ensures Agree(names, Restrict(env1, env.Keys), vm1)
  {
    AgreeRestricted(names, names1, env1, vm1);
  }

  lemma BeforeAgain(c: Ctx, em: Emit, sc: Scope, brk: Option<nat>, env: Env, vm: VM, env1: Env, vm1: VM)
    requires Before(c, em, sc, brk, env, vm)
    requires vm1.ip == vm.ip && vm1.calls == vm.calls && Agree(sc.names, env1, vm1)
    ensures Before(c, em, sc, brk, env1, vm1)
  {
    hide Ready, Agree;
  }

  /** The next iteration has one unit of fuel less, and at least one step was taken. */
  lemma Ticked(c: Ctx, r: StmtResult, mid: nat, end: nat, names: Names, vm: VM, m: nat, vm1: VM, n: nat, fuel: nat)
    requires m > 0 && fuel > 0 && Steps(c.p, Running(vm), m) == Running(vm1) && At(c, mid, vm.fp, vm, vm1)
    requires StmtDone(c, r, end, names, names, None, vm1, n, fuel - 1)
    ensures StmtDone(c, r, end, names, names, None, vm, m + n, fuel)
  {
    hide Steps, Agree;
    Chain(c.p, vm, m, vm1, n);
  }

  /** A loop from its first test on. */
  lemma {:induction false} SimLoop(c: Ctx, s: Stmt, em: Emit, sc: Scope, env: Env, vm: VM, fuel: nat) returns (n: nat)
    requires (s.While? || s.For?) && Before(c, em, sc, None, env, vm) && ScopedBody(s.body, sc.names.Keys)
    requires CompileLoop(s, em, sc, FuncTable(c.src, c.k)).Some?
    requires Inside(CompileLoop(s, em, sc, FuncTable(c.src, c.k)).value, c.fin)
    ensures LoopDone(c, ExecLoop(c.src, c.k, s, env, vm.heap, |vm.calls|, fuel),
                     |CompileLoop(s, em, sc, FuncTable(c.src, c.k)).value.code|, sc.names, vm, n, fuel)
    decreases fuel, 1, s, 2
  {
    hide Steps, Ready, Agree, WfScope, WfEmit, Reserved, FuncTable, EvalExpr, ExecLoop, Iterate, CompileExpr,
        CompileBody,
         CompileInc, CompileLoop, ScopedBody, StmtDone, ExprDone, Grows, Inside, SubNames, SameBelow;
    InSource(c);
    var depth := |vm.calls|;
    var c1, em2, sc2, c3, sc3, c4 := LoopLaidOut(c, s, em, sc);
    var em1 := LoopStart(c1, em, sc);
    var all := ExecLoop(c.src, c.k, s, env, vm.heap, depth, fuel);
    ExecLoopUnfolds(c, s, env, vm.heap, depth, fuel);
    var vm1: VM;
    n, vm1 := SimCond(c, s.cond, em.code, sc, em.uid + 1, env, vm, fuel);
    var r := EvalExpr(c.src, c.k, s.cond, env, vm.heap, depth, fuel);
    if !r.Val? {
      StmtFromExpr(c, r, |c1|, sc.sp, vm, n, fuel, |c4| + 1, sc.names, sc.names, None);
      return;
    }
    if r.v.Truthy() {
      BeforeBody(c, em, sc, env, vm, em1, em.uid + 1, vm1);
      var m := SimIterate(c, s, em, sc, c1, em2, sc2, c3, sc3, c4, env, vm1, fuel);
      SubNamesRefl(sc.names);
      StmtThen(c, |em1.code|, vm.fp, vm, n, vm1, all, |c4| + 1, sc.names, sc.names, sc.names, None, m, fuel);
      n := n + m;
    } else {
      NormalHere(c, all, |c4| + 1, sc.names, sc.names, vm, n, vm1, fuel);
    }
  }

  lemma ExecLoopUnfolds(c: Ctx, s: Stmt, env: Env, heap: Heap, depth: nat, fuel: nat)
    requires c.k < |c.src| && (s.While? || s.For?)
    ensures var r := EvalExpr(c.src, c.k, s.cond, env, heap, depth, fuel);
            ExecLoop(c.src, c.k, s, env, heap, depth, fuel)
              == if r.ExprErr? then StmtErr else if r.ExprOut? then StmtOut
                 else if r.v.Truthy() then Iterate(c.src, c.k, s, env, r.heap, depth, fuel)
                 else Normal(env, r.heap)
  {
  }

  lemma BeforeBody(c: Ctx, em: Emit, sc: Scope, env: Env, vm: VM, em1: Emit, end: nat, vm1: VM)
    requires Before(c, em, sc, None, env, vm) && WfEmit(em1) && Reserved(Some(end), em1) && end in c.fin.labels
    requires vm1.ip == c.base + |em1.code| && vm1.calls == vm.calls && Agree(sc.names, env, vm1)
    ensures Before(c, em1, sc, Some(end), env, vm1)
  {
    hide Ready, Agree;
  }

  lemma BeforeNoBreak(c: Ctx, em: Emit, sc: Scope, brk: Option<nat>, env: Env, vm: VM)
    requires Before(c, em, sc, brk, env, vm)
    ensures Before(c, em, sc, None, env, vm)
  {
    hide Ready, Agree;
  }

  lemma {:induction false} SimWhile(c: Ctx, s: Stmt, em: Emit, sc: Scope, brk: Option<nat>, env: Env, vm: VM, fuel: nat)
    returns (n: nat)
    requires s.While? && Before(c, em, sc, brk, env, vm) && Scoped(s, sc.names.Keys)
    requires CompileStmt(s, em, sc, FuncTable(c.src, c.k), brk).Some?
    requires Inside(CompileStmt(s, em, sc, FuncTable(c.src, c.k), brk).value.0, c.fin)
    ensures var (em1, sc1) := CompileStmt(s, em, sc, FuncTable(c.src, c.k), brk).value;
            StmtDone(c, ExecStmt(c.src, c.k, s, env, vm.heap, |vm.calls|, fuel), |em1.code|, sc.names, sc1.names, brk,
                vm, n, fuel)
    decreases fuel, 1, s, 3
  {
    hide Steps, Ready, WfScope, WfEmit, Reserved, FuncTable, ExecLoop, CompileLoop, ScopedBody, StmtDone, Inside,
         SubNames, Holds, LeaveScope;
    InSource(c);
    BeforeNoBreak(c, em, sc, brk, env, vm);
    n := SimLoop(c, s, em, sc, env, vm, fuel);
    var r := ExecLoop(c.src, c.k, s, env, vm.heap, |vm.calls|, fuel);
    var end := |CompileLoop(s, em, sc, FuncTable(c.src, c.k)).value.code|;
    SubNamesRefl(sc.names);
    LeaveDone(c, r, end, sc.names, sc.names, None, vm, n, fuel);
    NoBreakOut(c, LeaveScope(r, env.Keys), end, sc.names, sc.names, brk, vm, n, fuel);
  }

  lemma {:induction false} SimFor(c: Ctx, s: Stmt, em: Emit, sc: Scope, brk: Option<nat>, env: Env, vm: VM, fuel: nat)
    returns (n: nat)
    requires s.For? && Before(c, em, sc, brk, env, vm) && Scoped(s, sc.names.Keys)
    requires CompileStmt(s, em, sc, FuncTable(c.src, c.k), brk).Some?
    requires Inside(CompileStmt(s, em, sc, FuncTable(c.src, c.k), brk).value.0, c.fin)
    ensures var (em1, sc1) := CompileStmt(s, em, sc, FuncTable(c.src, c.k), brk).value;
            StmtDone(c, ExecStmt(c.src, c.k, s, env, vm.heap, |vm.calls|, fuel), |em1.code|, sc.names, sc1.names, brk,
                vm, n, fuel)
    decreases fuel, 1, s, 3
  {
    hide Steps, Ready, WfScope, WfEmit, Reserved, FuncTable, ExecLoop, CompileLoop, ScopedBody, StmtDone, Inside,
         SubNames, Holds, LeaveScope, CompileInit, ExecSimple, SourceSemantics.DeclaredBySimple, Grows, Restrict;
    InSource(c);
    var funcs := FuncTable(c.src, c.k);
    var depth := |vm.calls|;
    var (c1, sc1) := CompileInit(s.init, em.code, sc, funcs).value;
    var em1 := em.(code := c1);
    var end := |CompileLoop(s, em1, sc1, funcs).value.code|;
    ForLaidOut(c, s, em, sc);
    n := SimInit(c, s.init, em.code, sc, env, vm, fuel);
    var r := if s.init.Init? then ExecSimple(c.src, c.k, s.init.init, env, vm.heap, depth, fuel)
        else Normal(env, vm.heap);
    if !r.Normal? {
      Unbroken(c, r, |c1|, sc.names, sc1.names, None, vm, n, fuel, end, sc.names);
      NoBreakOut(c, r, end, sc.names, sc.names, brk, vm, n, fuel);
      return;
    }
    var vm1 := StmtNormal(c, r, |c1|, sc.names, sc1.names, None, vm, n, fuel);
    BeforeNoBreak(c, em, sc, brk, env, vm);
    BeforeNext(c, em, sc, None, env, vm, em1, sc1, r.env, vm1);
    var m := SimLoop(c, s, em1, sc1, r.env, vm1, fuel);
    var r1 := ExecLoop(c.src, c.k, s, r.env, r.heap, depth, fuel);
    StmtThen(c, |c1|, vm.fp, vm, n, vm1, r1, end, sc.names, sc1.names, sc1.names, None, m, fuel);
    n := n + m;
    LeaveDone(c, r1, end, sc.names, sc1.names, None, vm, n, fuel);
    NoBreakOut(c, LeaveScope(r1, env.Keys), end, sc.names, sc.names, brk, vm, n, fuel);
  }

  lemma ForLaidOut(c: Ctx, s: Stmt, em: Emit, sc: Scope)
    requires c.k < |c.src| && s.For? && WfEmit(em) && WfScope(sc)
    requires CompileInit(s.init, em.code, sc, FuncTable(c.src, c.k)).Some?
    requires var (c1, sc1) := CompileInit(s.init, em.code, sc, FuncTable(c.src, c.k)).value;
             && CompileLoop(s, em.(code := c1), sc1, FuncTable(c.src, c.k)).Some?
             && Inside(CompileLoop(s, em.(code := c1), sc1, FuncTable(c.src, c.k)).value, c.fin)
    ensures var (c1, sc1) := CompileInit(s.init, em.code, sc, FuncTable(c.src, c.k)).value;
            && Grows(em, em.(code := c1)) && WfEmit(em.(code := c1)) && Widened(sc, sc1) && c1 <= c.fin.code
            && sc1.names.Keys == if s.init.Init? then DeclaredBySimple(s.init.init, sc.names.Keys) else sc.names.Keys
  {
    hide FuncTable, CompileLoop, CompileSimple;
    var (c1, sc1) := CompileInit(s.init, em.code, sc, FuncTable(c.src, c.k)).value;
    if s.init.Init? { SimpleFacts(s.init.init, em.code, sc, FuncTable(c.src, c.k)); }
    LoopFacts(s, em.(code := c1), sc1, FuncTable(c.src, c.k));
  }

  lemma {:induction false} SimInit(c: Ctx, init: Init, code: Code, sc: Scope, env: Env, vm: VM,
      fuel: nat) returns (n: nat)
    requires Ready(c) && vm.ip == c.base + |code| && WfScope(sc) && Agree(sc.names, env, vm)
    requires CompileInit(init, code, sc, FuncTable(c.src, c.k)).Some?
    requires CompileInit(init, code, sc, FuncTable(c.src, c.k)).value.0 <= c.fin.code
    ensures var (c1, sc1) := CompileInit(init, code, sc, FuncTable(c.src, c.k)).value;
            var r := if init.Init? then ExecSimple(c.src, c.k, init.init, env, vm.heap, |vm.calls|, fuel)
                else Normal(env, vm.heap);
            StmtDone(c, r, |c1|, sc.names, sc1.names, None, vm, n, fuel)
    decreases fuel, 1, init, 0
  {
    hide Steps, Ready, Agree, WfScope, FuncTable, StmtDone, ExecSimple, CompileSimple;
    InSource(c);
    if init.Init? {
      n := SimSimple(c, init.init, code, sc, env, vm, fuel);
    } else {
      n := 0;
      NormalNow(c, Normal(env, vm.heap), |code|, sc.names, sc.names, None, vm, fuel);
    }
  }
}
