/** How deep calls may nest (src/vm.cpp, src/vm.h). */
module CallDepth {
  import opened Values
  import opened Ast
  import opened SourceSemantics
  import opened Bytecode
  import opened Machine
  import opened Correctness

  /** `fn f(n) { if (n < 1) return 0; return f(n - 1); }` */
  function Descend(): Function {
    Function("f", ["n"], [Bottom(), Down()])
  }

  function Bottom(): Stmt {
    If(Bin(OLs, Var("n"), IntLit(1)), Single(Return(IntLit(0))), NoElse)
  }

  function Down(): Stmt {
    Return(Call(Var("f"), [Bin(OSub, Var("n"), IntLit(1))]))
  }

  /** The same with `fn main() { return f(n); }` behind it. */
  function Descending(n: nat): Source {
    [Descend(), Function("main", [], [Return(Call(Var("f"), [IntLit(n)]))])]
  }

  lemma Tables(n: nat)
    ensures FuncTable(Descending(n), 0) == map["f" := 0]
    ensures FuncTable(Descending(n), 1) == map["f" := 0, "main" := 1]
  {
  }

  lemma SmallWraps(x: int)
    requires -0x8000_0000 <= x < 0x8000_0000
    ensures Wrap32(x) == x
  {
  }

  /** One activation of `f`, up to the next one. */
  lemma Activation(src: Source, m: nat, n: int32, heap: Heap, depth: nat, fuel: nat)
    requires src == Descending(m) && 0 <= n && fuel > 0
    ensures CallFunction(src, Fun(0), [Int(n)], heap, depth, fuel) ==
            if depth >= 2000 then ExprErr
            else if n == 0 then Val(Int(0), heap)
            else CallFunction(src, Fun(0), [Int(n - 1)], heap, depth + 1, fuel - 1)
  {
    hide CallFunction, ExecStmts;
    CallUnfolds(src, m, n, heap, depth, fuel);
    BodyRuns(src, m, n, heap, depth + 1, fuel - 1);
  }

  /** What the body of `f` does: it returns 0, or what the next activation returns. */
  lemma BodyRuns(src: Source, m: nat, n: int32, heap: Heap, depth: nat, fuel: nat)
    requires src == Descending(m) && 0 <= n
    ensures ExecStmts(src, 0, Descend().body, map["n" := Int(n)], heap, depth, fuel) ==
            if n == 0 then Returned(Int(0), heap)
            else
              match CallFunction(src, Fun(0), [Int(n - 1)], heap, depth, fuel)
              case Val(v, h) => Returned(v, h)
              case ExprErr => StmtErr
              case ExprOut => StmtOut
  {
    hide CallFunction, ExecStmt;
    var body := Descend().body;
    BottomRuns(src, m, n, heap, depth, fuel);
    if n > 0 { DownRuns(src, m, n, heap, depth, fuel); }
    assert body[0] == Bottom() && body[1..] == [Down()] && body[1..][0] == Down() && body[1..][1..] == [];
  }

  lemma BottomRuns(src: Source, m: nat, n: int32, heap: Heap, depth: nat, fuel: nat)
    requires src == Descending(m) && 0 <= n
    ensures ExecStmt(src, 0, Bottom(), map["n" := Int(n)], heap, depth, fuel) ==
            if n == 0 then Returned(Int(0), heap) else Normal(map["n" := Int(n)], heap)
  {
    hide CallFunction, Wrap32;
    SmallWraps(1);
    SmallWraps(0);
    var env: Env := map["n" := Int(n)];
    assert EvalExpr(src, 0, Bottom().cond, env, heap, depth, fuel) == Val(FromBool(n < 1), heap);
    var ret := Return(IntLit(0));
    assert ExecStmt(src, 0, ret, env, heap, depth, fuel) == Returned(Int(0), heap);
    assert ExecBody(src, 0, Single(ret), env, heap, depth, fuel) == Returned(Int(0), heap);
    assert ExecBranch(src, 0, Single(ret), env, heap, depth, fuel) == Returned(Int(0), heap);
  }

  lemma DownRuns(src: Source, m: nat, n: int32, heap: Heap, depth: nat, fuel: nat)
    requires src == Descending(m) && 0 < n
    ensures ExecStmt(src, 0, Down(), map["n" := Int(n)], heap, depth, fuel) ==
            match CallFunction(src, Fun(0), [Int(n - 1)], heap, depth, fuel)
            case Val(v, h) => Returned(v, h)
            case ExprErr => StmtErr
            case ExprOut => StmtOut
  {
    hide CallFunction, Wrap32;
    Tables(m);
    SmallWraps(1);
    SmallWraps(n - 1);
    var env: Env := map["n" := Int(n)];
    var less := Bin(OSub, Var("n"), IntLit(1));
    assert EvalExpr(src, 0, less, env, heap, depth, fuel) == Val(Int(n - 1), heap);
    assert EvalExpr(src, 0, Var("f"), env, heap, depth, fuel) == Val(Fun(0), heap);
    ArgumentIs(src, less, env, heap, depth, fuel, Int(n - 1));
  }

  lemma ArgumentIs(src: Source, e: Expr, env: Env, heap: Heap, depth: nat, fuel: nat, v: Value)
    requires src != [] && EvalExpr(src, 0, e, env, heap, depth, fuel) == Val(v, heap)
    ensures EvalArgs(src, 0, [e], env, heap, depth, fuel) == Vals([v], heap)
  {
    hide EvalExpr;
    assert [e][1..] == [];
    assert [v] + [] == [v];
  }

  lemma CallUnfolds(src: Source, m: nat, n: int32, heap: Heap, depth: nat, fuel: nat)
    requires src == Descending(m) && fuel > 0
    ensures CallFunction(src, Fun(0), [Int(n)], heap, depth, fuel) ==
            if depth >= 2000 then ExprErr
            else
              match ExecStmts(src, 0, Descend().body, map["n" := Int(n)], heap, depth + 1, fuel - 1)
              case Normal(_, h) => Val(Nil, h)
              case Returned(v, h) => Val(v, h)
              case Broke(_, _) => ExprErr
              case StmtErr => ExprErr
              case StmtOut => ExprOut
  {
    hide ExecStmts;
    assert BindParams(["n"], [Int(n)]) == map["n" := Int(n)] by {
      assert ["n"][..0] == [];
    }
  }

  /** The chain of activations from `n` down to 0 needs `n + 1` places. */
  lemma {:induction false} Descends(src: Source, m: nat, n: int32, heap: Heap, depth: nat, fuel: nat)
    requires src == Descending(m) && 0 <= n < fuel
    ensures CallFunction(src, Fun(0), [Int(n)], heap, depth, fuel) ==
            if depth + n < 2000 then Val(Int(0), heap) else ExprErr
    decreases n as int
  {
    hide CallFunction;
    Activation(src, m, n, heap, depth, fuel);
    if depth < 2000 && n > 0 { Descends(src, m, n - 1, heap, depth + 1, fuel - 1); }
  }

  /** Exactly 2000 activations may be open: `main` and `f(1998)` down to `f(0)` are that
      many, one more fails. */
  lemma DeepestCall(n: nat)
    requires n < 0x8000_0000
    ensures Evaluates(Descending(n), if n <= 1998 then Val(Int(0), EMPTY_HEAP) else ExprErr)
  {
    hide CallFunction;
    var src, fuel := Descending(n), n + 2;
    MainCalls(src, n, fuel);
    Descends(src, n, n, EMPTY_HEAP, 1, fuel - 1);
    assert RunSource(src, fuel) == if n <= 1998 then Val(Int(0), EMPTY_HEAP) else ExprErr;
  }

  lemma MainCalls(src: Source, n: nat, fuel: nat)
    requires src == Descending(n) && n < 0x8000_0000 && fuel > 0
    ensures RunSource(src, fuel) == CallFunction(src, Fun(0), [Int(n)], EMPTY_HEAP, 1, fuel - 1)
  {
    hide CallFunction, Wrap32;
    Tables(n);
    SmallWraps(n);
    var ret := Return(Call(Var("f"), [IntLit(n)]));
    assert MainIndex(src) == Some(1);
    assert EvalExpr(src, 1, Var("f"), map[], EMPTY_HEAP, 1, fuel - 1) == Val(Fun(0), EMPTY_HEAP);
    assert EvalExpr(src, 1, IntLit(n), map[], EMPTY_HEAP, 1, fuel - 1) == Val(Int(n), EMPTY_HEAP);
    OneArgument(src, IntLit(n), EMPTY_HEAP, fuel - 1, Int(n));
    MainUnfolds(src, n, ret, fuel);
  }

  lemma OneArgument(src: Source, e: Expr, heap: Heap, fuel: nat, v: Value)
    requires |src| > 1 && EvalExpr(src, 1, e, map[], heap, 1, fuel) == Val(v, heap)
    ensures EvalArgs(src, 1, [e], map[], heap, 1, fuel) == Vals([v], heap)
  {
    hide EvalExpr;
    assert [e][1..] == [];
    assert [v] + [] == [v];
  }

  lemma MainUnfolds(src: Source, n: nat, ret: Stmt, fuel: nat)
    requires src == Descending(n) && fuel > 0 && ret == src[1].body[0]
    ensures CallFunction(src, Fun(1), [], EMPTY_HEAP, 0, fuel) ==
            match ExecStmt(src, 1, ret, map[], EMPTY_HEAP, 1, fuel - 1)
            case Normal(_, h) => Val(Nil, h)
            case Returned(v, h) => Val(v, h)
            case Broke(_, _) => ExprErr
            case StmtErr => ExprErr
            case StmtOut => ExprOut
  {
    hide ExecStmt;
    var body := src[1].body;
    assert body[0] == ret && body[1..] == [];
    var r := ExecStmt(src, 1, ret, map[], EMPTY_HEAP, 1, fuel - 1);
    assert ExecStmts(src, 1, body, map[], EMPTY_HEAP, 1, fuel - 1) == r by {
      if r.Normal? { assert ExecStmts(src, 1, [], r.env, r.heap, 1, fuel - 1) == r; }
    }
    assert BindParams(src[1].params, []) == map[];
  }

  // ---- the machine ----

  /** A call goes through exactly when the function exists, the number of arguments is its
      own, and fewer than 2000 frames are open; then there is one more. */
  lemma CallGoesThrough(p: Program, vm: VM, fid: nat, first: nat, count: nat)
    ensures DoCall(p, vm, fid, first, count).Enter? <==>
            fid < |p.funcs| && count == p.funcs[fid].arity && |vm.calls| < 2000
    ensures DoCall(p, vm, fid, first, count).Enter? ==> |DoCall(p, vm, fid, first, count).vm.calls| == |vm.calls| + 1
  {
  }

  /** What the callee sees: its arguments in the first registers, nil in the others of its
      120; it does not see, and the call does not change, what lies below. */
  lemma CallOpensWindow(p: Program, vm: VM, fid: nat, first: nat, count: nat, r: nat)
    requires DoCall(p, vm, fid, first, count).Enter? && r < 120
    ensures var vm1 := DoCall(p, vm, fid, first, count).vm;
            && vm1.Reg(r) == (if r < count then vm.Reg(first + r) else Nil)
            && vm1.ip == p.funcs[fid].entry && forall i: nat | i < vm.fp + first :: vm1.Get(i) == vm.Get(i)
  {
  }

  /** On no run of any bytecode are there more. */
  lemma {:induction false} FramesBounded(p: Program, st: State, n: nat)
    requires st.Running? || st.Halted? ==> |st.vm.calls| <= 2000
    ensures var st1 := Steps(p, st, n); st1.Running? || st1.Halted? ==> |st1.vm.calls| <= 2000
    decreases n
  {
    hide Step;
    if n > 0 && st.Running? {
      FramesStep(p, st.vm);
      FramesBounded(p, Step(p, st.vm), n - 1);
    }
  }

  lemma FramesStep(p: Program, vm: VM)
    requires |vm.calls| <= 2000
    ensures var st := Step(p, vm); st.Running? || st.Halted? ==> |st.vm.calls| <= 2000
  {
    hide Execute, DoCall, Binary, Negate, Alloc, ArrGet, ArrSet;
    if vm.ip < |p.code| {
      var i, vm1 := p.code[vm.ip], vm.(ip := vm.ip + 1);
      FramesExecute(p, i, vm1);
    }
  }

  lemma FramesExecute(p: Program, i: Instr, vm: VM)
    requires |vm.calls| <= 2000
    ensures match Execute(p, i, vm)
            case Next(v) => |v.calls| <= 2000
            case Enter(v) => |v.calls| <= 2000
            case Leave(v) => |v.calls| <= 2000
            case Stop(v) => |v.calls| <= 2000
            case Throw => true
  {
    hide DoCall, Binary, Negate, Alloc, ArrGet, ArrSet;
    forall fid, first, count
      ensures DoCall(p, vm, fid, first, count).Enter? || DoCall(p, vm, fid, first, count).Throw?
      ensures DoCall(p, vm, fid, first, count).Enter? ==> |DoCall(p, vm, fid, first, count).vm.calls| <= 2000
    {
      CallGoesThrough(p, vm, fid, first, count);
      CallEvents(p, vm, fid, first, count);
    }
  }

  lemma CallEvents(p: Program, vm: VM, fid: nat, first: nat, count: nat)
    ensures DoCall(p, vm, fid, first, count).Enter? || DoCall(p, vm, fid, first, count).Throw?
  {
  }
}
