/** Why compiler correctness asks something of variables that unbraced branches declare:
    the compiler puts such a variable in scope even when the branch is not
    taken, and reads a register that was never assigned. */
module ScopeFacts {
  import opened Values
  import opened Ast
  import opened Codegen
  import opened SourceSemantics
  import opened Machine
  import opened Linker
  import opened Simulation
  import opened Correctness
  import opened Division

  /** `fn main() { if (0) x = 1; return x; }` */
  function SkippedDeclaration(): Source {
    [Function("main", [], [SkippedBranch(), Return(Var("x"))])]
  }

  function SkippedBranch(): Stmt {
    If(IntLit(0), Single(Do(Assign(Set, Var("x"), IntLit(1)))), NoElse)
  }

  function SkippedCode(uid: nat): Emit {
    Emit([LoadI(0, 0), JmpF(0, uid), LoadI(0, 1), Move(1, 0), Ret(1), RetNil], map[uid := 3], uid + 1)
  }

  lemma Literals(code: Code, names: Names, sp: nat, funcs: Names)
    ensures CompileExpr(IntLit(0), code, names, sp, funcs) == Some(code + [LoadI(sp, 0)])
    ensures CompileExpr(IntLit(1), code, names, sp, funcs) == Some(code + [LoadI(sp, 1)])
    ensures Wrap32(0) == 0
  {
    WrapSmall(0);
    WrapSmall(1);
  }

  lemma BranchCompiles(uid: nat, funcs: Names)
    ensures CompileStmt(SkippedBranch(), Emit([], map[], uid), Scope(map[], 0), funcs, None)
            == Some((Emit([LoadI(0, 0), JmpF(0, uid), LoadI(0, 1)], map[uid := 3], uid + 1), Scope(map["x" := 0], 1)))
  {
    hide CompileExpr;
    var em1 := Emit([LoadI(0, 0), JmpF(0, uid)], map[], uid + 1);
    var s := Do(Assign(Set, Var("x"), IntLit(1)));
    Literals([], map[], 0, funcs);
    Literals(em1.code, map[], 0, funcs);
    assert [] + [LoadI(0, 0)] + [JmpF(0, uid)] == em1.code;
    assert em1.code + [LoadI(0, 1)] == [LoadI(0, 0), JmpF(0, uid), LoadI(0, 1)];
    assert CompileSimple(s.simple, em1.code, Scope(map[], 0), funcs)
           == Some((em1.code + [LoadI(0, 1)], Scope(map["x" := 0], 1)));
    assert CompileBranch(Single(s), em1, Scope(map[], 0), funcs, None)
           == CompileStmt(s, em1, Scope(map[], 0), funcs, None);
  }

  lemma ReturnCompiles(em: Emit, funcs: Names)
    ensures CompileStmts([Return(Var("x"))], em, Scope(map["x" := 0], 1), funcs, None)
            == Some((em.(code := em.code + [Move(1, 0)] + [Ret(1)]), Scope(map["x" := 0], 1)))
  {
    var sc := Scope(map["x" := 0], 1);
    var s := Return(Var("x"));
    assert CompileExpr(Var("x"), em.code, sc.names, sc.sp, funcs) == Some(em.code + [Move(1, 0)]);
    assert CompileStmt(s, em, sc, funcs, None) == Some((em.(code := em.code + [Move(1, 0)] + [Ret(1)]), sc));
    assert [s][0] == s && [s][1..] == [];
  }

  lemma SkippedCompiles(uid: nat, funcs: Names)
    ensures CompileFunction(SkippedDeclaration()[0], funcs, uid) == Some(SkippedCode(uid))
  {
    hide SkippedBranch, CompileStmt;
    BranchCompiles(uid, funcs);
    var body := SkippedDeclaration()[0].body;
    var em := Emit([LoadI(0, 0), JmpF(0, uid), LoadI(0, 1)], map[uid := 3], uid + 1);
    assert body[0] == SkippedBranch() && body[1..] == [Return(Var("x"))];
    ReturnCompiles(em, funcs);
    assert em.code + [Move(1, 0)] + [Ret(1)] + [RetNil] == SkippedCode(uid).code;
  }

  lemma SkippedFails(fuel: nat)
    requires fuel > 0
    ensures RunSource(SkippedDeclaration(), fuel) == ExprErr
  {
    var src := SkippedDeclaration();
    var body := src[0].body;
    Literals([], map[], 0, map[]);
    assert MainIndex(src) == Some(0);
    assert body[0] == SkippedBranch() && body[1..] == [Return(Var("x"))] && body[1..][0] == Return(Var("x"));
    assert FuncTable(src, 0) == map["main" := 0];
    assert EvalExpr(src, 0, IntLit(0), map[], EMPTY_HEAP, 1, fuel - 1) == Val(Int(0), EMPTY_HEAP);
    assert ExecStmt(src, 0, body[0], map[], EMPTY_HEAP, 1, fuel - 1) == Normal(map[], EMPTY_HEAP);
    assert ExecStmt(src, 0, Return(Var("x")), map[], EMPTY_HEAP, 1, fuel - 1) == StmtErr;
    assert ExecStmts(src, 0, body[1..], map[], EMPTY_HEAP, 1, fuel - 1) == StmtErr;
    assert ExecStmts(src, 0, body, map[], EMPTY_HEAP, 1, fuel - 1) == StmtErr;
  }

  lemma {:induction false} PoolBound(pool: seq<int32>, code: Code)
    ensures |PoolOfCode(pool, code)| <= |pool| + |code|
    decreases |code|
  {
    if code != [] { PoolBound(pool, code[..|code| - 1]); }
  }

  /** The program is accepted and fits every limit. */
  lemma SkippedLinks()
    ensures Link(SkippedDeclaration()).Some? && Limits(SkippedDeclaration())
  {
    hide CompileFunction, SkippedCode, Concat, PoolOfCode;
    var src := SkippedDeclaration();
    SkippedCompiles(0, FuncTable(src, 0));
    assert CompileUpTo(src, 0) == Some(([], 0));
    SkippedShape();
    assert [] + [SkippedCode(0)] == [SkippedCode(0)];
    assert CompileUpTo(src, 1) == Some(([SkippedCode(0)], 1));
    assert MainIndex(src) == Some(0);
    PoolBound([], SkippedCode(0).code);
    assert [SkippedCode(0)][1..] == [];
    assert PoolOf([], [SkippedCode(0)]) == PoolOfCode([], SkippedCode(0).code);
  }

  lemma SkippedShape()
    ensures var em := SkippedCode(0);
            && em.uid == 1 && |em.code| == 6 && Resolvable(em)
            && forall i | 0 <= i < |em.code| :: FieldsFit(em.code[i])
  {
  }

  lemma StepAt(p: Program, em: Emit, base: nat, pos: nat, vm: VM)
    requires Loaded(p, base, em) && pos < |em.code| && vm.ip == base + pos
    ensures Steps(p, Running(vm), 1) == Effect(Ctx(p, [], 0, base, em), em.code[pos], vm)
  {
    hide Execute, Effect, Realizes;
    ExecuteRealizes(Ctx(p, [], 0, base, em), p.code[base + pos], pos, vm);
    assert Steps(p, Running(vm), 1) == Steps(p, Step(p, vm), 0);
  }

  /** From the first instruction of `main` to its return: four steps. */
  lemma SkippedBody(p: Program, em: Emit, uid: nat, base: nat, vm: VM) returns (vm1: VM)
    requires em == SkippedCode(uid) && Loaded(p, base, em) && vm.ip == base && vm.calls != []
    ensures Steps(p, Running(vm), 4) == Running(vm1)
    ensures var f := vm.calls[|vm.calls| - 1];
            && vm1.ip == f.retIp && vm1.fp == f.basePtr && vm1.calls == vm.calls[..|vm.calls| - 1]
            && vm1.heap == vm.heap && vm1.Get(vm.fp) == Int(0)
  {
    hide Loaded, Steps, SkippedCode;
    var b := SkippedTest(p, em, uid, base, vm);
    vm1 := SkippedRest(p, em, uid, base, b);
    StepsAdd(p, Running(vm), 2, 2);
  }

  /** The condition fails and the declaration is jumped over. */
  lemma SkippedTest(p: Program, em: Emit, uid: nat, base: nat, vm: VM) returns (b: VM)
    requires em == SkippedCode(uid) && Loaded(p, base, em) && vm.ip == base
    ensures Steps(p, Running(vm), 2) == Running(b)
    ensures b.ip == base + 3 && b.fp == vm.fp && b.calls == vm.calls && b.heap == vm.heap && b.Reg(0) == Int(0)
  {
    hide Loaded, Steps;
    var c := Ctx(p, [], 0, base, em);
    StepAt(p, em, base, 0, vm);
    var a := Effect(c, em.code[0], vm).vm;
    StepAt(p, em, base, 1, a);
    b := Effect(c, em.code[1], a).vm;
    StepsAdd(p, Running(vm), 1, 1);
  }

  /** The value of the condition, still in its register, is returned. */
  lemma SkippedRest(p: Program, em: Emit, uid: nat, base: nat, vm: VM) returns (vm1: VM)
    requires em == SkippedCode(uid) && Loaded(p, base, em) && vm.ip == base + 3 && vm.calls != []
    requires vm.Reg(0) == Int(0)
    ensures Steps(p, Running(vm), 2) == Running(vm1)
    ensures var f := vm.calls[|vm.calls| - 1];
            && vm1.ip == f.retIp && vm1.fp == f.basePtr && vm1.calls == vm.calls[..|vm.calls| - 1]
            && vm1.heap == vm.heap && vm1.Get(vm.fp) == Int(0)
  {
    hide Loaded, Steps;
    var c := Ctx(p, [], 0, base, em);
    StepAt(p, em, base, 3, vm);
    var d := Effect(c, em.code[3], vm).vm;
    StepAt(p, em, base, 4, d);
    StepsAdd(p, Running(vm), 1, 1);
    vm1 := Effect(c, em.code[4], d).vm;
  }

  /** The machine returns 0 where the source fails: the program reads a variable whose
      declaration was skipped. */
  lemma ScopeMatters()
    ensures var src := SkippedDeclaration();
            && !WellScoped(src) && Limits(src) && Link(src).Some? && Evaluates(src, ExprErr)
            && HaltsWith(Boot(Link(src).value), Initial(Link(src).value), Int(0), EMPTY_HEAP)
  {
    hide Link, Limits, Linked, Boot, CompileFunction, SkippedCode, Steps, Loaded, RunSource, WellScoped;
    var src := SkippedDeclaration();
    SkippedLinks();
    SkippedFails(1);
    NotScoped();
    var image := Link(src).value;
    var p, vm := Boot(image), Initial(image);
    SmallSource(src);
    StartsMain(src, image);
    LinkedImage(src, image);
    LinkParts(src, image);
    InitialCalls(image);
    var uid, em := MainIs(p, src);
    var main := Steps(p, Running(vm), 1).vm;
    var vm1 := SkippedBody(p, em, uid, p.funcs[0].entry, main);
    StepsAdd(p, Running(vm), 1, 4);
    StepsAdd(p, Running(vm), 5, 1);
    var vm2 := vm1.(ip := CODE_MAX_SIZE - 1);
    assert Steps(p, Running(vm), 6) == Halted(vm2);
    TopLevelRun(p, vm, vm2);
  }

  lemma NotScoped()
    ensures !WellScoped(SkippedDeclaration())
  {
    var src := SkippedDeclaration();
    assert src[0].body[0] == SkippedBranch();
    assert "x" in DeclaredByBranch(SkippedBranch().thn, {});
    assert !Scoped(SkippedBranch(), {});
    assert (set x | x in src[0].params) == {};
  }

  lemma MainIs(p: Program, src: Source) returns (uid: nat, em: Emit)
    requires src == SkippedDeclaration() && Linked(p, src)
    ensures |p.funcs| == 1 && em == SkippedCode(uid) && Loaded(p, p.funcs[0].entry, em) && p.funcs[0].arity == 0
  {
    hide CompileFunction, SkippedCode, Loaded;
    assert LinkedFunction(p, src, 0);
    uid, em :| LinkedAt(p, src, 0, uid, em);
    SkippedCompiles(uid, FuncTable(src, 0));
  }
}
