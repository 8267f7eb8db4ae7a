/** Code for expressions (src/expr_semantic.cpp): `eval_expr` appends instructions to
    the emitter and moves the register counter, as `Codegen.CompileExpr` says. */
module ExprSemantic {
  import opened Values
  import opened Ast
  import opened Codegen
  import opened CodegenFacts
  import opened Variables
  import opened Emitter

  /** The emitter has appended the code `spec`, and `sp` is the first free register. */
  ghost predicate Emitted(em: BytecodeEmitter, vars: VarManager, spec: Option<Code>, cur: EmitFunc, levels: Levels,
      sp: nat)
    reads em, vars
  {
    && em.Valid() && em.cur.name == cur.name && em.cur.arity == cur.arity
    && vars.Valid() && vars.levels == Raised(levels, sp) && spec == Some(em.code)
  }

  /** `eval_expr`. */
  method EvalExpr(e: Expr, em: BytecodeEmitter, vars: VarManager) returns (ok: bool)
    requires em.Valid() && em.isInFunc && vars.Valid()
    modifies em`cur, em`code, em`iconstants, em`iconstantCount, em`pool, vars`levels
    ensures var r := CompileExpr(e, old(em.code), old(vars.Scope()).names, old(vars.Scope()).sp, vars.functions);
            ok == r.Some? && (ok ==> Emitted(em, vars, r, old(em.cur), old(vars.levels), old(vars.Scope()).sp + 1))
    ensures ok ==> vars.Scope() == old(vars.Scope()).(sp := old(vars.Scope()).sp + 1)
    decreases e, 1
  {
    hide BytecodeEmitter.Valid, Covers, OperatorInstr, EmitMove;
    match e
    case Var(name) => ok := EvalVar(e, em, vars);
    case IntLit(n) =>
      var r := vars.PushVar();
      em.EmitLoadI(r, Wrap32(n));
      ok := true;
    case Neg(e1) =>
      ok := EvalExpr(e1, em, vars);
      if !ok { return; }
      em.EmitNeg(vars.Last(), vars.Last());
    case Bin(_, _, _) => ok := EvalBinary(e, em, vars);
    case Index(_, _) => ok := EvalIndex(e, em, vars);
    case Call(_, _) => ok := EvalCall(e, em, vars);
  }

  method EvalVar(e: Expr, em: BytecodeEmitter, vars: VarManager) returns (ok: bool)
    requires em.Valid() && em.isInFunc && vars.Valid() && e.Var?
    modifies em`cur, em`code, em`iconstants, em`iconstantCount, em`pool, vars`levels
    ensures var r := CompileExpr(e, old(em.code), old(vars.Scope()).names, old(vars.Scope()).sp, vars.functions);
            ok == r.Some? && (ok ==> Emitted(em, vars, r, old(em.cur), old(vars.levels), old(vars.Scope()).sp + 1))
    decreases e, 0
  {
    hide BytecodeEmitter.Valid, Covers, Nested;
    if e.name == "nil" {
      var r := vars.PushVar();
      em.EmitLoadNil(r);
      return true;
    }
    var res := vars.GetVar(e.name);
    if res.None? {
      if e.name !in vars.functions { return false; }
      var r := vars.PushVar();
      em.EmitLoadFunc(r, vars.functions[e.name]);
      return true;
    }
    var r := vars.PushVar();
    em.Move(r, res.value);
    ok := true;
  }

  /** `simple_eval_binary`. */
  method EvalBinary(e: Expr, em: BytecodeEmitter, vars: VarManager) returns (ok: bool)
    requires em.Valid() && em.isInFunc && vars.Valid() && e.Bin?
    modifies em`cur, em`code, em`iconstants, em`iconstantCount, em`pool, vars`levels
    ensures var r := CompileExpr(e, old(em.code), old(vars.Scope()).names, old(vars.Scope()).sp, vars.functions);
            ok == r.Some? && (ok ==> Emitted(em, vars, r, old(em.cur), old(vars.levels), old(vars.Scope()).sp + 1))
    decreases e, 0
  {
    hide BytecodeEmitter.Valid, Covers, OperatorInstr;
    ok := EvalExpr(e.l, em, vars);
    if !ok { return; }
    ok := EvalExpr(e.r, em, vars);
    if !ok { return; }
    GetFunc(e.op, em, vars);
    var _ := vars.PopVar();
  }

  method EvalIndex(e: Expr, em: BytecodeEmitter, vars: VarManager) returns (ok: bool)
    requires em.Valid() && em.isInFunc && vars.Valid() && e.Index?
    modifies em`cur, em`code, em`iconstants, em`iconstantCount, em`pool, vars`levels
    ensures var r := CompileExpr(e, old(em.code), old(vars.Scope()).names, old(vars.Scope()).sp, vars.functions);
            ok == r.Some? && (ok ==> Emitted(em, vars, r, old(em.cur), old(vars.levels), old(vars.Scope()).sp + 1))
    decreases e, 0
  {
    hide BytecodeEmitter.Valid, Covers, OperatorInstr;
    if !CheckLvalue(e.base) { return false; }
    ok := EvalExpr(e.base, em, vars);
    if !ok { return; }
    ok := EvalExpr(e.index, em, vars);
    if !ok { return; }
    em.EmitArrayGet(vars.Last() - 1, vars.Last() - 1, vars.Last());
    var _ := vars.PopVar();
  }

  /** The code of a call: callee, arguments behind it, the call, the result one
      register down. */
  lemma CallCompiled(e: Expr, code: Code, names: Names, sp: nat, funcs: Names)
    requires e.Call?
    ensures !CheckLvalue(e.callee) ==> CompileExpr(e, code, names, sp, funcs) == None
    ensures CheckLvalue(e.callee) && e.callee != Var("array") ==>
              var r1 := CompileExpr(e.callee, code, names, sp, funcs);
              if r1.None? then CompileExpr(e, code, names, sp, funcs) == None
              else
                var r2 := CompileArgs(e.args, r1.value, names, sp + 1, funcs);
                if r2.None? then CompileExpr(e, code, names, sp, funcs) == None
                else CompileExpr(e, code, names, sp,
                    funcs) == Some(EmitMove(r2.value + [Invoke(sp, sp + 1, |e.args|)], sp, sp + 1))
  {
    hide CheckLvalue, EmitMove, CompileArgs;
  }

  method EvalCall(e: Expr, em: BytecodeEmitter, vars: VarManager) returns (ok: bool)
    requires em.Valid() && em.isInFunc && vars.Valid() && e.Call?
    modifies em`cur, em`code, em`iconstants, em`iconstantCount, em`pool, vars`levels
    ensures var r := CompileExpr(e, old(em.code), old(vars.Scope()).names, old(vars.Scope()).sp, vars.functions);
            ok == r.Some? && (ok ==> Emitted(em, vars, r, old(em.cur), old(vars.levels), old(vars.Scope()).sp + 1))
    decreases e, 0
  {
    hide BytecodeEmitter.Valid, VarManager.Valid, EmitMove, CheckLvalue, CompileExpr, CompileArgs;
    vars.ScopeIsOk();
    CallCompiled(e, em.code, vars.Scope().names, vars.Scope().sp, vars.functions);
    if !CheckLvalue(e.callee) { return false; }
    if e.callee == Var("array") {
      ok := EvalAlloc(e, em, vars);
      return;
    }
    ok := EvalExpr(e.callee, em, vars);
    if !ok { return; }
    var start := vars.Last();
    ok := EvalArgs(e.args, em, vars);
    if !ok { return; }
    em.EmitCall(start, start + 1, |e.args|);
    vars.Drop(|e.args|);
    em.Move(vars.Last(), vars.Last() + 1);
  }

  /** A call of `array`. */
  method EvalAlloc(e: Expr, em: BytecodeEmitter, vars: VarManager) returns (ok: bool)
    requires em.Valid() && em.isInFunc && vars.Valid() && e.Call? && e.callee == Var("array")
    modifies em`cur, em`code, em`iconstants, em`iconstantCount, em`pool, vars`levels
    ensures var r := CompileExpr(e, old(em.code), old(vars.Scope()).names, old(vars.Scope()).sp, vars.functions);
            ok == r.Some? && (ok ==> Emitted(em, vars, r, old(em.cur), old(vars.levels), old(vars.Scope()).sp + 1))
    decreases e.args, 3
  {
    hide BytecodeEmitter.Valid, Covers;
    var start := vars.PushVar();
    ok := EvalArgs(e.args, em, vars);
    if !ok { return; }
    if |e.args| != 1 { return false; }
    vars.Drop(1);
    em.EmitAlloc(vars.Last(), start + 1);
  }

  /** `get_func`: the operands are in the two topmost registers. */
  method GetFunc(op: Operator, em: BytecodeEmitter, vars: VarManager)
    requires em.Valid() && em.isInFunc && vars.Valid() && vars.Scope().sp >= 2
    modifies em`cur, em`code
    ensures em.Valid() && em.code == old(em.code) + [OperatorInstr(op, vars.Scope().sp - 2)]
    ensures em.cur.name == old(em.cur).name && em.cur.arity == old(em.cur).arity
  {
    hide BytecodeEmitter.Valid, Covers;
    var top := vars.Last();
    match op
    case OAdd => em.EmitBinary(Add, top - 1, top - 1, top);
    case ODiv => em.EmitBinary(Div, top - 1, top - 1, top);
    case OMul => em.EmitBinary(Mul, top - 1, top - 1, top);
    case OSub => em.EmitBinary(Sub, top - 1, top - 1, top);
    case OMod => em.EmitBinary(Mod, top - 1, top - 1, top);
    case OEq => em.EmitBinary(Eq, top - 1, top - 1, top);
    case ONeq => em.EmitBinary(Neq, top - 1, top - 1, top);
    case OLe => em.EmitBinary(Le, top - 1, top - 1, top);
    case OLs => em.EmitBinary(Lt, top - 1, top - 1, top);
    case OGr => em.EmitBinary(Lt, top - 1, top, top - 1);
    case OGe => em.EmitBinary(Le, top - 1, top, top - 1);
  }

  /** The argument loop of a call: each argument in the next register. */
  method EvalArgs(args: seq<Expr>, em: BytecodeEmitter, vars: VarManager) returns (ok: bool)
    requires em.Valid() && em.isInFunc && vars.Valid()
    modifies em`cur, em`code, em`iconstants, em`iconstantCount, em`pool, vars`levels
    ensures var r := CompileArgs(args, old(em.code), old(vars.Scope()).names, old(vars.Scope()).sp, vars.functions);
            ok == r.Some? && (ok ==> Emitted(em, vars, r, old(em.cur), old(vars.levels), old(vars.Scope()).sp + |args|))
    decreases args, 2
  {
    hide BytecodeEmitter.Valid, Covers, CompileExpr;
    ghost var sp := vars.Scope().sp;
    for j := 0 to |args|
      invariant em.Valid() && em.cur.name == old(em.cur).name && em.cur.arity == old(em.cur).arity
      invariant vars.Valid() && vars.levels == Raised(old(vars.levels), sp + j)
      invariant CompileArgs(args[j..], em.code, vars.Scope().names, sp + j, vars.functions)
                == CompileArgs(args, old(em.code), old(vars.Scope()).names, sp, vars.functions)
    {
      assert args[j..][0] == args[j] && args[j..][1..] == args[j + 1..];
      ok := EvalExpr(args[j], em, vars);
      if !ok { return; }
    }
    ok := true;
  }
}
