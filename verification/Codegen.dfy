/** The code generator as a function: what `eval_expr` and the statement emitters
    append to the current function, which labels they place and how they move the
    register counter (src/expr_semantic.cpp, src/parser.cpp). */
module Codegen {
  import opened Values
  import opened Ast

  /** An instruction before linking: literals in place of pool indices, label
      numbers in place of jump offsets. */
  datatype LInstr =
    | LoadI(a: nat, v: int32)
    | LoadF(a: nat, fid: nat)
    | LoadNil(a: nat)
    | Move(a: nat, b: nat)
    | NegI(a: nat, b: nat)
    | BinI(op: BinOp, a: nat, b: nat, c: nat)
    | AllocI(a: nat, b: nat)
    | GetI(a: nat, b: nat, c: nat)
    | SetI(a: nat, b: nat, c: nat)
    | Invoke(a: nat, b: nat, c: nat)
    | Ret(a: nat)
    | RetNil
    | Jmp(l: nat)
    | JmpT(a: nat, l: nat)
    | JmpF(a: nat, l: nat)

  type Code = seq<LInstr>
  type Names = map<string, nat>

  /** The function being emitted: its code, the labels placed in it, and the next
      unused label number. */
  datatype Emit = Emit(code: Code, labels: map<nat, nat>, uid: nat)
  {
    function Place(l: nat): Emit { this.(labels := labels[l := |code|]) }
    function Add(i: LInstr): Emit { this.(code := code + [i]) }
  }

  /** Names in scope with their registers, and the first free register. */
  datatype Scope = Scope(names: Names, sp: nat)

  predicate CheckLvalue(e: Expr) {
    match e
    case Var(_) => true
    case Call(f, _) => CheckLvalue(f)
    case Index(b, _) => CheckLvalue(b)
    case _ => false
  }

  /** `emit_move` emits nothing for a move of a register to itself. */
  function EmitMove(code: Code, a: nat, b: nat): (r: Code)
    ensures code <= r
  {
    if a == b then code else code + [Move(a, b)]
  }

  /** The operands are in `sp` and `sp + 1`, the result goes to `sp`. */
  function OperatorInstr(op: Operator, sp: nat): LInstr {
    match op
    case OAdd => BinI(Add, sp, sp, sp + 1)
    case OSub => BinI(Sub, sp, sp, sp + 1)
    case OMul => BinI(Mul, sp, sp, sp + 1)
    case ODiv => BinI(Div, sp, sp, sp + 1)
    case OMod => BinI(Mod, sp, sp, sp + 1)
    case OEq => BinI(Eq, sp, sp, sp + 1)
    case ONeq => BinI(Neq, sp, sp, sp + 1)
    case OLe => BinI(Le, sp, sp, sp + 1)
    case OLs => BinI(Lt, sp, sp, sp + 1)
    case OGr => BinI(Lt, sp, sp + 1, sp)
    case OGe => BinI(Le, sp, sp + 1, sp)
  }

  /** Code that leaves the value of `e` in register `sp`; `None` where the parser
      throws. */
  function CompileExpr(e: Expr, code: Code, names: Names, sp: nat, funcs: Names): (r: Option<Code>)
    ensures r.Some? ==> code <= r.value
    decreases e, 1
  {
    match e
    case Var(name) =>
      if name == "nil" then Some(code + [LoadNil(sp)])
      else if name in names then Some(EmitMove(code, sp, names[name]))
      else if name in funcs then Some(code + [LoadF(sp, funcs[name])])
      else None
    case IntLit(n) => Some(code + [LoadI(sp, Wrap32(n))])
    case Neg(e1) =>
      var c1 :- CompileExpr(e1, code, names, sp, funcs);
      Some(c1 + [NegI(sp, sp)])
    case Bin(op, l, r) =>
      var c1 :- CompileExpr(l, code, names, sp, funcs);
      var c2 :- CompileExpr(r, c1, names, sp + 1, funcs);
      Some(c2 + [OperatorInstr(op, sp)])
    case Index(b, i) =>
      if !CheckLvalue(b) then None
      else
        var c1 :- CompileExpr(b, code, names, sp, funcs);
        var c2 :- CompileExpr(i, c1, names, sp + 1, funcs);
        Some(c2 + [GetI(sp, sp, sp + 1)])
    case Call(f, args) =>
      if !CheckLvalue(f) then None
      else if f == Var("array") then
        var c1 :- CompileArgs(args, code, names, sp + 1, funcs);
        if |args| != 1 then None else Some(c1 + [AllocI(sp, sp + 1)])
      else
        var c1 :- CompileExpr(f, code, names, sp, funcs);
        var c2 :- CompileArgs(args, c1, names, sp + 1, funcs);
        Some(EmitMove(c2 + [Invoke(sp, sp + 1, |args|)], sp, sp + 1))
  }

  function CompileArgs(args: seq<Expr>, code: Code, names: Names, sp: nat, funcs: Names): (r: Option<Code>)
    ensures r.Some? ==> code <= r.value
    decreases args, 0
  {
    if args == [] then Some(code)
    else
      var c1 :- CompileExpr(args[0], code, names, sp, funcs);
      CompileArgs(args[1..], c1, names, sp + 1, funcs)
  }

  /** `x op= v` with `v` in register `sp` and `x` in register `res`. */
  function EmitUpdate(aop: AssignOp, code: Code, res: nat, sp: nat): (r: Code)
    ensures code <= r
  {
    match aop
    case Set => EmitMove(code, res, sp)
    case PlusEq => code + [BinI(Add, res, sp, res)]
    case MinusEq => code + [BinI(Sub, res, res, sp)]
    case MulEq => code + [BinI(Mul, res, res, sp)]
    case DivEq => code + [BinI(Div, res, res, sp)]
  }

  function ElementOp(aop: AssignOp): BinOp
    requires !aop.Set?
  {
    match aop
    case PlusEq => Add
    case MinusEq => Sub
    case MulEq => Mul
    case DivEq => Div
  }

  /** `a[i] op= v` with `v`, `a` and `i` in `sp`, `sp + 1` and `sp + 2`; the old
      element is read into the scratch register `sp + 3`. */
  function EmitStore(aop: AssignOp, code: Code, sp: nat): (r: Code)
    ensures code <= r
  {
    var c := if aop.Set? then code
             else code + [GetI(sp + 3, sp + 1, sp + 2), BinI(ElementOp(aop), sp, sp, sp + 3)];
    c + [SetI(sp + 1, sp + 2, sp)]
  }

  /** `push_assign`. A variable that is not in scope takes over the register its
      value was computed in; a left side that is neither a variable nor an element
      leaves that register occupied. */
  function CompileSimple(s: Simple, code: Code, sc: Scope, funcs: Names): (r: Option<(Code, Scope)>)
    ensures r.Some? ==> code <= r.value.0
  {
    match s
    case Eval(e) =>
      var c1 :- CompileExpr(e, code, sc.names, sc.sp, funcs);
      Some((c1, sc))
    case Assign(aop, lhs, rhs) =>
      var c1 :- CompileExpr(rhs, code, sc.names, sc.sp, funcs);
      match lhs
      case Var(x) =>
        if x in sc.names then Some((EmitUpdate(aop, c1, sc.names[x], sc.sp), sc))
        else if aop.Set? then Some((c1, Scope(sc.names[x := sc.sp], sc.sp + 1)))
        else None
      case Index(b, i) =>
        if !CheckLvalue(b) then None
        else
          var c2 :- CompileExpr(b, c1, sc.names, sc.sp + 1, funcs);
          var c3 :- CompileExpr(i, c2, sc.names, sc.sp + 2, funcs);
          Some((EmitStore(aop, c3, sc.sp), sc))
      case _ => Some((c1, Scope(sc.names, sc.sp + 1)))
  }

  function CompileStmts(ss: seq<Stmt>, em: Emit, sc: Scope, funcs: Names, brk: Option<nat>): Option<(Emit, Scope)>
    decreases ss, 0
  {
    if ss == [] then Some((em, sc))
    else
      var (em1, sc1) :- CompileStmt(ss[0], em, sc, funcs, brk);
      CompileStmts(ss[1..], em1, sc1, funcs, brk)
  }

  function CompileBody(b: Body, em: Emit, sc: Scope, funcs: Names, brk: Option<nat>): Option<(Emit, Scope)>
    decreases b, 1
  {
    match b
    case Block(ss) => CompileStmts(ss, em, sc, funcs, brk)
    case Single(s) => CompileStmt(s, em, sc, funcs, brk)
  }

  /** A branch of a conditional: braces open a scope and close it again. */
  function CompileBranch(b: Body, em: Emit, sc: Scope, funcs: Names, brk: Option<nat>): Option<(Emit, Scope)>
    decreases b, 2
  {
    var (em1, sc1) :- CompileBody(b, em, sc, funcs, brk);
    Some((em1, if b.Block? then sc else sc1))
  }

  /** `brk` is the label `break` jumps to, if the statement is inside a loop. */
  function CompileStmt(s: Stmt, em: Emit, sc: Scope, funcs: Names, brk: Option<nat>): Option<(Emit, Scope)>
    decreases s, 3
  {
    match s
    case Do(simple) =>
      var (c1, sc1) :- CompileSimple(simple, em.code, sc, funcs);
      Some((em.(code := c1), sc1))
    case Return(e) =>
      var c1 :- CompileExpr(e, em.code, sc.names, sc.sp, funcs);
      Some((em.(code := c1 + [Ret(sc.sp)]), sc))
    case Break =>
      if brk.None? then None else Some((em.Add(Jmp(brk.value)), sc))
    case If(c, thn, els) =>
      var c1 :- CompileExpr(c, em.code, sc.names, sc.sp, funcs);
      var id1 := em.uid;
      var em1 := Emit(c1 + [JmpF(sc.sp, id1)], em.labels, em.uid + 1);
      var (em2, sc2) :- CompileBranch(thn, em1, sc, funcs, brk);
      if els.NoElse? then Some((em2.Place(id1), sc2))
      else
        var id2 := em2.uid;
        var em3 := em2.(uid := em2.uid + 1).Add(Jmp(id2)).Place(id1);
        var (em4, sc4) :- CompileBranch(els.body, em3, sc2, funcs, brk);
        Some((em4.Place(id2), sc4))
    case While(_, _) =>
      var em1 :- CompileLoop(s, em, sc, funcs);
      Some((em1, sc))
    case For(init, _, _, _) =>
      var (c1, sc1) :- CompileInit(init, em.code, sc, funcs);
      var em1 :- CompileLoop(s, em.(code := c1), sc1, funcs);
      Some((em1, sc))
  }

  function CompileInit(init: Init, code: Code, sc: Scope, funcs: Names): (r: Option<(Code, Scope)>)
    ensures r.Some? ==> code <= r.value.0
  {
    if init.NoInit? then Some((code, sc)) else CompileSimple(init.init, code, sc, funcs)
  }

  function CompileInc(s: Stmt, code: Code, sc: Scope, funcs: Names): (r: Option<(Code, Scope)>)
    ensures r.Some? ==> code <= r.value.0
  {
    if s.For? then CompileSimple(s.inc, code, sc, funcs) else Some((code, sc))
  }

  /** The rotated loop: `cond; jmpf end; start: body; inc; cond; jmpt start; end:`. */
  function CompileLoop(s: Stmt, em: Emit, sc: Scope, funcs: Names): Option<Emit>
    requires s.While? || s.For?
    decreases s, 2
  {
    var start, end := em.uid, em.uid + 1;
    var c1 :- CompileExpr(s.cond, em.code, sc.names, sc.sp, funcs);
    var em1 := Emit(c1 + [JmpF(sc.sp, end)], em.labels, em.uid + 2).Place(start);
    var (em2, sc2) :- CompileBody(s.body, em1, sc, funcs, Some(end));
    var (c3, sc3) :- CompileInc(s, em2.code, sc2, funcs);
    var c4 :- CompileExpr(s.cond, c3, sc3.names, sc3.sp, funcs);
    Some(Emit(c4 + [JmpT(sc3.sp, start)], em2.labels, em2.uid).Place(end))
  }

  /** Parameters occupy the first registers in order. */
  function ParamNames(params: seq<string>): Names {
    if params == [] then map[]
    else
      var n := |params| - 1;
      ParamNames(params[..n])[params[n] := n]
  }

  function CompileFunction(f: Function, funcs: Names, uid: nat): Option<Emit> {
    if !Distinct(f.params) then None
    else
      var (em, _) :- CompileStmts(f.body, Emit([], map[], uid), Scope(ParamNames(f.params), |f.params|), funcs, None);
      Some(em.Add(RetNil))
  }
}
