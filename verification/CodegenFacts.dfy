/** What every statement keeps while it is compiled: code only grows, labels are
    fresh and stay where they were placed, every jump has a target, names keep
    distinct registers below the register counter. */
module CodegenFacts {
  import opened Values
  import opened Ast
  import opened Codegen
  import SourceSemantics

  /** Placed labels have been numbered, and lie inside the code. */
  ghost predicate WfEmit(em: Emit) {
    forall l | l in em.labels :: l < em.uid && em.labels[l] <= |em.code|
  }

  /** `names` maps names injectively to registers below `sp`. */
  ghost predicate WfScope(sc: Scope) {
    && (forall x | x in sc.names :: sc.names[x] < sc.sp)
    && (forall x, y | x in sc.names && y in sc.names && x != y :: sc.names[x] != sc.names[y])
  }

  ghost predicate SubNames(n: Names, n1: Names) {
    forall x | x in n :: x in n1 && n1[x] == n[x]
  }

  /** Emission appends: earlier code and labels stay, new labels have new numbers. */
  ghost predicate Grows(em: Emit, em1: Emit) {
    && em.code <= em1.code
    && em.uid <= em1.uid
    && (forall l | l in em.labels :: l in em1.labels && em1.labels[l] == em.labels[l])
    && (forall l | l in em1.labels :: l in em.labels || em.uid <= l < em1.uid)
  }

  function JumpLabel(i: LInstr): Option<nat> {
    match i
    case Jmp(l) => Some(l)
    case JmpT(_, l) => Some(l)
    case JmpF(_, l) => Some(l)
    case _ => None
  }

  /** Functions are only mentioned by their numbers in `funcs`. */
  predicate Known(i: LInstr, funcs: Names) {
    i.LoadF? ==> i.fid in funcs.Values
  }

  /** Every jump emitted from `from` on goes to a placed label or breaks out. */
  ghost predicate Targeted(from: nat, em: Emit, brk: Option<nat>, funcs: Names) {
    forall i | from <= i < |em.code| ::
      && Known(em.code[i], funcs)
      && (JumpLabel(em.code[i]).Some? ==>
            JumpLabel(em.code[i]).value in em.labels || JumpLabel(em.code[i]) == brk)
  }

  ghost predicate Grown(em: Emit, brk: Option<nat>, em1: Emit, funcs: Names) {
    && Grows(em, em1) && WfEmit(em1) && Targeted(|em.code|, em1, brk, funcs)
  }

  ghost predicate Widened(sc: Scope, sc1: Scope) {
    && WfScope(sc1) && SubNames(sc.names, sc1.names) && sc.sp <= sc1.sp
  }

  /** A label the enclosing loop has reserved for `break` and not yet placed. */
  ghost predicate Reserved(brk: Option<nat>, em: Emit) {
    brk.Some? ==> brk.value < em.uid && brk.value !in em.labels
  }

  ghost predicate Straight(from: nat, code: Code, funcs: Names) {
    forall i | from <= i < |code| :: JumpLabel(code[i]).None? && Known(code[i], funcs)
  }

  lemma {:induction false} ExprStraight(e: Expr, code: Code, names: Names, sp: nat, funcs: Names)
    requires CompileExpr(e, code, names, sp, funcs).Some?
    ensures Straight(|code|, CompileExpr(e, code, names, sp, funcs).value, funcs)
    decreases e, 1
  {
    match e
    case Var(_) =>
    case IntLit(_) =>
    case Neg(e1) => ExprStraight(e1, code, names, sp, funcs);
    case Bin(_, l, r) => PairStraight(e, l, r, code, names, sp, funcs);
    case Index(b, i) => PairStraight(e, b, i, code, names, sp, funcs);
    case Call(_, _) => CallStraight(e, code, names, sp, funcs);
  }

  lemma {:induction false} PairStraight(e: Expr, l: Expr, r: Expr, code: Code, names: Names, sp: nat, funcs: Names)
    requires (e.Bin? && l == e.l && r == e.r) || (e.Index? && l == e.base && r == e.index)
    requires CompileExpr(e, code, names, sp, funcs).Some?
    ensures Straight(|code|, CompileExpr(e, code, names, sp, funcs).value, funcs)
    decreases e, 0
  {
    ExprStraight(l, code, names, sp, funcs);
    ExprStraight(r, CompileExpr(l, code, names, sp, funcs).value, names, sp + 1, funcs);
  }

  lemma {:induction false} CallStraight(e: Expr, code: Code, names: Names, sp: nat, funcs: Names)
    requires e.Call? && CompileExpr(e, code, names, sp, funcs).Some?
    ensures Straight(|code|, CompileExpr(e, code, names, sp, funcs).value, funcs)
    decreases e, 0
  {
    if e.callee == Var("array") {
      ArgsStraight(e.args, code, names, sp + 1, funcs);
    } else {
      ExprStraight(e.callee, code, names, sp, funcs);
      ArgsStraight(e.args, CompileExpr(e.callee, code, names, sp, funcs).value, names, sp + 1, funcs);
    }
  }

  lemma {:induction false} ArgsStraight(args: seq<Expr>, code: Code, names: Names, sp: nat, funcs: Names)
    requires CompileArgs(args, code, names, sp, funcs).Some?
    ensures Straight(|code|, CompileArgs(args, code, names, sp, funcs).value, funcs)
    decreases args, 0
  {
    if args != [] {
      ExprStraight(args[0], code, names, sp, funcs);
      ArgsStraight(args[1..], CompileExpr(args[0], code, names, sp, funcs).value, names, sp + 1, funcs);
    }
  }

  lemma SimpleFacts(s: Simple, code: Code, sc: Scope, funcs: Names)
    requires CompileSimple(s, code, sc, funcs).Some?
    requires WfScope(sc)
    ensures var (c1, sc1) := CompileSimple(s, code, sc, funcs).value;
            && Straight(|code|, c1, funcs) && Widened(sc, sc1)
            && sc1.names.Keys == SourceSemantics.DeclaredBySimple(s, sc.names.Keys)
  {
    hide CompileExpr;
    match s
    case Eval(e) => ExprStraight(e, code, sc.names, sc.sp, funcs);
    case Assign(aop, lhs, rhs) =>
      ExprStraight(rhs, code, sc.names, sc.sp, funcs);
      var c1 := CompileExpr(rhs, code, sc.names, sc.sp, funcs).value;
      if lhs.Index? {
        ExprStraight(lhs.base, c1, sc.names, sc.sp + 1, funcs);
        ExprStraight(lhs.index, CompileExpr(lhs.base, c1, sc.names, sc.sp + 1, funcs).value, sc.names, sc.sp + 2,
            funcs);
      }
  }

  /** The statements without statements inside. */
  lemma LeafFacts(s: Stmt, em: Emit, sc: Scope, funcs: Names, brk: Option<nat>)
    requires (s.Do? || s.Return? || s.Break?) && CompileStmt(s, em, sc, funcs, brk).Some?
    requires WfEmit(em) && WfScope(sc) && Reserved(brk, em)
    ensures var (em1, sc1) := CompileStmt(s, em, sc, funcs, brk).value;
            && Grown(em, brk, em1, funcs) && Widened(sc, sc1)
            && sc1.names.Keys == SourceSemantics.Declared(s, sc.names.Keys)
  {
    match s
    case Do(simple) => SimpleFacts(simple, em.code, sc, funcs);
    case Return(e) => ExprStraight(e, em.code, sc.names, sc.sp, funcs);
    case Break =>
  }

  lemma {:induction false} StmtFacts(s: Stmt, em: Emit, sc: Scope, funcs: Names, brk: Option<nat>)
    requires CompileStmt(s, em, sc, funcs, brk).Some?
    requires WfEmit(em) && WfScope(sc) && Reserved(brk, em)
    ensures var (em1, sc1) := CompileStmt(s, em, sc, funcs, brk).value;
            && Grown(em, brk, em1, funcs) && Widened(sc, sc1)
            && sc1.names.Keys == SourceSemantics.Declared(s, sc.names.Keys)
    decreases s, 3
  {
    hide CompileStmt, Grown, Widened, WfEmit, WfScope, Reserved;
    match s
    case If(_, _, _) => IfFacts(s, em, sc, funcs, brk);
    case While(_, _) => WhileFacts(s, em, sc, funcs, brk);
    case For(_, _, _, _) => ForFacts(s, em, sc, funcs, brk);
    case _ => LeafFacts(s, em, sc, funcs, brk);
  }

  lemma {:induction false} WhileFacts(s: Stmt, em: Emit, sc: Scope, funcs: Names, brk: Option<nat>)
    requires s.While? && CompileStmt(s, em, sc, funcs, brk).Some?
    requires WfEmit(em) && WfScope(sc) && Reserved(brk, em)
    ensures var (em1, sc1) := CompileStmt(s, em, sc, funcs, brk).value;
            && Grown(em, brk, em1, funcs) && Widened(sc, sc1)
            && sc1.names.Keys == SourceSemantics.Declared(s, sc.names.Keys)
    decreases s, 2
  {
    LoopFacts(s, em, sc, funcs);
  }

  lemma {:induction false} ForFacts(s: Stmt, em: Emit, sc: Scope, funcs: Names, brk: Option<nat>)
    requires s.For? && CompileStmt(s, em, sc, funcs, brk).Some?
    requires WfEmit(em) && WfScope(sc) && Reserved(brk, em)
    ensures var (em1, sc1) := CompileStmt(s, em, sc, funcs, brk).value;
            && Grown(em, brk, em1, funcs) && Widened(sc, sc1)
            && sc1.names.Keys == SourceSemantics.Declared(s, sc.names.Keys)
    decreases s, 2
  {
    if s.init.Init? { SimpleFacts(s.init.init, em.code, sc, funcs); }
    var (c1, sc1) := CompileInit(s.init, em.code, sc, funcs).value;
    LoopFacts(s, em.(code := c1), sc1, funcs);
  }

  /** One-branch conditional: the label of its jump is placed behind the branch. */
  lemma OneBranch(em: Emit, c1: Code, r: nat, em2: Emit, brk: Option<nat>, funcs: Names)
    requires WfEmit(em) && Reserved(brk, em) && em.code <= c1 && Straight(|em.code|, c1, funcs)
    requires Grown(Emit(c1 + [JmpF(r, em.uid)], em.labels, em.uid + 1), brk, em2, funcs)
    ensures Grown(em, brk, em2.Place(em.uid), funcs)
  {
    var em1 := Emit(c1 + [JmpF(r, em.uid)], em.labels, em.uid + 1);
    assert em1.code <= em2.code && em2.code[|c1|] == JmpF(r, em.uid);
  }

  /** Two branches: the first label is placed behind the jump over the second. */
  lemma TwoBranches(em: Emit, c1: Code, r: nat, em2: Emit, em4: Emit, brk: Option<nat>, funcs: Names)
    requires WfEmit(em) && Reserved(brk, em) && em.code <= c1 && Straight(|em.code|, c1, funcs)
    requires Grown(Emit(c1 + [JmpF(r, em.uid)], em.labels, em.uid + 1), brk, em2, funcs)
    requires Grown(em2.(uid := em2.uid + 1).Add(Jmp(em2.uid)).Place(em.uid), brk, em4, funcs)
    ensures Grown(em, brk, em4.Place(em2.uid), funcs)
  {
    var em1 := Emit(c1 + [JmpF(r, em.uid)], em.labels, em.uid + 1);
    var em3 := em2.(uid := em2.uid + 1).Add(Jmp(em2.uid)).Place(em.uid);
    assert em1.code <= em2.code && em2.code[|c1|] == JmpF(r, em.uid);
    assert em3.code <= em4.code && em4.code[|em2.code|] == Jmp(em2.uid);
    forall i | |em.code| <= i < |em4.code|
      ensures Known(em4.code[i], funcs)
      ensures JumpLabel(em4.code[i]).Some? ==>
                JumpLabel(em4.code[i]).value in em4.Place(em2.uid).labels || JumpLabel(em4.code[i]) == brk
    {
      if i < |em2.code| {
        assert em4.code[i] == em2.code[i];
      }
    }
  }

  lemma {:induction false} IfFacts(s: Stmt, em: Emit, sc: Scope, funcs: Names, brk: Option<nat>)
    requires s.If? && CompileStmt(s, em, sc, funcs, brk).Some?
    requires WfEmit(em) && WfScope(sc) && Reserved(brk, em)
    ensures var (em1, sc1) := CompileStmt(s, em, sc, funcs, brk).value;
            && Grown(em, brk, em1, funcs) && Widened(sc, sc1)
            && sc1.names.Keys == SourceSemantics.Declared(s, sc.names.Keys)
    decreases s, 2
  {
    hide CompileExpr, CompileBranch, Straight, WfScope;
    ExprStraight(s.cond, em.code, sc.names, sc.sp, funcs);
    var c1 := CompileExpr(s.cond, em.code, sc.names, sc.sp, funcs).value;
    var id1 := em.uid;
    var em1 := Emit(c1 + [JmpF(sc.sp, id1)], em.labels, em.uid + 1);
    BranchFacts(s.thn, em1, sc, funcs, brk);
    var (em2, sc2) := CompileBranch(s.thn, em1, sc, funcs, brk).value;
    if s.els.Else? {
      var em3 := em2.(uid := em2.uid + 1).Add(Jmp(em2.uid)).Place(id1);
      BranchFacts(s.els.body, em3, sc2, funcs, brk);
      TwoBranches(em, c1, sc.sp, em2, CompileBranch(s.els.body, em3, sc2, funcs, brk).value.0, brk, funcs);
    } else {
      OneBranch(em, c1, sc.sp, em2, brk, funcs);
    }
  }

  lemma {:induction false} StmtsFacts(ss: seq<Stmt>, em: Emit, sc: Scope, funcs: Names, brk: Option<nat>)
    requires CompileStmts(ss, em, sc, funcs, brk).Some?
    requires WfEmit(em) && WfScope(sc) && Reserved(brk, em)
    ensures var (em1, sc1) := CompileStmts(ss, em, sc, funcs, brk).value;
            && Grown(em, brk, em1, funcs) && Widened(sc, sc1)
            && sc1.names.Keys == SourceSemantics.DeclaredByAll(ss, sc.names.Keys)
    decreases ss, 0
  {
    if ss != [] {
      StmtFacts(ss[0], em, sc, funcs, brk);
      var (em1, sc1) := CompileStmt(ss[0], em, sc, funcs, brk).value;
      StmtsFacts(ss[1..], em1, sc1, funcs, brk);
    }
  }

  lemma {:induction false} BodyFacts(b: Body, em: Emit, sc: Scope, funcs: Names, brk: Option<nat>)
    requires CompileBody(b, em, sc, funcs, brk).Some?
    requires WfEmit(em) && WfScope(sc) && Reserved(brk, em)
    ensures var (em1, sc1) := CompileBody(b, em, sc, funcs, brk).value;
            && Grown(em, brk, em1, funcs) && Widened(sc, sc1)
            && (b.Single? ==> sc1.names.Keys == SourceSemantics.DeclaredByBranch(b, sc.names.Keys))
    decreases b, 1
  {
    match b
    case Block(ss) => StmtsFacts(ss, em, sc, funcs, brk);
    case Single(s) => StmtFacts(s, em, sc, funcs, brk);
  }

  lemma {:induction false} BranchFacts(b: Body, em: Emit, sc: Scope, funcs: Names, brk: Option<nat>)
    requires CompileBranch(b, em, sc, funcs, brk).Some?
    requires WfEmit(em) && WfScope(sc) && Reserved(brk, em)
    ensures var (em1, sc1) := CompileBranch(b, em, sc, funcs, brk).value;
            && Grown(em, brk, em1, funcs) && Widened(sc, sc1)
            && sc1.names.Keys == SourceSemantics.DeclaredByBranch(b, sc.names.Keys)
    decreases b, 2
  {
    BodyFacts(b, em, sc, funcs, brk);
  }

  /** A rotated loop: both of its labels are placed, and nothing breaks out. */
  lemma LoopCloses(em: Emit, c1: Code, r: nat, em2: Emit, c4: Code, r1: nat, funcs: Names)
    requires WfEmit(em) && em.code <= c1 && Straight(|em.code|, c1, funcs)
    requires Grown(Emit(c1 + [JmpF(r, em.uid + 1)], em.labels, em.uid + 2).Place(em.uid), Some(em.uid + 1), em2, funcs)
    requires em2.code <= c4 && Straight(|em2.code|, c4, funcs)
    ensures Grown(em, None, Emit(c4 + [JmpT(r1, em.uid)], em2.labels, em2.uid).Place(em.uid + 1), funcs)
  {
    var em1 := Emit(c1 + [JmpF(r, em.uid + 1)], em.labels, em.uid + 2).Place(em.uid);
    var em4 := Emit(c4 + [JmpT(r1, em.uid)], em2.labels, em2.uid).Place(em.uid + 1);
    assert em1.code <= em2.code && em2.code[|c1|] == JmpF(r, em.uid + 1);
    forall i | |em.code| <= i < |em4.code|
      ensures Known(em4.code[i], funcs)
      ensures JumpLabel(em4.code[i]).Some? ==> JumpLabel(em4.code[i]).value in em4.labels
    {
      if i < |em2.code| {
        assert em4.code[i] == em2.code[i];
      }
    }
  }

  lemma {:induction false} LoopFacts(s: Stmt, em: Emit, sc: Scope, funcs: Names)
    requires s.While? || s.For?
    requires CompileLoop(s, em, sc, funcs).Some?
    requires WfEmit(em) && WfScope(sc)
    ensures Grown(em, None, CompileLoop(s, em, sc, funcs).value, funcs)
    decreases s, 1
  {
    hide CompileExpr;
    var start, end := em.uid, em.uid + 1;
    ExprStraight(s.cond, em.code, sc.names, sc.sp, funcs);
    var c1 := CompileExpr(s.cond, em.code, sc.names, sc.sp, funcs).value;
    var em1 := Emit(c1 + [JmpF(sc.sp, end)], em.labels, em.uid + 2).Place(start);
    BodyFacts(s.body, em1, sc, funcs, Some(end));
    var (em2, sc2) := CompileBody(s.body, em1, sc, funcs, Some(end)).value;
    var (c3, sc3) := CompileInc(s, em2.code, sc2, funcs).value;
    var c4 := CompileExpr(s.cond, c3, sc3.names, sc3.sp, funcs).value;
    LoopTail(s, em2.code, sc2, funcs);
    LoopCloses(em, c1, sc.sp, em2, c4, sc3.sp, funcs);
  }

  lemma LoopTail(s: Stmt, code: Code, sc: Scope, funcs: Names)
    requires (s.While? || s.For?) && WfScope(sc) && CompileInc(s, code, sc, funcs).Some?
    requires var (c3, sc3) := CompileInc(s, code, sc, funcs).value;
             CompileExpr(s.cond, c3, sc3.names, sc3.sp, funcs).Some?
    ensures var (c3, sc3) := CompileInc(s, code, sc, funcs).value;
            Straight(|code|, CompileExpr(s.cond, c3, sc3.names, sc3.sp, funcs).value, funcs)
  {
    hide CompileExpr, CompileSimple;
    if s.For? { SimpleFacts(s.inc, code, sc, funcs); }
    var (c3, sc3) := CompileInc(s, code, sc, funcs).value;
    ExprStraight(s.cond, c3, sc3.names, sc3.sp, funcs);
  }

  lemma {:induction false} ParamFacts(params: seq<string>)
    requires Distinct(params)
    ensures WfScope(Scope(ParamNames(params), |params|))
    ensures ParamNames(params).Keys == set x | x in params
    ensures forall i | 0 <= i < |params| :: ParamNames(params)[params[i]] == i
  {
    if params != [] {
      var n := |params| - 1;
      ParamFacts(params[..n]);
      assert params == params[..n] + [params[n]];
    }
  }

  /** No function leaves a jump without a label, and no label lies outside it: the
      trailing return is behind every jump target. */
  lemma FunctionFacts(f: Function, funcs: Names, uid: nat)
    requires CompileFunction(f, funcs, uid).Some?
    ensures var em := CompileFunction(f, funcs, uid).value;
            && uid <= em.uid
            && em.code != [] && em.code[|em.code| - 1] == RetNil
            && (forall l | l in em.labels :: em.labels[l] < |em.code|)
            && (forall i | 0 <= i < |em.code| && JumpLabel(em.code[i]).Some? ::
               JumpLabel(em.code[i]).value in em.labels)
            && (forall i | 0 <= i < |em.code| :: Known(em.code[i], funcs))
  {
    ParamFacts(f.params);
    StmtsFacts(f.body, Emit([], map[], uid), Scope(ParamNames(f.params), |f.params|), funcs, None);
  }
}
