/** Where the language the compiler implements is the one a reader expects, and where it
    is not: loops that are compiled with their condition repeated behind the body, and
    compound assignments to array elements. */
module SourceFacts {
  import opened Values
  import opened Ast
  import opened SourceSemantics
  import opened Division

  // ---- names ----

  function MentionedSimple(s: Simple): set<string> {
    match s
    case Eval(e) => Mentioned(e)
    case Assign(_, lhs, rhs) => Mentioned(lhs) + Mentioned(rhs)
  }

  /** Hiding names that an expression does not mention does not change its value. */
  lemma {:induction false} HideNames(src: Source, k: nat, e: Expr, env: Env, env1: Env, heap: Heap, depth: nat,
      fuel: nat)
    requires k < |src|
    requires forall x | x in Mentioned(e) :: (x in env <==> x in env1) && (x in env ==> env1[x] == env[x])
    ensures EvalExpr(src, k, e, env1, heap, depth, fuel) == EvalExpr(src, k, e, env, heap, depth, fuel)
    decreases e, 1
  {
    hide CallFunction, FuncTable, Apply, ArrGet, Alloc;
    match e
    case Var(_) =>
    case IntLit(_) =>
    case Neg(e1) => HideNames(src, k, e1, env, env1, heap, depth, fuel);
    case Bin(_, l, r) =>
      HideNames(src, k, l, env, env1, heap, depth, fuel);
      var res := EvalExpr(src, k, l, env, heap, depth, fuel);
      if res.Val? { HideNames(src, k, r, env, env1, res.heap, depth, fuel); }
    case Index(b, i) =>
      HideNames(src, k, b, env, env1, heap, depth, fuel);
      var res := EvalExpr(src, k, b, env, heap, depth, fuel);
      if res.Val? { HideNames(src, k, i, env, env1, res.heap, depth, fuel); }
    case Call(f, args) =>
      if f == Var("array") {
        HideArgs(src, k, args, env, env1, heap, depth, fuel);
      } else {
        HideNames(src, k, f, env, env1, heap, depth, fuel);
        var res := EvalExpr(src, k, f, env, heap, depth, fuel);
        if res.Val? { HideArgs(src, k, args, env, env1, res.heap, depth, fuel); }
      }
  }

  lemma {:induction false} HideArgs(src: Source, k: nat, args: seq<Expr>, env: Env, env1: Env, heap: Heap, depth: nat,
      fuel: nat)
    requires k < |src|
    requires forall x | x in MentionedAll(args) :: (x in env <==> x in env1) && (x in env ==> env1[x] == env[x])
    ensures EvalArgs(src, k, args, env1, heap, depth, fuel) == EvalArgs(src, k, args, env, heap, depth, fuel)
    decreases args, 0
  {
    hide EvalExpr;
    if args != [] {
      HideNames(src, k, args[0], env, env1, heap, depth, fuel);
      var res := EvalExpr(src, k, args[0], env, heap, depth, fuel);
      if res.Val? { HideArgs(src, k, args[1..], env, env1, res.heap, depth, fuel); }
    }
  }

  // ---- what statements can add to the scope ----

  lemma SimpleAdds(src: Source, k: nat, s: Simple, env: Env, heap: Heap, depth: nat, fuel: nat)
    requires k < |src| && ExecSimple(src, k, s, env, heap, depth, fuel).Normal?
    ensures env.Keys <= ExecSimple(src, k, s, env, heap, depth, fuel).env.Keys <= DeclaredBySimple(s, env.Keys)
  {
    hide EvalExpr, StoreElement, Update;
  }

  lemma {:induction false} DeclaredMore(s: Stmt, names: set<string>, names1: set<string>)
    requires names <= names1
    ensures names <= Declared(s, names) <= Declared(s, names1)
    decreases s, 1
  {
    match s
    case If(_, thn, els) =>
      BranchMore(thn, names, names1);
      if els.Else? { BranchMore(els.body, DeclaredByBranch(thn, names), DeclaredByBranch(thn, names1)); }
    case _ =>
  }

  lemma {:induction false} BranchMore(b: Body, names: set<string>, names1: set<string>)
    requires names <= names1
    ensures names <= DeclaredByBranch(b, names) <= DeclaredByBranch(b, names1)
    decreases b, 0
  {
    if b.Single? { DeclaredMore(b.stmt, names, names1); }
  }

  lemma {:induction false} AllMore(ss: seq<Stmt>, names: set<string>, names1: set<string>)
    requires names <= names1
    ensures names <= DeclaredByAll(ss, names) <= DeclaredByAll(ss, names1)
  {
    if ss != [] {
      DeclaredMore(ss[0], names, names1);
      AllMore(ss[1..], Declared(ss[0], names), Declared(ss[0], names1));
    }
  }

  /** The names a body can add. */
  function DeclaredByBody(b: Body, names: set<string>): set<string> {
    match b
    case Block(ss) => DeclaredByAll(ss, names)
    case Single(s) => Declared(s, names)
  }

  /** The scope after a statement, whether it ended normally or at a `break`, has the
      names from before and at most those it declares. */
  ghost predicate ScopeWithin(r: StmtResult, names: set<string>, more: set<string>) {
    (r.Normal? || r.Broke? ==> names <= r.env.Keys) && (r.Normal? ==> r.env.Keys <= more)
  }

  lemma {:induction false} StmtScope(src: Source, k: nat, s: Stmt, env: Env, heap: Heap, depth: nat, fuel: nat)
    requires k < |src|
    ensures ScopeWithin(ExecStmt(src, k, s, env, heap, depth, fuel), env.Keys, Declared(s, env.Keys))
    decreases s, 2, 0
  {
    hide EvalExpr, ExecSimple, ExecLoop, Restrict;
    match s
    case Do(simple) =>
      if ExecSimple(src, k, simple, env, heap, depth,
          fuel).Normal? { SimpleAdds(src, k, simple, env, heap, depth, fuel); }
    case If(c, thn, els) =>
      BranchMore(thn, env.Keys, env.Keys);
      if els.Else? {
        BranchMore(els.body, env.Keys, DeclaredByBranch(thn, env.Keys));
        BranchMore(els.body, DeclaredByBranch(thn, env.Keys), DeclaredByBranch(thn, env.Keys));
      }
      var res := EvalExpr(src, k, c, env, heap, depth, fuel);
      if res.Val? {
        if res.v.Truthy() {
          BranchScope(src, k, thn, env, res.heap, depth, fuel);
        } else if els.Else? {
          BranchScope(src, k, els.body, env, res.heap, depth, fuel);
        }
      }
    case While(_, _) =>
      LoopKeeps(src, k, s, env, heap, depth, fuel);
      RestrictedKeys(ExecLoop(src, k, s, env, heap, depth, fuel), env.Keys);
    case For(init, _, _, _) =>
      var r := if init.Init? then ExecSimple(src, k, init.init, env, heap, depth, fuel) else Normal(env, heap);
      if r.Normal? {
        if init.Init? { SimpleAdds(src, k, init.init, env, heap, depth, fuel); }
        LoopKeeps(src, k, s, r.env, r.heap, depth, fuel);
        RestrictedKeys(ExecLoop(src, k, s, r.env, r.heap, depth, fuel), env.Keys);
      }
    case _ =>
  }

  lemma RestrictedKeys(r: StmtResult, names: set<string>)
    requires r.Normal? || r.Broke? ==> names <= r.env.Keys
    ensures ScopeWithin(LeaveScope(r, names), names, names)
  {
  }

  lemma {:induction false} BranchScope(src: Source, k: nat, b: Body, env: Env, heap: Heap, depth: nat, fuel: nat)
    requires k < |src|
    ensures ScopeWithin(ExecBranch(src, k, b, env, heap, depth, fuel), env.Keys, DeclaredByBranch(b, env.Keys))
    decreases b, 1
  {
    hide ExecStmt;
    BodyScope(src, k, b, env, heap, depth, fuel);
  }

  lemma {:induction false} BodyScope(src: Source, k: nat, b: Body, env: Env, heap: Heap, depth: nat, fuel: nat)
    requires k < |src|
    ensures ScopeWithin(ExecBody(src, k, b, env, heap, depth, fuel), env.Keys, DeclaredByBody(b, env.Keys))
    decreases b, 0
  {
    hide ExecStmt, ExecStmts;
    match b
    case Block(ss) => StmtsScope(src, k, ss, env, heap, depth, fuel);
    case Single(s) => StmtScope(src, k, s, env, heap, depth, fuel);
  }

  lemma {:induction false} StmtsScope(src: Source, k: nat, ss: seq<Stmt>, env: Env, heap: Heap, depth: nat, fuel: nat)
    requires k < |src|
    ensures ScopeWithin(ExecStmts(src, k, ss, env, heap, depth, fuel), env.Keys, DeclaredByAll(ss, env.Keys))
    decreases ss, 0
  {
    hide ExecStmt, Declared;
    if ss != [] {
      StmtScope(src, k, ss[0], env, heap, depth, fuel);
      var r := ExecStmt(src, k, ss[0], env, heap, depth, fuel);
      if r.Normal? {
        StmtsScope(src, k, ss[1..], r.env, r.heap, depth, fuel);
        AllMore(ss[1..], r.env.Keys, Declared(ss[0], env.Keys));
      }
    }
  }

  /** A loop leaves exactly the names it found. */
  lemma {:induction false} LoopKeeps(src: Source, k: nat, s: Stmt, env: Env, heap: Heap, depth: nat, fuel: nat)
    requires k < |src| && (s.While? || s.For?)
    ensures ScopeWithin(ExecLoop(src, k, s, env, heap, depth, fuel), env.Keys, env.Keys)
    decreases s, 1, 0
  {
    hide EvalExpr, ExecBody, ExecSimple, Iterate;
    var res := EvalExpr(src, k, s.cond, env, heap, depth, fuel);
    if res.Val? { IterateKeeps(src, k, s, env, res.heap, depth, fuel); }
  }

  /** The scope behind the body and the increment of one iteration. */
  lemma {:induction false} RoundScope(src: Source, k: nat, s: Stmt, env: Env, heap: Heap, depth: nat, fuel: nat)
    requires k < |src| && (s.While? || s.For?)
    ensures var r := Round(src, k, s, env, heap, depth, fuel); ScopeWithin(r, env.Keys, DeclaredByRound(s, env.Keys))
    decreases s, 0, 0
  {
    hide ExecBody, ExecSimple;
    BodyScope(src, k, s.body, env, heap, depth, fuel);
    var r := ExecBody(src, k, s.body, env, heap, depth, fuel);
    if r.Normal? && s.For? && ExecSimple(src, k, s.inc, r.env, r.heap, depth, fuel).Normal? {
      SimpleAdds(src, k, s.inc, r.env, r.heap, depth, fuel);
    }
  }

  /** Body and increment of one iteration, in the scope the compiler gives them. */
  function Round(src: Source, k: nat, s: Stmt, env: Env, heap: Heap, depth: nat, fuel: nat): StmtResult
    requires k < |src| && (s.While? || s.For?)
  {
    match ExecBody(src, k, s.body, env, heap, depth, fuel)
    case Normal(env1, h1) => if s.For? then ExecSimple(src, k, s.inc, env1, h1, depth, fuel) else Normal(env1, h1)
    case r => r
  }

  function DeclaredByRound(s: Stmt, names: set<string>): set<string>
    requires s.While? || s.For?
  {
    var more := DeclaredByBody(s.body, names);
    if s.For? then DeclaredBySimple(s.inc, more) else more
  }

  lemma IterateUnfolds(src: Source, k: nat, s: Stmt, env: Env, heap: Heap, depth: nat, fuel: nat)
    requires k < |src| && (s.While? || s.For?) && fuel > 0
    ensures Iterate(src, k, s, env, heap, depth, fuel) ==
            match Round(src, k, s, env, heap, depth, fuel)
            case Normal(env2, h2) =>
              (match EvalExpr(src, k, s.cond, env2, h2, depth, fuel)
               case Val(v, h3) =>
                 if v.Truthy() then Iterate(src, k, s, Restrict(env2, env.Keys), h3, depth, fuel - 1)
                 else Normal(Restrict(env2, env.Keys), h3)
               case ExprErr => StmtErr
               case ExprOut => StmtOut)
            case Broke(env1, h1) => Normal(Restrict(env1, env.Keys), h1)
            case r => r
  {
    hide EvalExpr, ExecBody, ExecSimple, Restrict;
  }

  lemma {:induction false} IterateKeeps(src: Source, k: nat, s: Stmt, env: Env, heap: Heap, depth: nat, fuel: nat)
    requires k < |src| && (s.While? || s.For?)
    ensures ScopeWithin(Iterate(src, k, s, env, heap, depth, fuel), env.Keys, env.Keys)
    decreases s, 0, fuel + 1
  {
    hide EvalExpr, Round;
    if fuel > 0 {
      IterateUnfolds(src, k, s, env, heap, depth, fuel);
      RoundScope(src, k, s, env, heap, depth, fuel);
      var r := Round(src, k, s, env, heap, depth, fuel);
      if r.Normal? {
        var res := EvalExpr(src, k, s.cond, r.env, r.heap, depth, fuel);
        if res.Val? && res.v.Truthy() {
          IterateKeeps(src, k, s, Restrict(r.env, env.Keys), res.heap, depth, fuel - 1);
        }
      }
    }
  }

  // ---- loops ----

  /** The loop of a textbook: the body's scope ends before the increment, and the
      condition is evaluated in the scope of the loop. */
  function Textbook(src: Source, k: nat, s: Stmt, env: Env, heap: Heap, depth: nat, fuel: nat): StmtResult
    requires k < |src| && (s.While? || s.For?)
    decreases fuel
  {
    if fuel == 0 then StmtOut
    else
      match ExecBody(src, k, s.body, env, heap, depth, fuel)
      case Broke(env1, h1) => Normal(Restrict(env1, env.Keys), h1)
      case Normal(env1, h1) =>
        (var inner := Restrict(env1, env.Keys);
         var r := if s.For? then ExecSimple(src, k, s.inc, inner, h1, depth, fuel) else Normal(inner, h1);
         match r
         case Normal(env2, h2) =>
           var outer := Restrict(env2, env.Keys);
           (match EvalExpr(src, k, s.cond, outer, h2, depth, fuel)
            case Val(v, h3) => if v.Truthy() then Textbook(src, k, s, outer, h3, depth, fuel - 1) else Normal(outer, h3)
            case ExprErr => StmtErr
            case ExprOut => StmtOut)
         case _ => r)
      case r => r
  }

  function LoopNames(s: Stmt): set<string>
    requires s.While? || s.For?
  {
    Mentioned(s.cond) + if s.For? then MentionedSimple(s.inc) else {}
  }

  /** No name in the condition or the increment is declared by the body. */
  predicate NoCapture(s: Stmt, names: set<string>)
    requires s.While? || s.For?
  {
    forall x | x in LoopNames(s) :: x in DeclaredByRound(s, names) ==> x in names
  }

  /** An increment does the same in the body's scope and in the loop's, up to what the
      body declared. */
  lemma {:induction false} HideInSimple(src: Source, k: nat, s: Simple, env: Env, env1: Env, names: set<string>,
      heap: Heap, depth: nat, fuel: nat)
    requires k < |src| && env1 == Restrict(env, names)
    requires forall x | x in MentionedSimple(s) && x in env :: x in names
    ensures var r, r1 := ExecSimple(src, k, s, env, heap, depth, fuel), ExecSimple(src, k, s, env1, heap, depth, fuel);
            if r.Normal? then r1.Normal? && r1.heap == r.heap && Restrict(r1.env, names) == Restrict(r.env, names)
                else r1 == r
  {
    hide EvalExpr, StoreElement, Update;
    match s
    case Eval(e) => HideNames(src, k, e, env, env1, heap, depth, fuel);
    case Assign(_, lhs, rhs) =>
      HideNames(src, k, rhs, env, env1, heap, depth, fuel);
      var res := EvalExpr(src, k, rhs, env, heap, depth, fuel);
      if res.Val? && lhs.Index? {
        HideNames(src, k, lhs.base, env, env1, res.heap, depth, fuel);
        var res1 := EvalExpr(src, k, lhs.base, env, res.heap, depth, fuel);
        if res1.Val? { HideNames(src, k, lhs.index, env, env1, res1.heap, depth, fuel); }
      }
  }

  /** Rotated loops mean what textbook loops mean, when the body declares no name that the
      condition or the increment mentions: same result, same divergence, and `break`
      leaves in the same state. */
  lemma {:induction false} RotationKeepsMeaning(src: Source, k: nat, s: Stmt, env: Env, heap: Heap, depth: nat,
      fuel: nat)
    requires k < |src| && (s.While? || s.For?) && NoCapture(s, env.Keys)
    ensures Iterate(src, k, s, env, heap, depth, fuel) == Textbook(src, k, s, env, heap, depth, fuel)
    decreases fuel
  {
    hide EvalExpr, ExecBody, ExecSimple, DeclaredByRound, DeclaredByBody;
    if fuel > 0 {
      var r := ExecBody(src, k, s.body, env, heap, depth, fuel);
      if r.Normal? {
        RoundScope(src, k, s, env, heap, depth, fuel);
        BodyScope(src, k, s.body, env, heap, depth, fuel);
        SameRound(src, k, s, env, r.env, r.heap, depth, fuel);
        var r2 := Round(src, k, s, env, heap, depth, fuel);
        if r2.Normal? {
          HideNames(src, k, s.cond, r2.env, Restrict(r2.env, env.Keys), r2.heap, depth, fuel);
          var res := EvalExpr(src, k, s.cond, r2.env, r2.heap, depth, fuel);
          if res.Val? && res.v.Truthy() {
            assert Restrict(r2.env, env.Keys).Keys == env.Keys;
            RotationKeepsMeaning(src, k, s, Restrict(r2.env, env.Keys), res.heap, depth, fuel - 1);
          }
        }
      }
    }
  }

  lemma SameRound(src: Source, k: nat, s: Stmt, env: Env, env1: Env, heap: Heap, depth: nat, fuel: nat)
    requires k < |src| && (s.While? || s.For?) && NoCapture(s, env.Keys)
    requires env1.Keys <= DeclaredByBody(s.body, env.Keys)
    ensures s.For? ==>
              var r, r1 := ExecSimple(src, k, s.inc, env1, heap, depth, fuel),
                  ExecSimple(src, k, s.inc, Restrict(env1, env.Keys), heap, depth, fuel);
              if r.Normal? then r1.Normal? && r1.heap == r.heap
                  && Restrict(r1.env, env.Keys) == Restrict(r.env, env.Keys) else r1 == r
    ensures Restrict(Restrict(env1, env.Keys), env.Keys) == Restrict(env1, env.Keys)
  {
    hide ExecSimple, DeclaredByBody;
    if s.For? {
      HideInSimple(src, k, s.inc, env1, Restrict(env1, env.Keys), env.Keys, heap, depth, fuel);
    }
  }

  function CapturingLoop(): Stmt {
    While(Var("f"), Block([Do(Assign(Set, Var("f"), IntLit(0)))]))
  }

  /** Without that condition the two differ: `while (f) { f = 0; }`, where `f` is a
      function, ends after one round, but the textbook loop never does. */
  lemma {:induction false} CaptureMatters(heap: Heap, depth: nat, fuel: nat)
    requires fuel > 0
    ensures var src := [Function("f", [], [])];
            && Iterate(src, 0, CapturingLoop(), map[], heap, depth, fuel) == Normal(map[], heap)
            && Textbook(src, 0, CapturingLoop(), map[], heap, depth, fuel) == StmtOut
            && !NoCapture(CapturingLoop(), {})
    decreases fuel
  {
    var src := [Function("f", [], [])];
    var s := CapturingLoop();
    var env: Env := map["f" := Int(0)];
    var body := [Do(Assign(Set, Var("f"), IntLit(0)))];
    var none: Env := map[];
    assert EvalExpr(src, 0, IntLit(0), none, heap, depth, fuel) == Val(Int(0), heap);
    assert none["f" := Int(0)] == env;
    assert ExecSimple(src, 0, body[0].simple, none, heap, depth, fuel) == Normal(env, heap);
    assert ExecStmt(src, 0, body[0], none, heap, depth, fuel) == Normal(env, heap);
    assert ExecStmts(src, 0, body[1..], env, heap, depth, fuel) == Normal(env, heap);
    assert ExecStmts(src, 0, body, none, heap, depth, fuel) == Normal(env, heap);
    assert ExecBody(src, 0, s.body, none, heap, depth, fuel) == Normal(env, heap);
    assert EvalExpr(src, 0, s.cond, env, heap, depth, fuel) == Val(Int(0), heap);
    assert EvalExpr(src, 0, s.cond, none, heap, depth, fuel) == Val(Fun(0), heap);
    assert Restrict(env, {}) == map[];
    assert FuncTable(src, 0) == map["f" := 0];
    if fuel > 1 { CaptureMatters(heap, depth, fuel - 1); }
    assert DeclaredByAll(body, {}) == {"f"} by {
      assert DeclaredByAll(body[1..], {"f"}) == {"f"};
    }
    assert "f" in LoopNames(s);
  }

  // ---- compound assignment to elements ----

  /** `a[i] op= v` computes `v op a[i]`. It means the same as on a variable exactly when
      the operator commutes on the two values: always for `=`, `+=` and `*=`; for `-=`
      when the values differ by a multiple of half the word; for `/=` when they have the
      same magnitude. Values that are not integers fail either way. */
  lemma ElementUpdateAgrees(aop: AssignOp, elem: Value, v: Value)
    ensures UpdateElement(aop, elem, v) == Update(aop, elem, v) <==>
            match aop
            case MinusEq => elem.Int? && v.Int? ==> (elem.i - v.i) % TWO_31 == 0
            case DivEq => elem.Int? && v.Int? ==> elem.i == v.i || elem.i == 0 - v.i
            case _ => true
  {
    if elem.Int? && v.Int? {
      if aop.MinusEq? { Differences(elem.i, v.i); }
      if aop.DivEq? { QuotientsAgree(elem.i, v.i); }
    }
  }

  lemma Differences(a: int32, b: int32)
    ensures Wrap32(a - b) == Wrap32(b - a) <==> (a - b) % TWO_31 == 0
  {
  }
}
