/** What a program means, independently of registers, labels and bytecode:
    a big-step evaluator. `fuel` bounds calls and loop iterations; running out
    of it is an outcome of its own, so divergence is running out at every fuel. */
module SourceSemantics {
  import opened Values
  import opened Ast

  type Env = map<string, Value>

  datatype ExprResult = Val(v: Value, heap: Heap) | ExprErr | ExprOut
  datatype ArgsResult = Vals(vs: seq<Value>, heap: Heap) | ArgsErr | ArgsOut
  datatype StmtResult =
    | Normal(env: Env, heap: Heap)
    | Broke(env: Env, heap: Heap)
    | Returned(v: Value, heap: Heap)
    | StmtErr
    | StmtOut

  /** The functions visible in function `k`: those declared so far and itself. */
  function FuncTable(src: Source, k: nat): (t: map<string, nat>)
    requires k < |src|
    ensures forall name | name in t :: t[name] <= k
  {
    var before := if k == 0 then map[] else FuncTable(src, k - 1);
    before[src[k].name := k]
  }

  function Restrict(env: Env, names: set<string>): Env {
    map x | x in env && x in names :: env[x]
  }

  function Apply(op: Operator, v: Value, w: Value): Option<Value> {
    match op
    case OAdd => Binary(Add, v, w)
    case OSub => Binary(Sub, v, w)
    case OMul => Binary(Mul, v, w)
    case ODiv => Binary(Div, v, w)
    case OMod => Binary(Mod, v, w)
    case OEq => Binary(Eq, v, w)
    case ONeq => Binary(Neq, v, w)
    case OLs => Binary(Lt, v, w)
    case OLe => Binary(Le, v, w)
    case OGr => Binary(Lt, w, v)
    case OGe => Binary(Le, w, v)
  }

  /** The new value of a variable under `x op= v`. */
  function Update(aop: AssignOp, old_: Value, v: Value): Option<Value> {
    match aop
    case Set => Some(v)
    case PlusEq => Binary(Add, v, old_)
    case MinusEq => Binary(Sub, old_, v)
    case MulEq => Binary(Mul, old_, v)
    case DivEq => Binary(Div, old_, v)
  }

  /** The new value of an element under `a[i] op= v`: the compiler puts the
      assigned value on the left of the operator, for every operator. */
  function UpdateElement(aop: AssignOp, old_: Value, v: Value): Option<Value> {
    match aop
    case Set => Some(v)
    case PlusEq => Binary(Add, v, old_)
    case MinusEq => Binary(Sub, v, old_)
    case MulEq => Binary(Mul, v, old_)
    case DivEq => Binary(Div, v, old_)
  }

  function StoreElement(h: Heap, aop: AssignOp, arr: Value, idx: Value, v: Value): Option<Heap> {
    if aop.Set? then ArrSet(h, arr, idx, v)
    else
      match ArrGet(h, arr, idx)
      case None => None
      case Some((cell, h1)) =>
        match UpdateElement(aop, cell, v)
        case None => None
        case Some(w) => ArrSet(h1, arr, idx, w)
  }

  function BindParams(params: seq<string>, vs: seq<Value>): Env
    requires |params| == |vs|
  {
    if params == [] then map[]
    else
      var n := |params| - 1;
      BindParams(params[..n], vs[..n])[params[n] := vs[n]]
  }

  function EvalExpr(src: Source, k: nat, e: Expr, env: Env, heap: Heap, depth: nat, fuel: nat): ExprResult
    requires k < |src|
    decreases fuel, 1, e, 1
  {
    match e
    case Var(name) =>
      if name == "nil" then Val(Nil, heap)
      else if name in env then Val(env[name], heap)
      else if name in FuncTable(src, k) then Val(Fun(FuncTable(src, k)[name]), heap)
      else ExprErr
    case IntLit(n) => Val(Int(Wrap32(n)), heap)
    case Neg(e1) =>
      (match EvalExpr(src, k, e1, env, heap, depth, fuel)
       case Val(v, h) => (match Negate(v) case Some(w) => Val(w, h) case None => ExprErr)
       case r => r)
    case Bin(op, l, r) =>
      (match EvalExpr(src, k, l, env, heap, depth, fuel)
       case Val(v, h) =>
         (match EvalExpr(src, k, r, env, h, depth, fuel)
          case Val(w, h1) => (match Apply(op, v, w) case Some(x) => Val(x, h1) case None => ExprErr)
          case res => res)
       case res => res)
    case Index(b, i) =>
      (match EvalExpr(src, k, b, env, heap, depth, fuel)
       case Val(v, h) =>
         (match EvalExpr(src, k, i, env, h, depth, fuel)
          case Val(w, h1) => (match ArrGet(h1, v, w) case Some((x, h2)) => Val(x, h2) case None => ExprErr)
          case res => res)
       case res => res)
    case Call(f, args) =>
      if f == Var("array") then
        match EvalArgs(src, k, args, env, heap, depth, fuel)
        case Vals(vs, h) =>
          if |vs| != 1 then ExprErr
          else (match Alloc(h, vs[0]) case Some((v, h1)) => Val(v, h1) case None => ExprErr)
        case ArgsErr => ExprErr
        case ArgsOut => ExprOut
      else
        match EvalExpr(src, k, f, env, heap, depth, fuel)
        case Val(fv, h) =>
          (match EvalArgs(src, k, args, env, h, depth, fuel)
           case Vals(vs, h1) => CallFunction(src, fv, vs, h1, depth, fuel)
           case ArgsErr => ExprErr
           case ArgsOut => ExprOut)
        case res => res
  }

  /** Arguments are evaluated from left to right. */
  function EvalArgs(src: Source, k: nat, args: seq<Expr>, env: Env, heap: Heap, depth: nat, fuel: nat): (r: ArgsResult)
    requires k < |src|
    ensures r.Vals? ==> |r.vs| == |args|
    decreases fuel, 1, args, 0
  {
    if args == [] then Vals([], heap)
    else
      match EvalExpr(src, k, args[0], env, heap, depth, fuel)
      case Val(v, h) =>
        (match EvalArgs(src, k, args[1..], env, h, depth, fuel)
         case Vals(vs, h1) => Vals([v] + vs, h1)
         case res => res)
      case ExprErr => ArgsErr
      case ExprOut => ArgsOut
  }

  function CallFunction(src: Source, fv: Value, vs: seq<Value>, heap: Heap, depth: nat, fuel: nat): ExprResult
    decreases fuel, 0
  {
    if !fv.Fun? || fv.fid >= |src| then ExprErr
    else
      var f := src[fv.fid];
      if |vs| != |f.params| || depth >= CALL_MAX_SIZE then ExprErr
      else if fuel == 0 then ExprOut
      else
        match ExecStmts(src, fv.fid, f.body, BindParams(f.params, vs), heap, depth + 1, fuel - 1)
        case Normal(_, h) => Val(Nil, h)
        case Returned(v, h) => Val(v, h)
        case Broke(_, _) => ExprErr
        case StmtErr => ExprErr
        case StmtOut => ExprOut
  }

  function ExecSimple(src: Source, k: nat, s: Simple, env: Env, heap: Heap, depth: nat, fuel: nat): (r: StmtResult)
    requires k < |src|
    ensures !r.Broke? && !r.Returned?
    decreases fuel, 1, s, 1
  {
    match s
    case Eval(e) =>
      (match EvalExpr(src, k, e, env, heap, depth, fuel)
       case Val(_, h) => Normal(env, h)
       case ExprErr => StmtErr
       case ExprOut => StmtOut)
    case Assign(aop, lhs, rhs) =>
      match EvalExpr(src, k, rhs, env, heap, depth, fuel)
      case ExprErr => StmtErr
      case ExprOut => StmtOut
      case Val(v, h) =>
        match lhs
        case Var(x) =>
          if x !in env then (if aop.Set? then Normal(env[x := v], h) else StmtErr)
          else (match Update(aop, env[x], v)
                case Some(w) => Normal(env[x := w], h)
                case None => StmtErr)
        case Index(b, i) =>
          (match EvalExpr(src, k, b, env, h, depth, fuel)
           case ExprErr => StmtErr
           case ExprOut => StmtOut
           case Val(arr, h1) =>
             match EvalExpr(src, k, i, env, h1, depth, fuel)
             case ExprErr => StmtErr
             case ExprOut => StmtOut
             case Val(idx, h2) =>
               match StoreElement(h2, aop, arr, idx, v)
               case Some(h3) => Normal(env, h3)
               case None => StmtErr)
        case _ => Normal(env, h)  // any other left side is dropped by the compiler
  }

  function ExecStmts(src: Source, k: nat, ss: seq<Stmt>, env: Env, heap: Heap, depth: nat, fuel: nat): StmtResult
    requires k < |src|
    decreases fuel, 1, ss, 0
  {
    if ss == [] then Normal(env, heap)
    else
      match ExecStmt(src, k, ss[0], env, heap, depth, fuel)
      case Normal(env1, h) => ExecStmts(src, k, ss[1..], env1, h, depth, fuel)
      case r => r
  }

  /** A body without a scope of its own: what a loop runs. */
  function ExecBody(src: Source, k: nat, b: Body, env: Env, heap: Heap, depth: nat, fuel: nat): StmtResult
    requires k < |src|
    decreases fuel, 1, b, 1
  {
    match b
    case Block(ss) => ExecStmts(src, k, ss, env, heap, depth, fuel)
    case Single(s) => ExecStmt(src, k, s, env, heap, depth, fuel)
  }

  function LeaveScope(r: StmtResult, names: set<string>): StmtResult {
    if r.Normal? then Normal(Restrict(r.env, names), r.heap) else r
  }

  /** A branch of a conditional: braces open a scope. */
  function ExecBranch(src: Source, k: nat, b: Body, env: Env, heap: Heap, depth: nat, fuel: nat): StmtResult
    requires k < |src|
    decreases fuel, 1, b, 2
  {
    var r := ExecBody(src, k, b, env, heap, depth, fuel);
    if b.Block? then LeaveScope(r, env.Keys) else r
  }

  function ExecStmt(src: Source, k: nat, s: Stmt, env: Env, heap: Heap, depth: nat, fuel: nat): StmtResult
    requires k < |src|
    decreases fuel, 1, s, 3
  {
    match s
    case Do(simple) => ExecSimple(src, k, simple, env, heap, depth, fuel)
    case Break => Broke(env, heap)
    case Return(e) =>
      (match EvalExpr(src, k, e, env, heap, depth, fuel)
       case Val(v, h) => Returned(v, h)
       case ExprErr => StmtErr
       case ExprOut => StmtOut)
    case If(c, thn, els) =>
      (match EvalExpr(src, k, c, env, heap, depth, fuel)
       case Val(v, h) =>
         if v.Truthy() then ExecBranch(src, k, thn, env, h, depth, fuel)
         else if els.Else? then ExecBranch(src, k, els.body, env, h, depth, fuel)
         else Normal(env, h)
       case ExprErr => StmtErr
       case ExprOut => StmtOut)
    case While(c, _) =>
      LeaveScope(ExecLoop(src, k, s, env, heap, depth, fuel), env.Keys)
    case For(init, c, inc, _) =>
      var r := if init.Init? then ExecSimple(src, k, init.init, env, heap, depth, fuel) else Normal(env, heap);
      if r.Normal? then
        LeaveScope(ExecLoop(src, k, s, r.env, r.heap, depth, fuel), env.Keys)
      else r
  }

  /** `while (cond) body` and, after its header, `for (..; cond; inc) body`. */
  function ExecLoop(src: Source, k: nat, s: Stmt, env: Env, heap: Heap, depth: nat, fuel: nat): StmtResult
    requires k < |src|
    requires s.While? || s.For?
    decreases fuel, 1, s, 2
  {
    match EvalExpr(src, k, s.cond, env, heap, depth, fuel)
    case Val(v, h) => if v.Truthy() then Iterate(src, k, s, env, h, depth, fuel) else Normal(env, h)
    case ExprErr => StmtErr
    case ExprOut => StmtOut
  }

  /** One iteration whose condition holds, and the iterations after it. The
      increment and the condition still see what the body declared. */
  function Iterate(src: Source, k: nat, s: Stmt, env: Env, heap: Heap, depth: nat, fuel: nat): StmtResult
    requires k < |src|
    requires s.While? || s.For?
    decreases fuel, 1, s, 1
  {
    if fuel == 0 then StmtOut
    else
      match ExecBody(src, k, s.body, env, heap, depth, fuel)
      case Normal(env1, h1) =>
        (var r := if s.For? then ExecSimple(src, k, s.inc, env1, h1, depth, fuel) else Normal(env1, h1);
         match r
         case Normal(env2, h2) =>
           (match EvalExpr(src, k, s.cond, env2, h2, depth, fuel)
            case Val(v, h3) =>
              if v.Truthy() then Iterate(src, k, s, Restrict(env2, env.Keys), h3, depth, fuel - 1)
              else Normal(Restrict(env2, env.Keys), h3)
            case ExprErr => StmtErr
            case ExprOut => StmtOut)
         case _ => r)
      case Broke(env1, h1) => Normal(Restrict(env1, env.Keys), h1)
      case r => r
  }

  /** A whole program: the value of the last function called `main`. */
  function MainIndex(src: Source): (r: Option<nat>)
    ensures r.Some? ==> r.value < |src| && src[r.value].name == "main"
  {
    if src == [] then None
    else if src[|src| - 1].name == "main" then Some(|src| - 1)
    else MainIndex(src[..|src| - 1])
  }

  const EMPTY_HEAP: Heap := Heap(map[], 1)

  function RunSource(src: Source, fuel: nat): ExprResult {
    match MainIndex(src)
    case None => ExprErr
    case Some(m) => CallFunction(src, Fun(m), [], EMPTY_HEAP, 0, fuel)
  }

  // ---- the names a statement adds to the scope it stands in ----

  function DeclaredBySimple(s: Simple, names: set<string>): set<string> {
    if s.Assign? && s.lhs.Var? then names + {s.lhs.name} else names
  }

  function DeclaredByBranch(b: Body, names: set<string>): set<string>
    decreases b, 0
  {
    if b.Single? then Declared(b.stmt, names) else names
  }

  function Declared(s: Stmt, names: set<string>): set<string>
    decreases s, 1
  {
    match s
    case Do(simple) => DeclaredBySimple(simple, names)
    case If(_, thn, els) =>
      var names1 := DeclaredByBranch(thn, names);
      if els.Else? then DeclaredByBranch(els.body, names1) else names1
    case _ => names
  }

  function DeclaredByAll(ss: seq<Stmt>, names: set<string>): set<string> {
    if ss == [] then names else DeclaredByAll(ss[1..], Declared(ss[0], names))
  }

  /** A variable that an unbraced branch of a conditional declares is in scope even when
      the branch is not taken. So either no branch declares one, or both declare the same
      one and nothing else, the second branch by a plain assignment that does not read it. */
  predicate Scoped(s: Stmt, names: set<string>)
    decreases s, 1
  {
    match s
    case If(_, thn, els) =>
      (ScopedBranch(thn, names) && (els.Else? ==> ScopedBranch(els.body, names))) || BothDeclare(thn, els, names)
    case While(_, body) => ScopedBody(body, names)
    case For(init, _, _, body) =>
      ScopedBody(body, if init.Init? then DeclaredBySimple(init.init, names) else names)
    case _ => true
  }

  predicate BothDeclare(thn: Body, els: Else, names: set<string>)
    decreases thn, 1
  {
    && ScopedBody(thn, names) && els.Else? && els.body.Single? && PlainAssignment(els.body.stmt)
    && var x := els.body.stmt.simple.lhs.name;
       x !in names && DeclaredByBranch(thn, names) == names + {x}
  }

  /** `x = e`, where `e` does not mention `x`. */
  predicate PlainAssignment(s: Stmt) {
    && s.Do? && s.simple.Assign? && s.simple.aop.Set? && s.simple.lhs.Var?
    && s.simple.lhs.name !in Mentioned(s.simple.rhs)
  }

  predicate ScopedBranch(b: Body, names: set<string>)
    decreases b, 1
  {
    && ScopedBody(b, names)
    && DeclaredByBranch(b, names) == names
  }

  predicate ScopedBody(b: Body, names: set<string>)
    decreases b, 0
  {
    match b
    case Block(ss) => ScopedAll(ss, names)
    case Single(s) => Scoped(s, names)
  }

  predicate ScopedAll(ss: seq<Stmt>, names: set<string>)
    decreases ss, 0
  {
    ss == [] || (Scoped(ss[0], names) && ScopedAll(ss[1..], Declared(ss[0], names)))
  }

  predicate WellScoped(src: Source) {
    forall k | 0 <= k < |src| :: ScopedAll(src[k].body, set x | x in src[k].params)
  }
}
