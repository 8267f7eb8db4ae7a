/** The one-pass compiler as it runs (src/parser.cpp): statements are parsed token by
    token, and their code is emitted on the way. It is proved to do what parsing
    first and compiling afterwards does. */
module Compiler {
  import opened Values
  import opened Ast
  import opened Tokens
  import opened Pratt
  import opened Syntax
  import opened Lexing
  import opened ExprParser
  import opened Codegen
  import opened CodegenFacts
  import opened Variables
  import opened Emitter
  import opened ExprSemantic
  import opened OnePass
  import opened Linker
  import opened ProgramFacts

  datatype LoopManager = LoopManager(labelStart: nat, labelEnd: nat)

  class Parser {
    const lexer: Lexer
    const vars: VarManager
    const emitter: BytecodeEmitter
    var loops: seq<LoopManager>
    var jmpUid: nat

    /** `init_parser`. */
    constructor (input: seq<Token>)
      requires forall t | t in input :: !t.EOF?
      ensures lexer.Valid() && lexer.nxt.None? && lexer.Ahead() == input && fresh(lexer)
      ensures vars.Valid() && vars.levels == [LevelInfo(0, [])] && vars.varNames == map[] && vars.functions == map[]
      ensures vars.outer == [] && fresh(vars)
      ensures emitter.Valid() && !emitter.isInFunc && emitter.ems == [] && emitter.funcs == [] && emitter.code == []
      ensures fresh(emitter)
      ensures loops == [] && jmpUid == 0
    {
      lexer := new Lexer(input);
      vars := new VarManager();
      emitter := new BytecodeEmitter();
      loops, jmpUid := [], 0;
    }

    ghost predicate Ready()
      reads this, lexer, vars, emitter
    {
      lexer.Valid() && lexer.nxt.None? && vars.Valid() && emitter.Valid() && emitter.isInFunc
    }

    /** The function being emitted, as the code generator sees it. */
    ghost function Em(): Emit
      reads this, emitter
    {
      Emit(emitter.code, emitter.labelPos, jmpUid)
    }

    /** Where `break` jumps to. */
    function Brk(): Option<nat>
      reads this
    {
      if loops == [] then None else Some(loops[|loops| - 1].labelEnd)
    }

    /** The enclosing scopes and the header of the current function are as before. */
    ghost predicate Around(levels: Levels, outer: seq<VarNames>, cur: EmitFunc)
      reads this, vars, emitter
    {
      && |vars.levels| == |levels| && vars.levels[..|levels| - 1] == levels[..|levels| - 1] && vars.outer == outer
      && emitter.cur.name == cur.name && emitter.cur.arity == cur.arity
    }

    /** Tokens, code and scope are what `spec` says. */
    ghost predicate Reached(spec: Result)
      reads this, lexer, vars, emitter
    {
      Ready() && spec == Some((lexer.Ahead(), Em(), vars.Scope()))
    }

    ghost predicate Stored(spec: Option<(Code, Scope)>)
      reads this, vars, emitter
    {
      vars.Valid() && emitter.Valid() && spec == Some((emitter.code, vars.Scope()))
    }

    /** What parsing a statement leaves alone, refused or not: the function table and the
        functions emitted before. */
    twostate predicate Steady()
      reads vars, emitter
    {
      && vars.functions == old(vars.functions) && emitter.isInFunc == old(emitter.isInFunc)
      && emitter.funcs == old(emitter.funcs) && emitter.ems == old(emitter.ems) && emitter.global == old(emitter.global)
    }

    /** Parsing and emitting has done what `r` says, inside the same scopes and loops. */
    twostate predicate Parsed(r: Result, ok: bool)
      reads this, lexer, vars, emitter
    {
      && Steady() && ok == r.Some?
      && (ok ==> Reached(r) && Around(old(vars.levels), old(vars.outer), old(emitter.cur)) && loops == old(loops))
    }

    /** `parse_assignment`. */
    method ParseAssignment() returns (s: Option<Simple>)
      requires lexer.Valid() && lexer.nxt.None?
      modifies lexer
      ensures lexer.Valid()
      ensures match ParseAssign(old(lexer.Ahead()))
              case None => s.None?
              case Some((x, rest)) => s == Some(x) && lexer.Ahead() == rest && lexer.nxt.None?
    {
      hide ParsePrec;
      var lhs := ParsePrecedence(lexer, PREC_TEMP);
      if lhs.None? { return None; }
      var op := AssignOpOf(lexer.cur);
      if op.None? { return Some(Eval(lhs.value)); }
      lexer.GetTok();
      var rhs := ParsePrecedence(lexer, PREC_TEMP);
      if rhs.None? { return None; }
      s := Some(Assign(op.value, lhs.value, rhs.value));
    }

    /** `push_assign`. */
    method PushAssign(s: Simple) returns (ok: bool)
      requires emitter.Valid() && emitter.isInFunc && vars.Valid()
      modifies emitter`cur, emitter`code, emitter`iconstants, emitter`iconstantCount, emitter`pool, vars`levels,
          vars`varNames
      ensures var r := CompileSimple(s, old(emitter.code), old(vars.Scope()), vars.functions);
              ok == r.Some? && (ok ==> Stored(r) && Around(old(vars.levels), old(vars.outer), old(emitter.cur)))
    {
      hide BytecodeEmitter.Valid, VarManager.Valid, CompileExpr;
      match s
      case Eval(e) =>
        vars.ScopeIsOk();
        ok := EvalExpr(e, emitter, vars);
        if !ok { return; }
        var _ := vars.PopVar();
      case Assign(_, Var(_), _) => ok := AssignVar(s);
      case Assign(_, Index(_, _), _) => ok := AssignElement(s);
      case Assign(_, _, rhs) =>
        ok := EvalExpr(rhs, emitter, vars);
    }

    /** An unknown variable takes over the register its value was computed in. */
    method AssignVar(s: Simple) returns (ok: bool)
      requires emitter.Valid() && emitter.isInFunc && vars.Valid() && s.Assign? && s.lhs.Var?
      modifies emitter`cur, emitter`code, emitter`iconstants, emitter`iconstantCount, emitter`pool, vars`levels,
          vars`varNames
      ensures var r := CompileSimple(s, old(emitter.code), old(vars.Scope()), vars.functions);
              ok == r.Some? && (ok ==> Stored(r) && Around(old(vars.levels), old(vars.outer), old(emitter.cur)))
    {
      hide BytecodeEmitter.Valid, VarManager.Valid, CompileExpr, EmitMove;
      vars.ScopeIsOk();
      ok := EvalExpr(s.rhs, emitter, vars);
      if !ok { return; }
      var res := vars.GetVar(s.lhs.name);
      if res.None? {
        if !s.aop.Set? { return false; }
        var _ := vars.PopVar();
        var _ := vars.PushNamed(s.lhs.name);
        return true;
      }
      var top := vars.PopVar();
      match s.aop
      case Set => emitter.Move(res.value, top);
      case PlusEq => emitter.EmitBinary(Add, res.value, top, res.value);
      case MinusEq => emitter.EmitBinary(Sub, res.value, res.value, top);
      case MulEq => emitter.EmitBinary(Mul, res.value, res.value, top);
      case DivEq => emitter.EmitBinary(Div, res.value, res.value, top);
    }

    method AssignElement(s: Simple) returns (ok: bool)
      requires emitter.Valid() && emitter.isInFunc && vars.Valid() && s.Assign? && s.lhs.Index?
      modifies emitter`cur, emitter`code, emitter`iconstants, emitter`iconstantCount, emitter`pool, vars`levels,
          vars`varNames
      ensures var r := CompileSimple(s, old(emitter.code), old(vars.Scope()), vars.functions);
              ok == r.Some? && (ok ==> Stored(r) && Around(old(vars.levels), old(vars.outer), old(emitter.cur)))
    {
      hide BytecodeEmitter.Valid, VarManager.Valid, CompileExpr, CheckLvalue, EmitStore;
      vars.ScopeIsOk();
      ok := EvalExpr(s.rhs, emitter, vars);
      if !ok { return; }
      if !CheckLvalue(s.lhs.base) { return false; }
      ok := EvalExpr(s.lhs.base, emitter, vars);
      if !ok { return; }
      ok := EvalExpr(s.lhs.index, emitter, vars);
      if !ok { return; }
      StoreElement(s.aop);
      vars.Drop(3);
    }

    method StoreElement(aop: AssignOp)
      requires emitter.Valid() && emitter.isInFunc && vars.Valid() && vars.Scope().sp >= 3
      modifies emitter`cur, emitter`code
      ensures emitter.Valid() && emitter.code == EmitStore(aop, old(emitter.code), vars.Scope().sp - 3)
      ensures emitter.cur.name == old(emitter.cur).name && emitter.cur.arity == old(emitter.cur).arity
    {
      hide BytecodeEmitter.Valid, VarManager.Valid;
      var last := vars.Last();
      if !aop.Set? {
        emitter.EmitArrayGet(last + 1, last - 1, last);
        match aop
        case PlusEq => emitter.EmitBinary(Add, last - 2, last - 2, last + 1);
        case MinusEq => emitter.EmitBinary(Sub, last - 2, last - 2, last + 1);
        case MulEq => emitter.EmitBinary(Mul, last - 2, last - 2, last + 1);
        case DivEq => emitter.EmitBinary(Div, last - 2, last - 2, last + 1);
      }
      emitter.EmitArraySet(last - 1, last, last - 2);
    }

    /** `parse_push_assign`. */
    method ParsePushAssign() returns (ok: bool)
      requires Ready()
      modifies this, lexer, vars, emitter
      ensures var r := SimpleCode(old(lexer.Ahead()), old(Em()), old(vars.Scope()), vars.functions); Parsed(r, ok)
      decreases |lexer.Ahead()|, 0
    {
      hide BytecodeEmitter.Valid, VarManager.Valid, Lexer.Valid, CompileSimple, ParseAssign;
      var s := ParseAssignment();
      if s.None? { return false; }
      ok := PushAssign(s.value);
    }

    /** `epush(cond); jmpf_label(pop_var(), l)`. */
    method Leave(c: Expr, l: nat) returns (ok: bool)
      requires emitter.Valid() && emitter.isInFunc && vars.Valid()
      modifies emitter`cur, emitter`code, emitter`iconstants, emitter`iconstantCount, emitter`pool, emitter`pending,
          vars`levels
      ensures var r := LeaveCode(c, old(Em()), old(vars.Scope()), vars.functions, l);
              ok == r.Some? && (ok ==> r == Some(Em()))
      ensures ok ==> emitter.Valid() && vars.Valid() && vars.levels == old(vars.levels)
      ensures ok ==> Around(old(vars.levels), vars.outer, old(emitter.cur))
    {
      hide BytecodeEmitter.Valid, VarManager.Valid, Lexer.Valid, CompileExpr;
      vars.ScopeIsOk();
      ok := EvalExpr(c, emitter, vars);
      if !ok { return; }
      var r := vars.PopVar();
      emitter.JmpfLabel(r, l);
    }

    /** `epush(cond); jmpt_label(pop_var(), start); label(end)`. */
    method Repeat(c: Expr, start: nat, end: nat) returns (ok: bool)
      requires emitter.Valid() && emitter.isInFunc && vars.Valid()
      modifies emitter`cur, emitter`code, emitter`iconstants, emitter`iconstantCount, emitter`pool, emitter`pending,
          emitter`labelPos, vars`levels
      ensures var r := RepeatCode(c, old(Em()), old(vars.Scope()), vars.functions, start, end);
              ok == r.Some? && (ok ==> r == Some(Em()))
      ensures ok ==> emitter.Valid() && vars.Valid() && vars.levels == old(vars.levels)
      ensures ok ==> Around(old(vars.levels), vars.outer, old(emitter.cur))
    {
      hide BytecodeEmitter.Valid, VarManager.Valid, Lexer.Valid, CompileExpr;
      vars.ScopeIsOk();
      ok := EvalExpr(c, emitter, vars);
      if !ok { return; }
      var r := vars.PopVar();
      emitter.JmptLabel(r, start);
      emitter.Label(end);
    }

    /** `( cond`. */
    method OpenCondition() returns (c: Option<Expr>)
      requires lexer.Valid() && lexer.nxt.None?
      modifies lexer
      ensures lexer.Valid()
      ensures match ParseOpen(old(lexer.Ahead()))
              case None => c.None?
              case Some((x, rest)) => c == Some(x) && lexer.Ahead() == rest && lexer.nxt.None?
    {
      hide Lexer.Valid, ParsePrec;
      var ok := lexer.Match(LPAREN);
      if !ok { return None; }
      c := ParsePrecedence(lexer, PREC_TEMP);
    }

    /** `( cond )`: the value of the condition is in the register on top. */
    method Condition() returns (ok: bool, ghost c: Expr)
      requires Ready()
      modifies lexer, emitter`cur, emitter`code, emitter`iconstants, emitter`iconstantCount, emitter`pool, vars`levels
      ensures ok ==> Ready() && vars.Scope() == old(vars.Scope()).(sp := old(vars.Scope()).sp + 1)
      ensures var p := ParseCond(old(lexer.Ahead()));
              var r := CompileExpr(c, old(emitter.code), old(vars.Scope()).names, old(vars.Scope()).sp, vars.functions);
              && (p.Some? ==> c == p.value.0) && ok == (p.Some? && r.Some?)
              && (ok ==> lexer.Ahead() == p.value.1 &&
                         Emitted(emitter, vars, r, old(emitter.cur), old(vars.levels), old(vars.Scope()).sp + 1))
    {
      hide BytecodeEmitter.Valid, VarManager.Valid, Lexer.Valid, CompileExpr, ParseOpen, Expect, Lexer.Ahead, Raised;
      c := Var("");
      var cond := OpenCondition();
      if cond.None? { ok := false; return; }
      c := cond.value;
      ok := EvalExpr(cond.value, emitter, vars);
      if !ok { return; }
      ok := lexer.Match(RPAREN);
    }

    /** `( cond )` and the jump of a conditional. */
    method IfCondition(l: nat) returns (ok: bool)
      requires Ready()
      modifies lexer, emitter`cur, emitter`code, emitter`iconstants, emitter`iconstantCount, emitter`pool,
          emitter`pending, vars`levels
      ensures ok ==> Ready() && vars.levels == old(vars.levels)
      ensures ok ==> Around(old(vars.levels), vars.outer, old(emitter.cur))
      ensures var r := CondCode(old(lexer.Ahead()), old(Em()), old(vars.Scope()), vars.functions, l);
              ok == r.Some? && (ok ==> lexer.Ahead() == r.value.1 && Em() == r.value.2)
    {
      hide BytecodeEmitter.Valid, VarManager.Valid, Lexer.Valid, CompileExpr, ParseCond, Lexer.Ahead, Raised;
      vars.ScopeIsOk();
      ghost var c;
      ok, c := Condition();
      if !ok { return; }
      var r := vars.PopVar();
      RaisedBack(old(vars.levels), r + 1);
      emitter.JmpfLabel(r, l);
    }

    /** `if_statement`, behind the keyword. */
    method IfStatement() returns (ok: bool)
      requires Ready()
      modifies this, lexer, vars, emitter
      ensures var r := StmtCode([IF] + old(lexer.Ahead()), old(Em()), old(vars.Scope()), vars.functions, old(Brk()));
              Parsed(r, ok)
      decreases |lexer.Ahead()|, 5
    {
      hide BytecodeEmitter.Valid, VarManager.Valid, Lexer.Valid, CompileExpr, ParsePrec, StmtCode, BodyCode,
        BranchCode, BlockCode, SimpleCode, CompileSimple, CondCode, ElseCode, Lexer.Ahead, VarManager.Scope;
      IfUnfolds(lexer.Ahead(), Em(), vars.Scope(), vars.functions, Brk());
      var id1 := jmpUid;
      jmpUid := jmpUid + 1;
      ok := IfCondition(id1);
      if !ok { return; }
      ok := ParseBranch();
      if !ok { return; }
      ok := ElseBranch(id1);
    }

    /** The rest of `if_statement`, behind the first branch. */
    method ElseBranch(id1: nat) returns (ok: bool)
      requires Ready()
      modifies this, lexer, vars, emitter
      ensures var r := ElseCode(old(lexer.Ahead()), old(Em()), old(vars.Scope()), vars.functions, old(Brk()), id1);
              Parsed(r, ok)
      decreases |lexer.Ahead()|, 5
    {
      hide BytecodeEmitter.Valid, VarManager.Valid, Lexer.Valid, CompileExpr, ParsePrec, StmtCode, BodyCode,
        BranchCode, BlockCode, SimpleCode, CompileSimple, VarManager.Scope, Lexer.Ahead, Emit.Place, SecondCode;
      var more := lexer.Match(ELSE);
      if !more {
        Place(id1);
        return true;
      }
      ok := SecondBranch(id1);
    }

    method SecondBranch(id1: nat) returns (ok: bool)
      requires Ready()
      modifies this, lexer, vars, emitter
      ensures var r := SecondCode(old(lexer.Ahead()), old(Em()), old(vars.Scope()), vars.functions, old(Brk()), id1);
              Parsed(r, ok)
      decreases |lexer.Ahead()|, 6
    {
      hide BytecodeEmitter.Valid, VarManager.Valid, Lexer.Valid, CompileExpr, ParsePrec, StmtCode, BodyCode,
        BranchCode, BlockCode, SimpleCode, CompileSimple, VarManager.Scope, Lexer.Ahead, Emit.Place, Emit.Add;
      var id2 := JumpOver(id1);
      ok := ElsePart();
      if ok { Place(id2); }
    }

    /** The jump over the second branch, which starts at label `id1`. */
    method JumpOver(id1: nat) returns (id2: nat)
      requires emitter.Valid() && emitter.isInFunc
      modifies this`jmpUid, emitter`cur, emitter`code, emitter`pending, emitter`labelPos
      ensures emitter.Valid() && id2 == old(jmpUid)
      ensures Em() == old(Em()).(uid := old(jmpUid) + 1).Add(Jmp(id2)).Place(id1)
      ensures emitter.cur.name == old(emitter.cur.name) && emitter.cur.arity == old(emitter.cur.arity)
    {
      hide BytecodeEmitter.Valid;
      id2 := jmpUid;
      jmpUid := jmpUid + 1;
      emitter.JmpLabel(id2);
      emitter.Label(id1);
    }

    method Place(l: nat)
      requires emitter.Valid() && emitter.isInFunc
      modifies emitter`labelPos
      ensures emitter.Valid() && Em() == old(Em()).Place(l)
    {
      hide BytecodeEmitter.Valid;
      emitter.Label(l);
    }

    /** Behind `else`: another conditional, or a branch. */
    method ElsePart() returns (ok: bool)
      requires Ready()
      modifies this, lexer, vars, emitter
      ensures var r := BranchCode(old(lexer.Ahead()), old(Em()), old(vars.Scope()), vars.functions, old(Brk()));
              Parsed(r, ok)
      decreases |lexer.Ahead()|, 5
    {
      hide BytecodeEmitter.Valid, VarManager.Valid, Lexer.Valid, CompileExpr, ParsePrec, StmtCode, BodyCode,
        BranchCode, BlockCode, SimpleCode, CompileSimple;
      BodyUnfolds(lexer.Ahead(), Em(), vars.Scope(), vars.functions, Brk());
      var again := lexer.Match(IF);
      if again { ok := IfStatement(); } else { ok := ParseBranch(); }
    }

    /** A braced block or one statement, as a branch: braces open a scope. */
    method ParseBranch() returns (ok: bool)
      requires Ready()
      modifies this, lexer, vars, emitter
      ensures var r := BranchCode(old(lexer.Ahead()), old(Em()), old(vars.Scope()), vars.functions, old(Brk()));
              Parsed(r, ok)
      decreases |lexer.Ahead()|, 4
    {
      hide BytecodeEmitter.Valid, VarManager.Valid, Lexer.Valid, CompileExpr, ParsePrec, StmtCode, BodyCode,
        BranchCode, BlockCode, SimpleCode, CompileSimple;
      BodyUnfolds(lexer.Ahead(), Em(), vars.Scope(), vars.functions, Brk());
      var braced := lexer.Match(LCURLY);
      if !braced {
        ok := ParseStatement();
        return;
      }
      vars.NewScope();
      ok := ParseBlock();
      if ok { vars.CloseScope(); }
    }

    /** The body of a loop: braces open no scope of their own. */
    method ParseLoopBody() returns (ok: bool)
      requires Ready()
      modifies this, lexer, vars, emitter
      ensures var r := BodyCode(old(lexer.Ahead()), old(Em()), old(vars.Scope()), vars.functions, old(Brk()));
              Parsed(r, ok)
      decreases |lexer.Ahead()|, 4
    {
      hide BytecodeEmitter.Valid, VarManager.Valid, Lexer.Valid, CompileExpr, ParsePrec, StmtCode, BodyCode,
        BranchCode, BlockCode, SimpleCode, CompileSimple;
      BodyUnfolds(lexer.Ahead(), Em(), vars.Scope(), vars.functions, Brk());
      var braced := lexer.Match(LCURLY);
      if braced { ok := ParseBlock(); } else { ok := ParseStatement(); }
    }

    /** `parse_block`, behind the opening brace. */
    method ParseBlock() returns (ok: bool)
      requires Ready()
      modifies this, lexer, vars, emitter
      ensures var r := BlockCode(old(lexer.Ahead()), old(Em()), old(vars.Scope()), vars.functions, old(Brk()));
              Parsed(r, ok)
      decreases |lexer.Ahead()|, 4
    {
      hide BytecodeEmitter.Valid, VarManager.Valid, Lexer.Valid, CompileExpr, ParsePrec, StmtCode, BodyCode,
        BranchCode, BlockCode, SimpleCode, CompileSimple;
      ghost var ts, em, sc := lexer.Ahead(), Em(), vars.Scope();
      BlockUnfolds(ts, em, sc, vars.functions, Brk());
      while !lexer.cur.RCURLY?
        invariant Ready() && |lexer.Ahead()| <= |ts| && loops == old(loops)
        invariant Around(old(vars.levels), old(vars.outer), old(emitter.cur)) && Steady()
        invariant BlockCode(ts, em, sc, vars.functions, Brk()) == BlockCode(lexer.Ahead(), Em(), vars.Scope(),
                    vars.functions, Brk())
        decreases |lexer.Ahead()|
      {
        BlockUnfolds(lexer.Ahead(), Em(), vars.Scope(), vars.functions, Brk());
        if lexer.cur.EOF? { return false; }
        ok := ParseStatement();
        if !ok { return; }
      }
      BlockUnfolds(lexer.Ahead(), Em(), vars.Scope(), vars.functions, Brk());
      lexer.GetTok();
      ok := true;
    }

    /** `( cond )` of a loop, and the jump out of it. */
    method LoopCondition(start: nat, end: nat) returns (ok: bool, c: Expr)
      requires Ready()
      modifies lexer, emitter`cur, emitter`code, emitter`iconstants, emitter`iconstantCount, emitter`pool,
          emitter`pending, emitter`labelPos, vars`levels
      ensures ok ==> Ready() && vars.levels == old(vars.levels)
      ensures ok ==> Around(old(vars.levels), vars.outer, old(emitter.cur))
      ensures var r := CondCode(old(lexer.Ahead()), old(Em()), old(vars.Scope()), vars.functions, end);
              ok == r.Some? && (ok ==> c == r.value.0 && lexer.Ahead() == r.value.1 && Em() == r.value.2.Place(start))
    {
      hide BytecodeEmitter.Valid, VarManager.Valid, Lexer.Valid, CompileExpr, ParseOpen, Expect, Lexer.Ahead,
        LeaveCode;
      c := Var("");
      var cond := OpenCondition();
      if cond.None? { ok := false; return; }
      c := cond.value;
      ok := Leave(c, end);
      if !ok { return; }
      emitter.Label(start);
      ok := lexer.Match(RPAREN);
    }

    /** `parse_while` between its two labels. */
    method WhileLoop(start: nat, end: nat) returns (ok: bool)
      requires Ready() && Brk() == Some(end)
      modifies this, lexer, vars, emitter
      ensures Steady()
      ensures var r := WhileLoopCode(old(lexer.Ahead()), old(Em()), old(vars.Scope()), vars.functions, start, end);
              && ok == r.Some?
              && (ok ==> Ready() && r == Some((lexer.Ahead(), Em())) && loops == old(loops))
      ensures ok ==> Around(old(vars.levels), old(vars.outer), old(emitter.cur))
      decreases |lexer.Ahead()|, 5
    {
      hide BytecodeEmitter.Valid, VarManager.Valid, Lexer.Valid, CompileExpr, ParsePrec, StmtCode, BodyCode,
        BranchCode, BlockCode, SimpleCode, CompileSimple, CondCode, RepeatCode, Emit.Place;
      var c;
      ok, c := LoopCondition(start, end);
      if !ok { return; }
      ok := ParseLoopBody();
      if !ok { return; }
      ok := Repeat(c, start, end);
    }

    /** `parse_while`, behind the keyword. */
    method ParseWhile() returns (ok: bool)
      requires Ready()
      modifies this, lexer, vars, emitter
      ensures var r := StmtCode([WHILE] + old(lexer.Ahead()), old(Em()), old(vars.Scope()), vars.functions, old(Brk()));
              Parsed(r, ok)
      decreases |lexer.Ahead()|, 6
    {
      hide BytecodeEmitter.Valid, VarManager.Valid, Lexer.Valid, CompileExpr, ParsePrec, StmtCode, BodyCode,
        BranchCode, BlockCode, SimpleCode, CompileSimple, WhileLoopCode, Lexer.Ahead;
      WhileUnfolds(lexer.Ahead(), Em(), vars.Scope(), vars.functions, Brk());
      var start, end := jmpUid, jmpUid + 1;
      jmpUid := jmpUid + 2;
      loops := loops + [LoopManager(start, end)];
      vars.NewScope();
      ok := WhileLoop(start, end);
      if !ok { return; }
      vars.CloseScope();
      loops := loops[..|loops| - 1];
    }

    /** The header of `for`, up to its first semicolon. */
    method ForInit() returns (ok: bool)
      requires Ready()
      modifies this, lexer, vars, emitter
      ensures var r := ForInitCode(old(lexer.Ahead()), old(Em()), old(vars.Scope()), vars.functions); Parsed(r, ok)
      decreases |lexer.Ahead()|, 5
    {
      hide BytecodeEmitter.Valid, VarManager.Valid, Lexer.Valid, CompileExpr, ParsePrec, StmtCode, BodyCode,
          BranchCode, BlockCode, SimpleCode, CompileSimple, ForInitCode, Lexer.Ahead;
      ForInitUnfolds(lexer.Ahead(), Em(), vars.Scope(), vars.functions);
      ok := lexer.Match(LPAREN);
      if !ok { return; }
      var none := lexer.Match(SEMICOLON);
      if none { return true; }
      ok := ParsePushAssign();
      if !ok { return; }
      ok := lexer.Match(SEMICOLON);
    }

    /** `cond ; inc )` of `for`, and the jump out of the loop. */
    method ForHeader(start: nat, end: nat) returns (ok: bool, c: Expr, inc: Simple)
      requires Ready()
      modifies lexer, emitter`cur, emitter`code, emitter`iconstants, emitter`iconstantCount, emitter`pool,
          emitter`pending, emitter`labelPos, vars`levels
      ensures ok ==> Ready() && vars.levels == old(vars.levels)
      ensures ok ==> Around(old(vars.levels), vars.outer, old(emitter.cur))
      ensures var r := ForCondCode(old(lexer.Ahead()), old(Em()), old(vars.Scope()), vars.functions, end);
              && ok == r.Some? && (ok ==> c == r.value.0 && inc == r.value.1)
              && (ok ==> lexer.Ahead() == r.value.2 && Em() == r.value.3.Place(start))
    {
      hide BytecodeEmitter.Valid, VarManager.Valid, Lexer.Valid, CompileExpr, ParsePrec, LeaveCode, ParseAssign,
        Expect, Lexer.Ahead;
      c, inc := Var(""), Eval(Var(""));
      var cond := ParsePrecedence(lexer, PREC_TEMP);
      if cond.None? { ok := false; return; }
      c := cond.value;
      ok := lexer.Match(SEMICOLON);
      if !ok { return; }
      ok := Leave(c, end);
      if !ok { return; }
      emitter.Label(start);
      var s := ParseAssignment();
      if s.None? { ok := false; return; }
      inc := s.value;
      ok := lexer.Match(RPAREN);
    }

    /** The loop of `for` between its two labels. */
    method ForRounds(start: nat, end: nat) returns (ok: bool)
      requires Ready() && Brk() == Some(end)
      modifies this, lexer, vars, emitter
      ensures Steady()
      ensures var r := ForLoopCode(old(lexer.Ahead()), old(Em()), old(vars.Scope()), vars.functions, start, end);
              && ok == r.Some?
              && (ok ==> Ready() && r == Some((lexer.Ahead(), Em())) && loops == old(loops))
      ensures ok ==> Around(old(vars.levels), old(vars.outer), old(emitter.cur))
      decreases |lexer.Ahead()|, 5
    {
      hide BytecodeEmitter.Valid, VarManager.Valid, Lexer.Valid, CompileExpr, ParsePrec, StmtCode, BodyCode,
          BranchCode, BlockCode, SimpleCode, CompileSimple, ForCondCode, RepeatCode, Emit.Place, Lexer.Ahead,
              VarManager.Scope;
      var c, inc;
      ok, c, inc := ForHeader(start, end);
      if !ok { return; }
      ok := ParseLoopBody();
      if !ok { return; }
      ok := PushAssign(inc);
      if !ok { return; }
      ok := Repeat(c, start, end);
    }

    /** The loop of `for`, behind its first semicolon. */
    method ForLoop() returns (ok: bool)
      requires Ready()
      modifies this, lexer, vars, emitter
      ensures Steady()
      ensures var r := ForCode(old(lexer.Ahead()), old(Em()), old(vars.Scope()), vars.functions);
              && ok == r.Some?
              && (ok ==> Ready() && r == Some((lexer.Ahead(), Em(), old(vars.Scope()))) && loops == old(loops))
      ensures ok ==> Around(old(vars.levels), old(vars.outer), old(emitter.cur))
      decreases |lexer.Ahead()|, 6
    {
      hide BytecodeEmitter.Valid, VarManager.Valid, Lexer.Valid, CompileExpr, ParsePrec, StmtCode, BodyCode,
        BranchCode, BlockCode, SimpleCode, CompileSimple, ForLoopCode;
      var start, end := jmpUid, jmpUid + 1;
      jmpUid := jmpUid + 2;
      loops := loops + [LoopManager(start, end)];
      ok := ForRounds(start, end);
      if !ok { return; }
      loops := loops[..|loops| - 1];
    }

    /** `parse_for` inside its scope. */
    method ForWithin() returns (ok: bool)
      requires Ready()
      modifies this, lexer, vars, emitter
      ensures Steady()
      ensures var r := WholeForCode(old(lexer.Ahead()), old(Em()), old(vars.Scope()), vars.functions);
              && ok == r.Some?
              && (ok ==> Ready() && r == Some((lexer.Ahead(), Em(), old(vars.Scope()))) && loops == old(loops))
      ensures ok ==> Around(old(vars.levels), old(vars.outer), old(emitter.cur))
      decreases |lexer.Ahead()|, 7
    {
      hide BytecodeEmitter.Valid, VarManager.Valid, Lexer.Valid, CompileExpr, ParsePrec, StmtCode, BodyCode,
        BranchCode, BlockCode, SimpleCode, CompileSimple, ForInitCode, ForCode;
      ok := ForInit();
      if !ok { return; }
      ok := ForLoop();
    }

    /** `parse_for`, behind the keyword. */
    method ParseFor() returns (ok: bool)
      requires Ready()
      modifies this, lexer, vars, emitter
      ensures var r := StmtCode([FOR] + old(lexer.Ahead()), old(Em()), old(vars.Scope()), vars.functions, old(Brk()));
              Parsed(r, ok)
      decreases |lexer.Ahead()|, 8
    {
      hide BytecodeEmitter.Valid, VarManager.Valid, Lexer.Valid, CompileExpr, ParsePrec, StmtCode, BodyCode,
          BranchCode, BlockCode, SimpleCode, CompileSimple, WholeForCode, Lexer.Ahead;
      ForUnfolds(lexer.Ahead(), Em(), vars.Scope(), vars.functions, Brk());
      vars.NewScope();
      ok := ForWithin();
      if !ok { return; }
      vars.CloseScope();
    }

    method ReturnValue(e: Expr) returns (ok: bool)
      requires emitter.Valid() && emitter.isInFunc && vars.Valid()
      modifies emitter`cur, emitter`code, emitter`iconstants, emitter`iconstantCount, emitter`pool, vars`levels
      ensures var r := CompileExpr(e, old(emitter.code), old(vars.Scope()).names, old(vars.Scope()).sp, vars.functions);
              ok == r.Some? && (ok ==> emitter.code == r.value + [Ret(old(vars.Scope()).sp)])
      ensures ok ==> emitter.Valid() && vars.Valid() && vars.levels == old(vars.levels)
      ensures ok ==> Around(old(vars.levels), vars.outer, old(emitter.cur))
    {
      hide BytecodeEmitter.Valid, VarManager.Valid, CompileExpr, Raised;
      vars.ScopeIsOk();
      ok := EvalExpr(e, emitter, vars);
      if !ok { return; }
      var r := vars.PopVar();
      RaisedBack(old(vars.levels), r + 1);
      emitter.EmitReturn(r);
    }

    /** `parse_return`, behind the keyword. */
    method ParseReturn() returns (ok: bool)
      requires Ready()
      modifies this, lexer, vars, emitter
      ensures var r := StmtCode([RETURN] + old(lexer.Ahead()), old(Em()), old(vars.Scope()), vars.functions,
                old(Brk()));
              Parsed(r, ok)
      decreases |lexer.Ahead()|, 5
    {
      hide BytecodeEmitter.Valid, VarManager.Valid, Lexer.Valid, CompileExpr, ParsePrec, StmtCode, BodyCode,
        BranchCode, BlockCode, SimpleCode, CompileSimple, Lexer.Ahead, VarManager.Scope;
      ReturnUnfolds(lexer.Ahead(), Em(), vars.Scope(), vars.functions, Brk());
      var e := ParsePrecedence(lexer, PREC_TEMP);
      if e.None? { return false; }
      ok := lexer.Match(SEMICOLON);
      if !ok { return; }
      ok := ReturnValue(e.value);
    }

    /** `parse_break`, behind the keyword. */
    method ParseBreak() returns (ok: bool)
      requires Ready()
      modifies this, lexer, vars, emitter
      ensures var r := StmtCode([BREAK] + old(lexer.Ahead()), old(Em()), old(vars.Scope()), vars.functions, old(Brk()));
              Parsed(r, ok)
      decreases |lexer.Ahead()|, 5
    {
      hide BytecodeEmitter.Valid, VarManager.Valid, Lexer.Valid, CompileExpr, ParsePrec, StmtCode, BodyCode,
        BranchCode, BlockCode, SimpleCode, CompileSimple;
      BreakUnfolds(lexer.Ahead(), Em(), vars.Scope(), vars.functions, Brk());
      ok := lexer.Match(SEMICOLON);
      if !ok { return; }
      if |loops| == 0 { return false; }
      emitter.JmpLabel(loops[|loops| - 1].labelEnd);
    }

    /** A simple statement and its semicolon. */
    method SimpleStatement() returns (ok: bool)
      requires Ready()
      modifies this, lexer, vars, emitter
      ensures var r := SimpleThen(old(lexer.Ahead()), old(Em()), old(vars.Scope()), vars.functions); Parsed(r, ok)
      decreases |lexer.Ahead()|, 1
    {
      hide BytecodeEmitter.Valid, VarManager.Valid, Lexer.Valid, CompileExpr, ParsePrec, StmtCode, BodyCode,
          BranchCode, BlockCode, SimpleCode, CompileSimple, Lexer.Ahead, VarManager.Scope;
      ok := ParsePushAssign();
      if !ok { return; }
      ok := lexer.Match(SEMICOLON);
    }

    /** `parse_statement`. */
    method ParseStatement() returns (ok: bool)
      requires Ready()
      modifies this, lexer, vars, emitter
      ensures var r := StmtCode(old(lexer.Ahead()), old(Em()), old(vars.Scope()), vars.functions, old(Brk()));
              Parsed(r, ok)
      decreases |lexer.Ahead()|, 3
    {
      hide BytecodeEmitter.Valid, VarManager.Valid, Lexer.Valid, CompileExpr, ParsePrec, StmtCode, BodyCode,
          BranchCode, BlockCode, SimpleCode, CompileSimple, SimpleThen, VarManager.Scope;
      var isIf := lexer.Match(IF);
      if isIf { ok := IfStatement(); return; }
      var isFor := lexer.Match(FOR);
      if isFor { ok := ParseFor(); return; }
      var isWhile := lexer.Match(WHILE);
      if isWhile { ok := ParseWhile(); return; }
      ok := OtherStatement();
    }

    method OtherStatement() returns (ok: bool)
      requires !lexer.cur.IF? && !lexer.cur.FOR? && !lexer.cur.WHILE?
      requires Ready()
      modifies this, lexer, vars, emitter
      ensures var r := StmtCode(old(lexer.Ahead()), old(Em()), old(vars.Scope()), vars.functions, old(Brk()));
              Parsed(r, ok)
      decreases |lexer.Ahead()|, 2
    {
      hide BytecodeEmitter.Valid, VarManager.Valid, Lexer.Valid, CompileExpr, ParsePrec, StmtCode, BodyCode,
        BranchCode, BlockCode, SimpleCode, CompileSimple, SimpleThen;
      var isReturn := lexer.Match(RETURN);
      if isReturn { ok := ParseReturn(); return; }
      var isBreak := lexer.Match(BREAK);
      if isBreak { ok := ParseBreak(); return; }
      SimpleUnfolds(lexer.Ahead(), Em(), vars.Scope(), vars.functions, Brk());
      if lexer.cur.CONTINUE? { return false; }
      ok := SimpleStatement();
    }

    // ---- functions and programs ----

    /** Between two functions: `src` has been compiled. */
    ghost predicate Compiled(src: Source)
      reads this, vars, emitter
    {
      && Accepted(src) && CompileUpTo(src, |src|) == Some((emitter.ems, jmpUid)) && Headed(emitter.funcs, src)
      && vars.Valid() && vars.levels == [LevelInfo(0, [])] && vars.varNames == map[] && vars.outer == []
      && vars.functions == Table(src)
      && emitter.Valid() && !emitter.isInFunc && loops == []
    }

    /** `parse_fn_params`. */
    method ParseParameters() returns (r: Option<seq<string>>)
      requires lexer.Valid() && lexer.nxt.None?
      modifies lexer
      ensures lexer.Valid()
      ensures match ParseParams(old(lexer.Ahead()))
              case None => r.None?
              case Some((names, rest)) => r == Some(names) && lexer.Ahead() == rest && lexer.nxt.None?
    {
      hide Lexer.Valid, ParseNames;
      var names := [];
      ghost var ts := lexer.Ahead();
      NamesStart(ts);
      var done := lexer.Match(RPAREN);
      if done { return Some([]); }
      while true
        invariant lexer.Valid() && lexer.nxt.None? && NamesFrom(names, lexer.Ahead()) == ParseNames(ts)
        decreases |lexer.Ahead()|
      {
        NamesUnfold(names, lexer.Ahead());
        if !lexer.cur.IDENTIFIER? { return None; }
        names := names + [lexer.cur.name];
        lexer.GetTok();
        done := lexer.Match(RPAREN);
        if done { return Some(names); }
        var comma := lexer.Match(COMMA);
        if !comma { return None; }
      }
    }

    /** The parameters of a function become its first variables; a name that occurs
        twice is refused. */
    method PushParams(params: seq<string>) returns (ok: bool)
      requires vars.Valid() && vars.Scope() == Scope(map[], 0)
      modifies vars`levels, vars`varNames
      ensures ok == Distinct(params)
      ensures ok ==> vars.Valid() && vars.Scope() == Scope(ParamNames(params), |params|)
                     && |vars.levels| == |old(vars.levels)|
                        && vars.levels[..|vars.levels| - 1] == old(vars.levels)[..|vars.levels| - 1]
    {
      hide VarManager.Valid;
      for i := 0 to |params|
        invariant vars.Valid() && vars.Scope() == Scope(ParamNames(params[..i]), i) && Distinct(params[..i])
        invariant |vars.levels| == |old(vars.levels)|
                    && vars.levels[..|vars.levels| - 1] == old(vars.levels)[..|vars.levels| - 1]
      {
        ParamsNext(params, i);
        var it := vars.GetVar(params[i]);
        if it.Some? {
          var k :| 0 <= k < i && params[..i][k] == params[i];
          return false;
        }
        var _ := vars.PushNamed(params[i]);
        assert params[..i + 1] == params[..i] + [params[i]];
      }
      assert params[..|params|] == params;
      ok := true;
    }

    /** `name ( params ) {`, behind `fn`. */
    method ParseFunctionHeader() returns (r: Option<(string, seq<string>)>)
      requires lexer.Valid() && lexer.nxt.None?
      modifies lexer
      ensures lexer.Valid()
      ensures match ParseHeader(old(lexer.Ahead()))
              case None => r.None?
              case Some((name, params, rest)) => r == Some((name, params)) && lexer.Ahead() == rest && lexer.nxt.None?
    {
      hide Lexer.Valid, Syntax.ParseParams;
      if !lexer.cur.IDENTIFIER? { return None; }
      lexer.GetTok();
      var name := lexer.prv.name;
      var ok := lexer.Match(LPAREN);
      if !ok { return None; }
      var params := ParseParameters();
      if params.None? { return None; }
      ok := lexer.Match(LCURLY);
      if !ok { return None; }
      r := Some((name, params.value));
    }

    /** The code of a function, between `begin_func` and `end_func`. */
    method FunctionBody(params: seq<string>) returns (ok: bool)
      requires Ready() && vars.levels == [LevelInfo(0, [])] && vars.varNames == map[] && vars.outer == [] && loops == []
      requires emitter.code == [] && emitter.labelPos == map[]
      modifies this, lexer, vars, emitter
      ensures Steady()
      ensures var r := FunctionCode(old(lexer.Ahead()), params, vars.functions, old(jmpUid));
              ok == r.Some? && (ok ==> lexer.Valid() && lexer.nxt.None? && r == Some((lexer.Ahead(), Em())))
      ensures ok ==> vars.Valid() && vars.levels == old(vars.levels) && vars.varNames == map[] && vars.outer == []
      ensures ok ==> loops == []
      ensures ok ==> emitter.Valid() && emitter.cur.name == old(emitter.cur).name
      ensures ok ==> emitter.cur.arity == old(emitter.cur).arity
    {
      hide BytecodeEmitter.Valid, VarManager.Valid, Lexer.Valid, CompileExpr, ParsePrec, StmtCode, BodyCode,
        BranchCode, BlockCode, SimpleCode, CompileSimple;
      vars.NewScope();
      ok := PushParams(params);
      if !ok { return; }
      ok := ParseBlock();
      if !ok { return; }
      vars.CloseScope();
      emitter.EmitRetNil();
    }

    /** `parse_function`, behind `fn`. */
    method ParseOneFunction(ghost src: Source) returns (ok: bool)
      requires Compiled(src) && lexer.Valid() && lexer.nxt.None?
      modifies this, lexer, vars, emitter
      ensures var p := ParseFunction(old(lexer.Ahead()));
              if p.None? then !ok
              else
                && ok == Accepted(src + [p.value.0])
                && (ok ==> Compiled(src + [p.value.0]))
                && (ok ==> lexer.Valid() && lexer.nxt.None? && lexer.Ahead() == p.value.1)
    {
      hide BytecodeEmitter.Valid, VarManager.Valid, Lexer.Valid, CompileExpr, ParsePrec, StmtCode, BodyCode,
        BranchCode, BlockCode, SimpleCode, CompileSimple, Syntax.ParseBlock, CompileUpTo, Accepted, Table,
        ParseHeader, CompileFunction, Resolvable;
      ghost var ts, uid, ems := lexer.Ahead(), jmpUid, emitter.ems;
      var header := ParseFunctionHeader();
      if header.None? {
        NoHeader(ts);
        return false;
      }
      var name, params := header.value.0, header.value.1;
      ghost var ts1 := lexer.Ahead();
      FunctionUnfolds(ts, src, ems, uid);
      var fid := emitter.BeginFunc(|params|, name);
      ok := vars.AddFunc(name, fid);
      if !ok { return; }
      ok := FunctionBody(params);
      if !ok { return; }
      ok := emitter.EndFunc(jmpUid);
    }

    /** `parse_program`: the linked program is the one that parsing everything, compiling
        everything and linking gives; it is refused exactly when that fails. */
    method ParseProgram() returns (r: Option<Image>)
      requires Compiled([]) && lexer.Valid() && lexer.nxt.None?
      modifies this, lexer, vars, emitter
      ensures var p := Syntax.ParseProgram(old(lexer.Ahead())); r == if p.None? then None else Link(p.value)
    {
      hide Lexer.Valid, BytecodeEmitter.Valid, VarManager.Valid, Accepted, CompileUpTo, Link, ParseFunction,
        ProgramFrom, Syntax.ParseProgram, Resolvable, Table;
      ghost var src: Source := [];
      ghost var ts := lexer.Ahead();
      ProgramStart(ts);
      while !lexer.cur.EOF?
        invariant Compiled(src) && lexer.Valid() && lexer.nxt.None?
        invariant ProgramFrom(src, lexer.Ahead()) == Syntax.ParseProgram(ts)
        decreases |lexer.Ahead()|
      {
        ProgramUnfolds(src, lexer.Ahead());
        var ok := lexer.Match(FN);
        if !ok { return None; }
        ghost var p := ParseFunction(lexer.Ahead());
        ok := ParseOneFunction(src);
        if !ok {
          if p.Some? { ProgramRefused(src + [p.value.0], p.value.1); }
          return None;
        }
        src := src + [p.value.0];
      }
      ProgramUnfolds(src, lexer.Ahead());
      FinishedPool();
      r := emitter.InitVM();
      Linked(src, emitter.funcs, emitter.ems, jmpUid, emitter.pool);
    }

    lemma FinishedPool()
      requires emitter.Valid() && !emitter.isInFunc
      ensures Pooled(emitter.pool, emitter.ems, []) && |emitter.ems| == |emitter.funcs|
    {
      hide Current, Pooled;
    }
  }

  /** The compiler, from tokens to a linked program. */
  method Compile(input: seq<Token>) returns (r: Option<Image>)
    requires forall t | t in input :: !t.EOF?
    ensures var p := Syntax.ParseProgram(input); r == if p.None? then None else Link(p.value)
  {
    hide Syntax.ParseProgram, Link;
    var parser := new Parser(input);
    assert parser.Compiled([]);
    r := parser.ParseProgram();
  }

  lemma ProgramStart(ts: Input)
    ensures ProgramFrom([], ts) == Syntax.ParseProgram(ts)
  {
    hide Syntax.ParseProgram;
    if Syntax.ParseProgram(ts).Some? { assert [] + Syntax.ParseProgram(ts).value == Syntax.ParseProgram(ts).value; }
  }

  lemma ProgramRefused(src: Source, ts: Input)
    requires !Accepted(src)
    ensures var p := ProgramFrom(src, ts); p.None? || Link(p.value) == None
  {
    hide Accepted, Link, Syntax.ParseProgram;
    if Syntax.ParseProgram(ts).Some? {
      RefusedEarly(src, Syntax.ParseProgram(ts).value);
      NotLinked(src + Syntax.ParseProgram(ts).value);
    }
  }

  /** The body of a function, parsed and compiled. */
  function FunctionCode(ts: Input, params: seq<string>, funcs: Names, uid: nat): Option<(Input, Emit)> {
    if !Distinct(params) then None
    else
      var (rest, em, _) :- BlockCode(ts, Emit([], map[], uid), Scope(ParamNames(params), |params|), funcs, None);
      Some((rest, em.Add(RetNil)))
  }

  lemma NoHeader(ts: Input)
    requires ParseHeader(ts).None?
    ensures ParseFunction(ts).None?
  {
  }

  /** Parsing and compiling one more function, against what has been compiled before. */
  lemma FunctionUnfolds(ts: Input, src: Source, ems: seq<Emit>, uid: nat)
    requires Accepted(src) && CompileUpTo(src, |src|) == Some((ems, uid)) && ParseHeader(ts).Some?
    ensures var (name, params, ts1) := ParseHeader(ts).value;
            var r := FunctionCode(ts1, params, Table(src)[name := |src|], uid);
            var p := ParseFunction(ts);
            && (p.None? ==> r.None?)
            && (p.Some? ==>
                  var f := p.value.0;
                  && f.name == name && f.params == params && Table(src + [f]) == Table(src)[name := |src|]
                  && (Accepted(src + [f]) <==> name !in Table(src) && r.Some? && Resolvable(r.value.1))
                  && (r.Some? ==> r.value.0 == p.value.1)
                  && (r.Some? ==>
                        CompileUpTo(src + [f], |src| + 1) == Some((ems + [r.value.1], r.value.1.uid))))
  {
    hide ParseHeader, Syntax.ParseBlock, CompileStmts, CompileUpTo, Accepted, Table, Resolvable;
    var (name, params, ts1) := ParseHeader(ts).value;
    if ParseFunction(ts).Some? {
      var (f, rest) := ParseFunction(ts).value;
      UpToNext(src, f);
      AcceptedNext(src, f);
      TableNext(src, f);
      UpToLength(src, ems, uid);
    }
  }

  lemma UpToLength(src: Source, ems: seq<Emit>, uid: nat)
    requires CompileUpTo(src, |src|) == Some((ems, uid))
    ensures |ems| == |src|
  {
  }

  function NamesFrom(names: seq<string>, ts: Input): Option<(seq<string>, Input)> {
    var (more, rest) :- ParseNames(ts);
    Some((names + more, rest))
  }

  lemma NamesStart(ts: Input)
    ensures NamesFrom([], ts) == ParseNames(ts)
  {
    hide ParseNames;
    if ParseNames(ts).Some? { assert [] + ParseNames(ts).value.0 == ParseNames(ts).value.0; }
  }

  lemma NamesUnfold(names: seq<string>, ts: Input)
    ensures NamesFrom(names, ts) ==
            if !Head(ts).IDENTIFIER? then None
            else if Head(ts[1..]).RPAREN? then Some((names + [ts[0].name], ts[2..]))
            else if Head(ts[1..]).COMMA? then NamesFrom(names + [ts[0].name], ts[2..])
            else None
  {
    if Head(ts).IDENTIFIER? && Head(ts[1..]).COMMA? && ParseNames(ts[2..]).Some? {
      var more := ParseNames(ts[2..]).value.0;
      assert names + ([ts[0].name] + more) == (names + [ts[0].name]) + more;
    }
  }
}
