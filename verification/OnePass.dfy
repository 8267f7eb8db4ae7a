/** Parsing a statement and compiling it, taken together: the token list, the function
    being emitted and the scope before and after. Each function is "parse, then
    compile"; the lemmas give the order in which the parser really does it. */
module OnePass {
  import opened Values
  import opened Ast
  import opened Tokens
  import opened Pratt
  import opened Syntax
  import opened Codegen

  /** The tokens that are left, the code so far and the scope. */
  type Result = Option<(Input, Emit, Scope)>

  function StmtCode(ts: Input, em: Emit, sc: Scope, funcs: Names, brk: Option<nat>): (r: Result)
    ensures r.Some? ==> |r.value.0| < |ts|
  {
    var (s, rest) :- ParseStmt(ts);
    var (em1, sc1) :- CompileStmt(s, em, sc, funcs, brk);
    Some((rest, em1, sc1))
  }

  function BodyCode(ts: Input, em: Emit, sc: Scope, funcs: Names, brk: Option<nat>): (r: Result)
    ensures r.Some? ==> |r.value.0| < |ts|
  {
    var (b, rest) :- ParseBody(ts);
    var (em1, sc1) :- CompileBody(b, em, sc, funcs, brk);
    Some((rest, em1, sc1))
  }

  function BranchCode(ts: Input, em: Emit, sc: Scope, funcs: Names, brk: Option<nat>): (r: Result)
    ensures r.Some? ==> |r.value.0| < |ts|
  {
    var (b, rest) :- ParseBody(ts);
    var (em1, sc1) :- CompileBranch(b, em, sc, funcs, brk);
    Some((rest, em1, sc1))
  }

  function BlockCode(ts: Input, em: Emit, sc: Scope, funcs: Names, brk: Option<nat>): (r: Result)
    ensures r.Some? ==> |r.value.0| < |ts|
  {
    var (ss, rest) :- ParseBlock(ts);
    var (em1, sc1) :- CompileStmts(ss, em, sc, funcs, brk);
    Some((rest, em1, sc1))
  }

  function SimpleCode(ts: Input, em: Emit, sc: Scope, funcs: Names): (r: Result)
    ensures r.Some? ==> |r.value.0| < |ts|
  {
    var (s, rest) :- ParseAssign(ts);
    var (c1, sc1) :- CompileSimple(s, em.code, sc, funcs);
    Some((rest, em.(code := c1), sc1))
  }

  lemma BlockUnfolds(ts: Input, em: Emit, sc: Scope, funcs: Names, brk: Option<nat>)
    ensures BlockCode(ts, em, sc, funcs, brk) ==
            if ts == [] then None
            else if ts[0].RCURLY? then Some((ts[1..], em, sc))
            else
              match StmtCode(ts, em, sc, funcs, brk)
              case None => None
              case Some((rest, em1, sc1)) => BlockCode(rest, em1, sc1, funcs, brk)
  {
    hide ParseStmt, CompileStmt;
    if ts != [] && !ts[0].RCURLY? && ParseStmt(ts).Some? {
      var (s, rest) := ParseStmt(ts).value;
      if ParseBlock(rest).Some? {
        var (ss, rest1) := ParseBlock(rest).value;
        assert ([s] + ss)[0] == s && ([s] + ss)[1..] == ss;
      }
    }
  }

  lemma BodyUnfolds(ts: Input, em: Emit, sc: Scope, funcs: Names, brk: Option<nat>)
    ensures BodyCode(ts, em, sc, funcs, brk) ==
            if Head(ts).LCURLY? then BlockCode(ts[1..], em, sc, funcs, brk) else StmtCode(ts, em, sc, funcs, brk)
    ensures BranchCode(ts, em, sc, funcs, brk) ==
            match BodyCode(ts, em, sc, funcs, brk)
            case None => None
            case Some((rest, em1, sc1)) => Some((rest, em1, if Head(ts).LCURLY? then sc else sc1))
  {
    hide ParseStmt, CompileStmt, ParseBlock, CompileStmts;
  }

  /** A condition and the jump that leaves when it fails. */
  function LeaveCode(c: Expr, em: Emit, sc: Scope, funcs: Names, l: nat): Option<Emit> {
    var c1 :- CompileExpr(c, em.code, sc.names, sc.sp, funcs);
    Some(em.(code := c1 + [JmpF(sc.sp, l)]))
  }

  /** `( cond )` with the jump that leaves. */
  function CondCode(ts: Input, em: Emit, sc: Scope, funcs: Names, l: nat): (r: Option<(Expr, Input, Emit)>)
    ensures r.Some? ==> |r.value.1| < |ts|
  {
    var (c, ts1) :- ParseCond(ts);
    var em1 :- LeaveCode(c, em, sc, funcs, l);
    Some((c, ts1, em1))
  }

  /** `cond ; inc )` with the jump that leaves. */
  function ForCondCode(ts: Input, em: Emit, sc: Scope, funcs: Names, l: nat): (r: Option<(Expr, Simple, Input, Emit)>)
    ensures r.Some? ==> |r.value.2| < |ts|
  {
    var (c, inc, ts1) :- ParseForRest(ts);
    var em1 :- LeaveCode(c, em, sc, funcs, l);
    Some((c, inc, ts1, em1))
  }

  /** A condition and the jump back to `start`; `end` is the place behind it. */
  function RepeatCode(c: Expr, em: Emit, sc: Scope, funcs: Names, start: nat, end: nat): Option<Emit> {
    var c1 :- CompileExpr(c, em.code, sc.names, sc.sp, funcs);
    Some(em.(code := c1 + [JmpT(sc.sp, start)]).Place(end))
  }

  /** The second branch of a conditional; `l` is the label at its start. */
  function SecondCode(ts: Input, em: Emit, sc: Scope, funcs: Names, brk: Option<nat>, l: nat): (r: Result)
    ensures r.Some? ==> |r.value.0| < |ts|
  {
    var em1 := em.(uid := em.uid + 1).Add(Jmp(em.uid)).Place(l);
    var (ts1, em2, sc2) :- BranchCode(ts, em1, sc, funcs, brk);
    Some((ts1, em2.Place(em.uid), sc2))
  }

  /** What follows the first branch of a conditional. */
  function ElseCode(ts: Input, em: Emit, sc: Scope, funcs: Names, brk: Option<nat>, l: nat): (r: Result)
    ensures r.Some? ==> |r.value.0| <= |ts|
  {
    if !Head(ts).ELSE? then Some((ts, em.Place(l), sc)) else SecondCode(ts[1..], em, sc, funcs, brk, l)
  }

  /** `if_statement`, behind the keyword. */
  function IfCode(ts: Input, em: Emit, sc: Scope, funcs: Names, brk: Option<nat>): (r: Result)
    ensures r.Some? ==> |r.value.0| < |ts|
  {
    var (_, ts1, em1) :- CondCode(ts, em.(uid := em.uid + 1), sc, funcs, em.uid);
    var (ts2, em2, sc2) :- BranchCode(ts1, em1, sc, funcs, brk);
    ElseCode(ts2, em2, sc2, funcs, brk, em.uid)
  }

  /** `if`, behind the keyword. */
  function ParseIf(ts: Input): Option<(Stmt, Input)> {
    var (c, ts1) :- ParseCond(ts);
    var (thn, ts2) :- ParseBody(ts1);
    if Head(ts2).ELSE? then
      var (els, ts3) :- ParseBody(ts2[1..]);
      Some((If(c, thn, Else(els)), ts3))
    else Some((If(c, thn, NoElse), ts2))
  }

  /** `for`, behind the keyword. */
  function ParseFor(ts: Input): Option<(Stmt, Input)> {
    var (init, ts1) :- ParseForInit(ts);
    var (c, inc, ts2) :- ParseForRest(ts1);
    var (body, ts3) :- ParseBody(ts2);
    Some((For(init, c, inc, body), ts3))
  }

  lemma KeywordParsed(ts: Input)
    ensures ParseStmt([IF] + ts) == ParseIf(ts)
    ensures ParseStmt([FOR] + ts) == ParseFor(ts)
  {
    hide ParseCond, ParseBody, ParseForInit, ParseForRest;
    assert ([IF] + ts)[1..] == ts && ([FOR] + ts)[1..] == ts;
  }

  /** `if`, from its syntax tree. */
  function IfStmtCode(s: Stmt, em: Emit, sc: Scope, funcs: Names, brk: Option<nat>): Option<(Emit, Scope)>
    requires s.If?
  {
    var em1 :- LeaveCode(s.cond, em.(uid := em.uid + 1), sc, funcs, em.uid);
    var (em2, sc2) :- CompileBranch(s.thn, em1, sc, funcs, brk);
    if s.els.NoElse? then Some((em2.Place(em.uid), sc2))
    else
      var em3 := em2.(uid := em2.uid + 1).Add(Jmp(em2.uid)).Place(em.uid);
      var (em4, sc4) :- CompileBranch(s.els.body, em3, sc2, funcs, brk);
      Some((em4.Place(em2.uid), sc4))
  }

  lemma IfStmtUnfolds(s: Stmt, em: Emit, sc: Scope, funcs: Names, brk: Option<nat>)
    requires s.If?
    ensures CompileStmt(s, em, sc, funcs, brk) == IfStmtCode(s, em, sc, funcs, brk)
  {
    hide CompileExpr, CompileBranch, Emit.Place, Emit.Add;
  }

  lemma IfUnfolds(ts: Input, em: Emit, sc: Scope, funcs: Names, brk: Option<nat>)
    ensures StmtCode([IF] + ts, em, sc, funcs, brk) == IfCode(ts, em, sc, funcs, brk)
  {
    hide ParseIf, IfCode, ParseStmt, CompileStmt;
    KeywordParsed(ts);
    IfPieces(ts, em, sc, funcs, brk);
    if ParseIf(ts).Some? {
      IfStmtUnfolds(ParseIf(ts).value.0, em, sc, funcs, brk);
    }
  }

  /** Parsing a conditional and emitting its tree is emitting it piece by piece. */
  lemma IfPieces(ts: Input, em: Emit, sc: Scope, funcs: Names, brk: Option<nat>)
    ensures ParseIf(ts).None? ==> IfCode(ts, em, sc, funcs, brk) == None
    ensures ParseIf(ts).Some? ==>
              var (s, rest) := ParseIf(ts).value;
              s.If? && IfCode(ts, em, sc, funcs, brk) ==
              (match IfStmtCode(s, em, sc, funcs, brk) case None => None case Some(r) => Some((rest, r.0, r.1)))
  {
    hide ParseCond, ParseBody, LeaveCode, CompileBranch, Emit.Place, Emit.Add;
  }

  /** `parse_while` between its two labels. */
  function WhileLoopCode(ts: Input, em: Emit, sc: Scope, funcs: Names, start: nat, end: nat): (r: Option<(Input, Emit)>)
    ensures r.Some? ==> |r.value.0| < |ts|
  {
    var (c, ts1, em1) :- CondCode(ts, em, sc, funcs, end);
    var (ts2, em2, sc2) :- BodyCode(ts1, em1.Place(start), sc, funcs, Some(end));
    var em3 :- RepeatCode(c, em2, sc2, funcs, start, end);
    Some((ts2, em3))
  }

  /** `parse_while`, behind the keyword. */
  function WhileCode(ts: Input, em: Emit, sc: Scope, funcs: Names): (r: Result)
    ensures r.Some? ==> |r.value.0| < |ts|
  {
    var (ts1, em1) :- WhileLoopCode(ts, em.(uid := em.uid + 2), sc, funcs, em.uid, em.uid + 1);
    Some((ts1, em1, sc))
  }

  /** The rotated loop, from the pieces the parser emits. */
  function LoopCode(s: Stmt, em: Emit, sc: Scope, funcs: Names, start: nat, end: nat): Option<Emit>
    requires s.While? || s.For?
  {
    var em1 :- LeaveCode(s.cond, em, sc, funcs, end);
    var (em2, sc2) :- CompileBody(s.body, em1.Place(start), sc, funcs, Some(end));
    var (c3, sc3) :- CompileInc(s, em2.code, sc2, funcs);
    RepeatCode(s.cond, em2.(code := c3), sc3, funcs, start, end)
  }

  lemma LoopUnfolds(s: Stmt, em: Emit, sc: Scope, funcs: Names)
    requires s.While? || s.For?
    ensures CompileLoop(s, em, sc, funcs) == LoopCode(s, em.(uid := em.uid + 2), sc, funcs, em.uid, em.uid + 1)
  {
    hide CompileExpr, CompileBody, CompileInc, Emit.Place;
  }

  lemma WhileUnfolds(ts: Input, em: Emit, sc: Scope, funcs: Names, brk: Option<nat>)
    ensures StmtCode([WHILE] + ts, em, sc, funcs, brk) == WhileCode(ts, em, sc, funcs)
  {
    hide ParseCond, ParseBody, LeaveCode, RepeatCode, CompileLoop, CompileBody, Emit.Place;
    assert ([WHILE] + ts)[1..] == ts;
    if ParseStmt([WHILE] + ts).Some? {
      LoopUnfolds(ParseStmt([WHILE] + ts).value.0, em, sc, funcs);
    }
  }

  /** The loop of `for` between its two labels. */
  function ForLoopCode(ts: Input, em: Emit, sc: Scope, funcs: Names, start: nat, end: nat): (r: Option<(Input, Emit)>)
    ensures r.Some? ==> |r.value.0| < |ts|
  {
    var (c, inc, ts1, em1) :- ForCondCode(ts, em, sc, funcs, end);
    var (ts2, em2, sc2) :- BodyCode(ts1, em1.Place(start), sc, funcs, Some(end));
    var (c3, sc3) :- CompileSimple(inc, em2.code, sc2, funcs);
    var em3 :- RepeatCode(c, em2.(code := c3), sc3, funcs, start, end);
    Some((ts2, em3))
  }

  /** The loop of `for`, behind its first semicolon. */
  function ForCode(ts: Input, em: Emit, sc: Scope, funcs: Names): (r: Result)
    ensures r.Some? ==> |r.value.0| < |ts|
  {
    var (ts1, em1) :- ForLoopCode(ts, em.(uid := em.uid + 2), sc, funcs, em.uid, em.uid + 1);
    Some((ts1, em1, sc))
  }

  function ForInitCode(ts: Input, em: Emit, sc: Scope, funcs: Names): (r: Result)
    ensures r.Some? ==> |r.value.0| < |ts|
  {
    var (init, rest) :- ParseForInit(ts);
    var (c1, sc1) :- CompileInit(init, em.code, sc, funcs);
    Some((rest, em.(code := c1), sc1))
  }

  /** `parse_for`, behind the keyword. */
  function WholeForCode(ts: Input, em: Emit, sc: Scope, funcs: Names): (r: Result)
    ensures r.Some? ==> |r.value.0| < |ts|
  {
    var (ts1, em1, sc1) :- ForInitCode(ts, em, sc, funcs);
    var (rest, em2, _) :- ForCode(ts1, em1, sc1, funcs);
    Some((rest, em2, sc))
  }

  /** The loop of `for` behind its initialisation, from its syntax tree. */
  function ForStmtCode(s: Stmt, em: Emit, sc: Scope, funcs: Names): Option<(Emit, Scope)>
    requires s.For?
  {
    var (c1, sc1) :- CompileInit(s.init, em.code, sc, funcs);
    var em1 :- LoopCode(s, em.(code := c1, uid := em.uid + 2), sc1, funcs, em.uid, em.uid + 1);
    Some((em1, sc))
  }

  lemma ForStmtUnfolds(s: Stmt, em: Emit, sc: Scope, funcs: Names, brk: Option<nat>)
    requires s.For?
    ensures CompileStmt(s, em, sc, funcs, brk) == ForStmtCode(s, em, sc, funcs)
  {
    hide CompileLoop, LoopCode, CompileInit;
    if CompileInit(s.init, em.code, sc, funcs).Some? {
      var (c1, sc1) := CompileInit(s.init, em.code, sc, funcs).value;
      LoopUnfolds(s, em.(code := c1), sc1, funcs);
    }
  }

  lemma ForUnfolds(ts: Input, em: Emit, sc: Scope, funcs: Names, brk: Option<nat>)
    ensures StmtCode([FOR] + ts, em, sc, funcs, brk) == WholeForCode(ts, em, sc, funcs)
  {
    hide ParseFor, WholeForCode, ParseStmt, CompileStmt;
    KeywordParsed(ts);
    ForPieces(ts, em, sc, funcs);
    if ParseFor(ts).Some? {
      ForStmtUnfolds(ParseFor(ts).value.0, em, sc, funcs, brk);
    }
  }

  lemma ForPieces(ts: Input, em: Emit, sc: Scope, funcs: Names)
    ensures ParseFor(ts).None? ==> WholeForCode(ts, em, sc, funcs) == None
    ensures ParseFor(ts).Some? ==>
              var (s, rest) := ParseFor(ts).value;
              s.For? && WholeForCode(ts, em, sc, funcs) ==
              (match ForStmtCode(s, em, sc, funcs) case None => None case Some(r) => Some((rest, r.0, r.1)))
  {
    hide ParseForInit, ParseForRest, ParseBody, LeaveCode, RepeatCode, CompileSimple, CompileBody, CompileInit,
      Emit.Place;
  }

  /** A simple statement and the semicolon behind it. */
  function SimpleThen(ts: Input, em: Emit, sc: Scope, funcs: Names): (r: Result)
    ensures r.Some? ==> |r.value.0| < |ts|
  {
    var (rest, em1, sc1) :- SimpleCode(ts, em, sc, funcs);
    if Head(rest).SEMICOLON? then Some((rest[1..], em1, sc1)) else None
  }

  lemma ForInitUnfolds(ts: Input, em: Emit, sc: Scope, funcs: Names)
    ensures ForInitCode(ts, em, sc, funcs) ==
            if !Head(ts).LPAREN? then None
            else if Head(ts[1..]).SEMICOLON? then Some((ts[2..], em, sc))
            else SimpleThen(ts[1..], em, sc, funcs)
  {
    hide ParseAssign, CompileSimple;
    if Head(ts).LPAREN? && Head(ts[1..]).SEMICOLON? {
      assert ts[1..][1..] == ts[2..];
    }
  }

  /** `parse_return`, behind the keyword. */
  function ReturnCode(ts: Input, em: Emit, sc: Scope, funcs: Names): (r: Result)
    ensures r.Some? ==> |r.value.0| < |ts|
  {
    var (e, rest) :- ParseExpr(ts);
    var c1 :- CompileExpr(e, em.code, sc.names, sc.sp, funcs);
    if Head(rest).SEMICOLON? then Some((rest[1..], em.(code := c1 + [Ret(sc.sp)]), sc)) else None
  }

  lemma ReturnUnfolds(ts: Input, em: Emit, sc: Scope, funcs: Names, brk: Option<nat>)
    ensures StmtCode([RETURN] + ts, em, sc, funcs, brk) == ReturnCode(ts, em, sc, funcs)
  {
    hide ParseExpr, CompileExpr;
    assert ([RETURN] + ts)[1..] == ts;
  }

  lemma BreakUnfolds(ts: Input, em: Emit, sc: Scope, funcs: Names, brk: Option<nat>)
    ensures StmtCode([BREAK] + ts, em, sc, funcs, brk) ==
            if Head(ts).SEMICOLON? && brk.Some? then Some((ts[1..], em.Add(Jmp(brk.value)), sc)) else None
  {
    assert ([BREAK] + ts)[1..] == ts;
  }

  predicate IsKeyword(t: Token) {
    t.IF? || t.FOR? || t.WHILE? || t.RETURN? || t.BREAK?
  }

  lemma SimpleUnfolds(ts: Input, em: Emit, sc: Scope, funcs: Names, brk: Option<nat>)
    requires !IsKeyword(Head(ts))
    ensures StmtCode(ts, em, sc, funcs, brk) == if Head(ts).CONTINUE? then None else SimpleThen(ts, em, sc, funcs)
  {
    hide ParseAssign, CompileSimple;
  }
}
