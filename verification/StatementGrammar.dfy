/** The statement parser accepts exactly the grammar of the language: concrete trees for
    statements, functions and programs, with a table of their own for the tokens they are
    written with. */
module StatementGrammar {
  import opened Values
  import opened Ast
  import opened Tokens
  import opened Pratt
  import opened PrattTheorems
  import opened Syntax

  /** Statements as they are written: their expressions are concrete trees. */
  datatype CSimple = CAssign(aop: AssignOp, lhs: Cst, rhs: Cst) | CEval(e: Cst)

  datatype CBody = CBlock(stmts: seq<CStmt>) | CSingle(stmt: CStmt)

  datatype CElse = CNoElse | CElse(body: CBody)

  datatype CInit = CNoInit | CInit(init: CSimple)

  datatype CStmt =
    | CDo(simple: CSimple)
    | CIf(cond: Cst, thn: CBody, els: CElse)
    | CWhile(cond: Cst, body: CBody)
    | CFor(init: CInit, cond: Cst, inc: CSimple, body: CBody)
    | CReturn(e: Cst)
    | CBreak

  datatype CFunction = CFunction(name: string, params: seq<string>, body: seq<CStmt>)

  // ---- the text of a tree ----

  function AssignToken(aop: AssignOp): Token {
    match aop
    case Set => ASSIGN case PlusEq => PLUS_EQ case MinusEq => MINUS_EQ
    case MulEq => MUL_EQ case DivEq => DIV_EQ
  }

  function SimpleText(c: CSimple): Input {
    match c
    case CAssign(aop, lhs, rhs) => Flatten(lhs) + [AssignToken(aop)] + Flatten(rhs)
    case CEval(e) => Flatten(e)
  }

  function InitText(c: CInit): Input {
    if c.CNoInit? then [] else SimpleText(c.init)
  }

  /** `( cond )`. */
  function CondText(c: Cst): Input {
    [LPAREN] + Flatten(c) + [RPAREN]
  }

  function StmtText(c: CStmt): Input
    decreases c, 1
  {
    match c
    case CDo(simple) => SimpleText(simple) + [SEMICOLON]
    case CIf(cond, thn, els) => [IF] + CondText(cond) + BodyText(thn) + ElseText(els)
    case CWhile(cond, body) => [WHILE] + CondText(cond) + BodyText(body)
    case CFor(init, cond, inc, body) =>
      [FOR, LPAREN] + InitText(init) + [SEMICOLON] + Flatten(cond) + [SEMICOLON] + SimpleText(inc) + [RPAREN]
      + BodyText(body)
    case CReturn(e) => [RETURN] + Flatten(e) + [SEMICOLON]
    case CBreak => [BREAK, SEMICOLON]
  }

  function ElseText(c: CElse): Input
    decreases c, 0
  {
    if c.CNoElse? then [] else [ELSE] + BodyText(c.body)
  }

  function BodyText(c: CBody): Input
    decreases c, 0
  {
    match c
    case CBlock(ss) => [LCURLY] + BlockText(ss)
    case CSingle(s) => StmtText(s)
  }

  /** Statements and the closing brace. */
  function BlockText(ss: seq<CStmt>): Input
    decreases ss, 0
  {
    if ss == [] then [RCURLY] else StmtText(ss[0]) + BlockText(ss[1..])
  }

  /** Names separated by commas, and the closing parenthesis. */
  function NamesText(names: seq<string>): Input {
    if names == [] then [RPAREN]
    else [IDENTIFIER(names[0])] + (if |names| == 1 then [RPAREN] else [COMMA] + NamesText(names[1..]))
  }

  function FunctionText(f: CFunction): Input {
    [FN, IDENTIFIER(f.name), LPAREN] + NamesText(f.params) + [LCURLY] + BlockText(f.body)
  }

  function ProgramText(fs: seq<CFunction>): Input {
    if fs == [] then [] else FunctionText(fs[0]) + ProgramText(fs[1..])
  }

  // ---- what it stands for ----

  function SimpleOf(c: CSimple): Simple {
    match c
    case CAssign(aop, lhs, rhs) => Assign(aop, Erase(lhs), Erase(rhs))
    case CEval(e) => Eval(Erase(e))
  }

  function InitOf(c: CInit): Init {
    if c.CNoInit? then NoInit else Init.Init(SimpleOf(c.init))
  }

  function StmtOf(c: CStmt): Stmt
    decreases c, 1
  {
    match c
    case CDo(simple) => Do(SimpleOf(simple))
    case CIf(cond, thn, els) => If(Erase(cond), BodyOf(thn), ElseOf(els))
    case CWhile(cond, body) => While(Erase(cond), BodyOf(body))
    case CFor(init, cond, inc, body) => For(InitOf(init), Erase(cond), SimpleOf(inc), BodyOf(body))
    case CReturn(e) => Return(Erase(e))
    case CBreak => Break
  }

  function ElseOf(c: CElse): Else
    decreases c, 0
  {
    if c.CNoElse? then NoElse else Else(BodyOf(c.body))
  }

  function BodyOf(c: CBody): Body
    decreases c, 0
  {
    match c
    case CBlock(ss) => Block(StmtsOf(ss))
    case CSingle(s) => Single(StmtOf(s))
  }

  function StmtsOf(ss: seq<CStmt>): (r: seq<Stmt>)
    ensures |r| == |ss|
    decreases ss, 0
  {
    if ss == [] then [] else [StmtOf(ss[0])] + StmtsOf(ss[1..])
  }

  function FunctionOf(f: CFunction): Function {
    Function.Function(f.name, f.params, StmtsOf(f.body))
  }

  function ProgramOf(fs: seq<CFunction>): Source {
    if fs == [] then [] else [FunctionOf(fs[0])] + ProgramOf(fs[1..])
  }

  // ---- the grammar ----

  /** The statement ends in a conditional without `else`, which a following `else` would
      belong to. */
  predicate Open(c: CStmt)
    decreases c, 1
  {
    match c
    case CIf(_, thn, els) => if els.CNoElse? then true else OpenBody(els.body)
    case CWhile(_, body) => OpenBody(body)
    case CFor(_, _, _, body) => OpenBody(body)
    case _ => false
  }

  predicate OpenBody(c: CBody)
    decreases c, 0
  {
    c.CSingle? && Open(c.stmt)
  }

  predicate SimpleFits(c: CSimple) {
    match c
    case CAssign(_, lhs, rhs) => Fits(lhs, PREC_TEMP) && Fits(rhs, PREC_TEMP)
    case CEval(e) => Fits(e, PREC_TEMP)
  }

  predicate InitFits(c: CInit) {
    c.CInit? ==> SimpleFits(c.init)
  }

  /** The expressions fit, and every `else` follows a branch that is not open. */
  predicate StmtFits(c: CStmt)
    decreases c, 1
  {
    match c
    case CDo(simple) => SimpleFits(simple)
    case CIf(cond, thn, els) =>
      Fits(cond, PREC_TEMP) && BodyFits(thn) && ElseFits(els) && (els.CElse? ==> !OpenBody(thn))
    case CWhile(cond, body) => Fits(cond, PREC_TEMP) && BodyFits(body)
    case CFor(init, cond, inc, body) => InitFits(init) && Fits(cond, PREC_TEMP) && SimpleFits(inc) && BodyFits(body)
    case CReturn(e) => Fits(e, PREC_TEMP)
    case CBreak => true
  }

  predicate ElseFits(c: CElse)
    decreases c, 0
  {
    c.CElse? ==> BodyFits(c.body)
  }

  predicate BodyFits(c: CBody)
    decreases c, 0
  {
    match c
    case CBlock(ss) => AllFit(ss)
    case CSingle(s) => StmtFits(s)
  }

  predicate AllFit(ss: seq<CStmt>)
    decreases ss, 0
  {
    ss == [] || (StmtFits(ss[0]) && AllFit(ss[1..]))
  }

  predicate ProgramFits(fs: seq<CFunction>) {
    forall f | f in fs :: AllFit(f.body)
  }

  // ---- how texts begin ----

  lemma {:induction false} ExprBegins(c: Cst)
    ensures Flatten(c) != []
    ensures var t := Flatten(c)[0]; t.IDENTIFIER? || t.NUMBER? || t.MINUS? || t.LPAREN?
    decreases c
  {
    match c
    case CVar(_) =>
    case CNum(_, _) =>
    case CNeg(_) =>
    case CBin(_, l, _) => ExprBegins(l);
    case CIndex(b, _) => ExprBegins(b);
    case CCall(f, _) => ExprBegins(f);
    case CGroup(_) =>
  }

  lemma SimpleBegins(c: CSimple)
    ensures SimpleText(c) != []
    ensures var t := SimpleText(c)[0]; t.IDENTIFIER? || t.NUMBER? || t.MINUS? || t.LPAREN?
  {
    hide Flatten;
    ExprBegins(if c.CAssign? then c.lhs else c.e);
  }

  lemma StmtBegins(c: CStmt)
    ensures StmtText(c) != []
    ensures var t := StmtText(c)[0]; !t.LCURLY? && !t.RCURLY? && !t.ELSE?
  {
    hide Flatten, SimpleText, BodyText, InitText, ElseText;
    if c.CDo? { SimpleBegins(c.simple); }
  }

  /** Tokens behind which no expression goes on. */
  lemma NoOperator(t: Token)
    requires t.SEMICOLON? || t.RPAREN? || t.ASSIGN? || t.PLUS_EQ? || t.MINUS_EQ? || t.MUL_EQ? || t.DIV_EQ?
    ensures Prec(t) < PREC_TEMP
  {
    hide Prec;
    PrecedenceInEffect(t);
  }

  // ---- every tree that fits is read ----

  lemma ExprReads(c: Cst, rest: Input)
    requires Fits(c, PREC_TEMP) && Prec(Head(rest)) < PREC_TEMP
    ensures ParseExpr(Flatten(c) + rest) == Some((Erase(c), rest))
  {
    hide Fits, Flatten, Erase, ParsePrec, Prec;
    ReadsAll(c, rest, PREC_TEMP);
  }

  lemma AssignTokenIs(aop: AssignOp)
    ensures AssignOpOf(AssignToken(aop)) == Some(aop)
  {
  }

  lemma SimpleReads(c: CSimple, rest: Input)
    requires SimpleFits(c) && (Head(rest).SEMICOLON? || Head(rest).RPAREN?)
    ensures ParseAssign(SimpleText(c) + rest) == Some((SimpleOf(c), rest))
  {
    hide Fits, Flatten, Erase, ParseExpr, Prec;
    NoOperator(Head(rest));
    match c
    case CAssign(aop, lhs, rhs) =>
      AssignTokenIs(aop);
      NoOperator(AssignToken(aop));
      var rest1 := [AssignToken(aop)] + (Flatten(rhs) + rest);
      assert SimpleText(c) + rest == Flatten(lhs) + rest1;
      ExprReads(lhs, rest1);
      assert rest1[1..] == Flatten(rhs) + rest;
      ExprReads(rhs, rest);
    case CEval(e) =>
      ExprReads(e, rest);
  }

  lemma CondReads(c: Cst, rest: Input)
    requires Fits(c, PREC_TEMP)
    ensures ParseCond(CondText(c) + rest) == Some((Erase(c), rest))
  {
    hide Fits, Flatten, Erase, ParseExpr, Prec;
    NoOperator(RPAREN);
    var rest1 := [RPAREN] + rest;
    assert CondText(c) + rest == [LPAREN] + (Flatten(c) + rest1);
    assert (CondText(c) + rest)[1..] == Flatten(c) + rest1;
    ExprReads(c, rest1);
    assert rest1[1..] == rest;
  }

  lemma ForInitReads(c: CInit, rest: Input)
    requires InitFits(c)
    ensures ParseForInit([LPAREN] + InitText(c) + [SEMICOLON] + rest) == Some((InitOf(c), rest))
  {
    hide SimpleFits, SimpleText, SimpleOf, ParseAssign;
    var ts := [LPAREN] + InitText(c) + [SEMICOLON] + rest;
    var rest1 := [SEMICOLON] + rest;
    assert rest1[1..] == rest;
    assert ts == [LPAREN] + (InitText(c) + rest1) && ts[1..] == InitText(c) + rest1;
    if c.CInit? {
      SimpleBegins(c.init);
      assert ts[1..][0] == SimpleText(c.init)[0];
      SimpleReads(c.init, rest1);
    }
  }

  lemma ForRestReads(cond: Cst, inc: CSimple, rest: Input)
    requires Fits(cond, PREC_TEMP) && SimpleFits(inc)
    ensures ParseForRest(Flatten(cond) + [SEMICOLON] + SimpleText(inc) + [RPAREN] + rest)
         == Some((Erase(cond), SimpleOf(inc), rest))
  {
    hide Fits, SimpleFits, SimpleText, SimpleOf, ParseAssign, ParseExpr, Flatten, Erase, Prec;
    NoOperator(SEMICOLON);
    var rest2 := [RPAREN] + rest;
    var rest1 := [SEMICOLON] + (SimpleText(inc) + rest2);
    assert Flatten(cond) + [SEMICOLON] + SimpleText(inc) + [RPAREN] + rest == Flatten(cond) + rest1;
    ExprReads(cond, rest1);
    assert rest1[1..] == SimpleText(inc) + rest2;
    SimpleReads(inc, rest2);
    assert rest2[1..] == rest;
  }

  lemma {:induction false} StmtReads(c: CStmt, rest: Input)
    requires StmtFits(c) && (Open(c) ==> !Head(rest).ELSE?)
    ensures ParseStmt(StmtText(c) + rest) == Some((StmtOf(c), rest))
    decreases c, 1
  {
    hide Fits, Flatten, Erase, SimpleFits, SimpleText, SimpleOf, InitText, InitOf, InitFits, CondText, BodyText, BodyOf,
      BodyFits, ParseBody, ParseCond, ParseForInit, ParseForRest, ParseExpr, ParseAssign, ElseText, ElseOf, ElseFits,
      OpenBody, Prec;
    match c
    case CDo(simple) =>
      SimpleBegins(simple);
      var rest1 := [SEMICOLON] + rest;
      assert StmtText(c) + rest == SimpleText(simple) + rest1;
      assert (StmtText(c) + rest)[0] == SimpleText(simple)[0];
      SimpleReads(simple, rest1);
      assert rest1[1..] == rest;
    case CIf(_, _, _) => IfReads(c, rest);
    case CWhile(cond, body) =>
      var rest1 := BodyText(body) + rest;
      assert StmtText(c) + rest == [WHILE] + (CondText(cond) + rest1);
      assert (StmtText(c) + rest)[1..] == CondText(cond) + rest1;
      CondReads(cond, rest1);
      BodyReads(body, rest);
    case CFor(_, _, _, _) => ForReads(c, rest);
    case CReturn(e) =>
      var rest1 := [SEMICOLON] + rest;
      assert (StmtText(c) + rest)[1..] == Flatten(e) + rest1;
      NoOperator(SEMICOLON);
      ExprReads(e, rest1);
      assert rest1[1..] == rest;
    case CBreak =>
      assert (StmtText(c) + rest)[1..] == [SEMICOLON] + rest;
      assert ([SEMICOLON] + rest)[1..] == rest;
  }

  lemma {:induction false} IfReads(c: CStmt, rest: Input)
    requires c.CIf? && StmtFits(c) && (Open(c) ==> !Head(rest).ELSE?)
    ensures ParseStmt(StmtText(c) + rest) == Some((StmtOf(c), rest))
    decreases c, 0
  {
    hide Fits, Flatten, Erase, CondText, BodyText, BodyOf, BodyFits, ParseBody, ParseCond, OpenBody;
    var rest2 := ElseText(c.els) + rest;
    var rest1 := BodyText(c.thn) + rest2;
    var ts := StmtText(c) + rest;
    assert ts == [IF] + (CondText(c.cond) + rest1);
    assert ts[1..] == CondText(c.cond) + rest1;
    CondReads(c.cond, rest1);
    BodyReads(c.thn, rest2);
    if c.els.CElse? {
      assert rest2 == [ELSE] + (BodyText(c.els.body) + rest);
      assert rest2[1..] == BodyText(c.els.body) + rest;
      BodyReads(c.els.body, rest);
    } else {
      assert rest2 == rest;
    }
  }

  lemma {:induction false} ForReads(c: CStmt, rest: Input)
    requires c.CFor? && StmtFits(c) && (Open(c) ==> !Head(rest).ELSE?)
    ensures ParseStmt(StmtText(c) + rest) == Some((StmtOf(c), rest))
    decreases c, 0
  {
    hide Fits, Flatten, Erase, SimpleText, SimpleOf, SimpleFits, InitText, InitOf, InitFits, BodyText, BodyOf, BodyFits,
      ParseBody, ParseForInit, ParseForRest, OpenBody;
    var rest2 := BodyText(c.body) + rest;
    var rest1 := Flatten(c.cond) + [SEMICOLON] + SimpleText(c.inc) + [RPAREN] + rest2;
    var ts := StmtText(c) + rest;
    assert ts == [FOR] + ([LPAREN] + InitText(c.init) + [SEMICOLON] + rest1);
    assert ts[1..] == [LPAREN] + InitText(c.init) + [SEMICOLON] + rest1;
    ForInitReads(c.init, rest1);
    ForRestReads(c.cond, c.inc, rest2);
    BodyReads(c.body, rest);
  }

  lemma {:induction false} BodyReads(c: CBody, rest: Input)
    requires BodyFits(c) && (OpenBody(c) ==> !Head(rest).ELSE?)
    ensures ParseBody(BodyText(c) + rest) == Some((BodyOf(c), rest))
    decreases c, 1
  {
    hide StmtText, StmtOf, StmtFits, Open, ParseStmt, BlockText, StmtsOf, AllFit, ParseBlock;
    match c
    case CBlock(ss) =>
      assert (BodyText(c) + rest)[1..] == BlockText(ss) + rest;
      BlockReads(ss, rest);
    case CSingle(s) =>
      StmtBegins(s);
      assert (StmtText(s) + rest)[0] == StmtText(s)[0];
      StmtReads(s, rest);
  }

  lemma {:induction false} BlockReads(ss: seq<CStmt>, rest: Input)
    requires AllFit(ss)
    ensures ParseBlock(BlockText(ss) + rest) == Some((StmtsOf(ss), rest))
    decreases ss, 0
  {
    hide StmtText, StmtOf, StmtFits, ParseStmt, Open;
    if ss == [] {
      assert ([RCURLY] + rest)[1..] == rest;
    } else {
      var rest1 := BlockText(ss[1..]) + rest;
      assert BlockText(ss) + rest == StmtText(ss[0]) + rest1;
      StmtBegins(ss[0]);
      assert (StmtText(ss[0]) + rest1)[0] == StmtText(ss[0])[0];
      BlockBegins(ss[1..], rest);
      StmtReads(ss[0], rest1);
      BlockReads(ss[1..], rest);
    }
  }

  lemma BlockBegins(ss: seq<CStmt>, rest: Input)
    ensures !Head(BlockText(ss) + rest).ELSE?
  {
    hide StmtText;
    if ss != [] {
      StmtBegins(ss[0]);
      assert (BlockText(ss) + rest)[0] == StmtText(ss[0])[0];
    }
  }

  lemma {:induction false} NamesRead(names: seq<string>, rest: Input)
    requires names != []
    ensures ParseNames(NamesText(names) + rest) == Some((names, rest))
    decreases |names|
  {
    var ts := NamesText(names) + rest;
    if |names| == 1 {
      assert ts == [IDENTIFIER(names[0]), RPAREN] + rest && ts[2..] == rest;
      assert names == [names[0]];
    } else {
      var rest1 := NamesText(names[1..]) + rest;
      assert ts == [IDENTIFIER(names[0]), COMMA] + rest1 && ts[2..] == rest1;
      NamesRead(names[1..], rest);
      assert [names[0]] + names[1..] == names;
    }
  }

  /** One function, behind `fn`. */
  lemma FunctionReads(f: CFunction, rest: Input)
    requires AllFit(f.body)
    ensures FunctionText(f)[0] == FN && ParseFunction(FunctionText(f)[1..] + rest) == Some((FunctionOf(f), rest))
  {
    hide BlockText, StmtsOf, AllFit, ParseBlock, NamesText, ParseNames;
    var rest2 := [LCURLY] + (BlockText(f.body) + rest);
    var rest1 := NamesText(f.params) + rest2;
    var ts := FunctionText(f)[1..] + rest;
    assert ts == [IDENTIFIER(f.name)] + ([LPAREN] + rest1);
    assert ts[1..] == [LPAREN] + rest1 && ts[1..][1..] == rest1;
    ParamsRead(f.params, rest2);
    assert rest2[1..] == BlockText(f.body) + rest;
    BlockReads(f.body, rest);
  }

  lemma ParamsRead(names: seq<string>, rest: Input)
    ensures ParseParams(NamesText(names) + rest) == Some((names, rest))
  {
    if names == [] {
      assert ([RPAREN] + rest)[1..] == rest;
    } else {
      NamesRead(names, rest);
    }
  }

  lemma {:induction false} ProgramReads(fs: seq<CFunction>)
    requires ProgramFits(fs)
    ensures ParseProgram(ProgramText(fs)) == Some(ProgramOf(fs))
    decreases |fs|
  {
    hide FunctionText, FunctionOf, ParseFunction, AllFit;
    if fs != [] {
      var ts := ProgramText(fs);
      FunctionReads(fs[0], ProgramText(fs[1..]));
      FunctionNotEmpty(fs[0]);
      assert ts == FunctionText(fs[0]) + ProgramText(fs[1..]);
      assert ts[1..] == FunctionText(fs[0])[1..] + ProgramText(fs[1..]);
      ProgramReads(fs[1..]);
    }
  }

  lemma FunctionNotEmpty(f: CFunction)
    ensures FunctionText(f) != []
  {
  }

  // ---- everything that is read is a tree that fits ----

  lemma {:induction false} ExprAccepted(ts: Input) returns (c: Cst)
    requires ParseExpr(ts).Some?
    ensures var (e, rest) := ParseExpr(ts).value;
            Fits(c, PREC_TEMP) && Erase(c) == e && ts == Flatten(c) + rest
  {
    hide Fits, Flatten, Erase, ParsePrec, Prec;
    c := Accepted(ts, PREC_TEMP);
  }

  lemma SimpleAccepted(ts: Input) returns (c: CSimple)
    requires ParseAssign(ts).Some?
    ensures var (s, rest) := ParseAssign(ts).value; SimpleFits(c) && SimpleOf(c) == s && ts == SimpleText(c) + rest
  {
    hide Fits, Flatten, Erase, ParseExpr;
    var lhs := ExprAccepted(ts);
    var rest := ParseExpr(ts).value.1;
    match AssignOpOf(Head(rest))
    case None => c := CEval(lhs);
    case Some(aop) =>
      var rhs := ExprAccepted(rest[1..]);
      c := CAssign(aop, lhs, rhs);
      assert rest == [AssignToken(aop)] + rest[1..];
      assert ts == Flatten(lhs) + [AssignToken(aop)] + Flatten(rhs) + ParseExpr(rest[1..]).value.1;
  }

  lemma Expected(ts: Input, t: Token)
    requires Expect(ts, t).Some?
    ensures ts == [t] + Expect(ts, t).value
  {
  }

  lemma CondAccepted(ts: Input) returns (c: Cst)
    requires ParseCond(ts).Some?
    ensures var (e, rest) := ParseCond(ts).value; Fits(c, PREC_TEMP) && Erase(c) == e && ts == CondText(c) + rest
  {
    hide Fits, Flatten, Erase, ParseExpr, Expect;
    Expected(ts, LPAREN);
    var ts1 := Expect(ts, LPAREN).value;
    c := ExprAccepted(ts1);
    var ts2 := ParseExpr(ts1).value.1;
    Expected(ts2, RPAREN);
  }

  lemma ForInitAccepted(ts: Input) returns (c: CInit)
    requires ParseForInit(ts).Some?
    ensures var (i, rest) := ParseForInit(ts).value;
            InitFits(c) && InitOf(c) == i && ts == [LPAREN] + InitText(c) + [SEMICOLON] + rest
  {
    hide SimpleFits, SimpleText, SimpleOf, ParseAssign, Expect;
    Expected(ts, LPAREN);
    var ts1 := Expect(ts, LPAREN).value;
    if Head(ts1).SEMICOLON? {
      c := CNoInit;
      assert ts1 == [SEMICOLON] + ts1[1..];
    } else {
      var init := SimpleAccepted(ts1);
      c := CInit(init);
      Expected(ParseAssign(ts1).value.1, SEMICOLON);
    }
  }

  lemma ForRestAccepted(ts: Input) returns (cond: Cst, inc: CSimple)
    requires ParseForRest(ts).Some?
    ensures var (e, s, rest) := ParseForRest(ts).value;
            && Fits(cond, PREC_TEMP) && SimpleFits(inc) && Erase(cond) == e && SimpleOf(inc) == s
            && ts == Flatten(cond) + [SEMICOLON] + SimpleText(inc) + [RPAREN] + rest
  {
    hide Fits, Flatten, Erase, SimpleFits, SimpleText, SimpleOf, ParseAssign, ParseExpr, Expect;
    cond := ExprAccepted(ts);
    var ts1 := ParseExpr(ts).value.1;
    Expected(ts1, SEMICOLON);
    var ts2 := Expect(ts1, SEMICOLON).value;
    inc := SimpleAccepted(ts2);
    var ts3 := ParseAssign(ts2).value.1;
    Expected(ts3, RPAREN);
    var rest := Expect(ts3, RPAREN).value;
    assert ts == Flatten(cond) + [SEMICOLON] + SimpleText(inc) + [RPAREN] + rest;
  }

  /** `s` is read from `ts` up to `rest` as the tree `c` says. */
  ghost predicate StmtRead(ts: Input, s: Stmt, rest: Input, c: CStmt) {
    StmtFits(c) && StmtOf(c) == s && ts == StmtText(c) + rest && (Open(c) ==> !Head(rest).ELSE?)
  }

  ghost predicate BodyRead(ts: Input, b: Body, rest: Input, c: CBody) {
    BodyFits(c) && BodyOf(c) == b && ts == BodyText(c) + rest && (OpenBody(c) ==> !Head(rest).ELSE?)
  }

  lemma {:induction false} StmtAccepted(ts: Input) returns (c: CStmt)
    requires ParseStmt(ts).Some?
    ensures var (s, rest) := ParseStmt(ts).value; StmtRead(ts, s, rest, c)
    decreases |ts|, 1
  {
    hide ParseStmt, StmtRead;
    match Head(ts)
    case IF => c := IfAccepted(ts);
    case FOR => c := ForAccepted(ts);
    case WHILE => c := WhileAccepted(ts);
    case RETURN => c := ReturnAccepted(ts);
    case BREAK => c := BreakAccepted(ts);
    case _ => c := DoAccepted(ts);
  }

  lemma BreakAccepted(ts: Input) returns (c: CStmt)
    requires Head(ts).BREAK? && ParseStmt(ts).Some?
    ensures var (s, rest) := ParseStmt(ts).value; StmtRead(ts, s, rest, c)
  {
    hide Expect;
    Expected(ts[1..], SEMICOLON);
    c := CBreak;
    assert ts == [BREAK] + ts[1..];
    assert ts == [BREAK, SEMICOLON] + Expect(ts[1..], SEMICOLON).value;
  }

  lemma DoAccepted(ts: Input) returns (c: CStmt)
    requires var t := Head(ts); !t.IF? && !t.FOR? && !t.WHILE? && !t.RETURN? && !t.BREAK?
    requires ParseStmt(ts).Some?
    ensures var (s, rest) := ParseStmt(ts).value; StmtRead(ts, s, rest, c)
  {
    hide Fits, Flatten, Erase, SimpleFits, SimpleText, SimpleOf, ParseAssign, Expect;
    var simple := SimpleAccepted(ts);
    var ts1 := ParseAssign(ts).value.1;
    Expected(ts1, SEMICOLON);
    c := CDo(simple);
    assert ts == SimpleText(simple) + [SEMICOLON] + Expect(ts1, SEMICOLON).value;
  }

  lemma {:induction false} IfAccepted(ts: Input) returns (c: CStmt)
    requires Head(ts).IF? && ParseStmt(ts).Some?
    ensures var (s, rest) := ParseStmt(ts).value; StmtRead(ts, s, rest, c)
    decreases |ts|, 0
  {
    hide Fits, Flatten, Erase, CondText, BodyText, BodyOf, BodyFits, ParseBody, ParseCond, OpenBody;
    var cond := CondAccepted(ts[1..]);
    var ts1 := ParseCond(ts[1..]).value.1;
    var thn := BodyAccepted(ts1);
    var ts2 := ParseBody(ts1).value.1;
    assert ts == [IF] + ts[1..];
    if Head(ts2).ELSE? {
      var els := BodyAccepted(ts2[1..]);
      c := CIf(cond, thn, CElse(els));
      assert ElseText(c.els) == [ELSE] + BodyText(els) && ElseOf(c.els) == Else(BodyOf(els)) && ElseFits(c.els);
      assert ts2 == [ELSE] + ts2[1..];
      var rest := ParseBody(ts2[1..]).value.1;
      assert ts == [IF] + CondText(cond) + BodyText(thn) + ([ELSE] + BodyText(els)) + rest;
    } else {
      c := CIf(cond, thn, CNoElse);
      assert ElseText(c.els) == [] && ElseOf(c.els) == NoElse && ElseFits(c.els);
      assert ts == [IF] + CondText(cond) + BodyText(thn) + [] + ts2;
    }
  }

  lemma {:induction false} WhileAccepted(ts: Input) returns (c: CStmt)
    requires Head(ts).WHILE? && ParseStmt(ts).Some?
    ensures var (s, rest) := ParseStmt(ts).value; StmtRead(ts, s, rest, c)
    decreases |ts|, 0
  {
    hide Fits, Flatten, Erase, CondText, BodyText, BodyOf, BodyFits, ParseBody, ParseCond, OpenBody;
    var cond := CondAccepted(ts[1..]);
    var ts1 := ParseCond(ts[1..]).value.1;
    var body := BodyAccepted(ts1);
    c := CWhile(cond, body);
    assert ts == [WHILE] + ts[1..];
    assert ts == [WHILE] + CondText(cond) + BodyText(body) + ParseBody(ts1).value.1;
  }

  lemma ReturnAccepted(ts: Input) returns (c: CStmt)
    requires Head(ts).RETURN? && ParseStmt(ts).Some?
    ensures var (s, rest) := ParseStmt(ts).value; StmtRead(ts, s, rest, c)
  {
    hide Fits, Flatten, Erase, ParseExpr, Expect;
    var e := ExprAccepted(ts[1..]);
    var ts1 := ParseExpr(ts[1..]).value.1;
    Expected(ts1, SEMICOLON);
    c := CReturn(e);
    assert ts == [RETURN] + ts[1..];
    assert ts == [RETURN] + Flatten(e) + [SEMICOLON] + Expect(ts1, SEMICOLON).value;
  }

  lemma {:induction false} ForAccepted(ts: Input) returns (c: CStmt)
    requires Head(ts).FOR? && ParseStmt(ts).Some?
    ensures var (s, rest) := ParseStmt(ts).value; StmtRead(ts, s, rest, c)
    decreases |ts|, 0
  {
    hide Fits, Flatten, Erase, SimpleText, SimpleOf, SimpleFits, InitText, InitOf, InitFits, BodyText, BodyOf, BodyFits,
      ParseBody, ParseForInit, ParseForRest, OpenBody;
    var init := ForInitAccepted(ts[1..]);
    var ts1 := ParseForInit(ts[1..]).value.1;
    var cond, inc := ForRestAccepted(ts1);
    var ts2 := ParseForRest(ts1).value.2;
    var body := BodyAccepted(ts2);
    var rest := ParseBody(ts2).value.1;
    c := CFor(init, cond, inc, body);
    assert ts == [FOR] + ts[1..];
    assert ts == [FOR, LPAREN] + InitText(init) + [SEMICOLON] + Flatten(cond) + [SEMICOLON] + SimpleText(inc) + [RPAREN]
                 + BodyText(body) + rest;
  }

  lemma {:induction false} BodyAccepted(ts: Input) returns (c: CBody)
    requires ParseBody(ts).Some?
    ensures var (b, rest) := ParseBody(ts).value; BodyRead(ts, b, rest, c)
    decreases |ts|, 2
  {
    hide StmtText, StmtOf, StmtFits, Open, ParseStmt, BlockText, StmtsOf, AllFit, ParseBlock;
    if Head(ts).LCURLY? {
      var ss := BlockAccepted(ts[1..]);
      c := CBlock(ss);
      assert ts == [LCURLY] + ts[1..];
      assert ts == [LCURLY] + BlockText(ss) + ParseBlock(ts[1..]).value.1;
    } else {
      var s := StmtAccepted(ts);
      c := CSingle(s);
    }
  }

  lemma {:induction false} BlockAccepted(ts: Input) returns (ss: seq<CStmt>)
    requires ParseBlock(ts).Some?
    ensures var (r, rest) := ParseBlock(ts).value; AllFit(ss) && StmtsOf(ss) == r && ts == BlockText(ss) + rest
    decreases |ts|, 2
  {
    hide StmtText, StmtOf, StmtFits, ParseStmt, Open;
    if ts[0].RCURLY? {
      ss := [];
      assert ts == [RCURLY] + ts[1..];
    } else {
      var s := StmtAccepted(ts);
      var ts1 := ParseStmt(ts).value.1;
      var more := BlockAccepted(ts1);
      ss := [s] + more;
      assert ss[1..] == more;
      assert ts == StmtText(s) + BlockText(more) + ParseBlock(ts1).value.1;
    }
  }

  lemma {:induction false} NamesAccepted(ts: Input)
    requires ParseNames(ts).Some?
    ensures var (names, rest) := ParseNames(ts).value; names != [] && ts == NamesText(names) + rest
    decreases |ts|
  {
    assert ts == [ts[0]] + ts[1..];
    if Head(ts[1..]).RPAREN? {
      assert ts == [ts[0], RPAREN] + ts[2..];
    } else {
      NamesAccepted(ts[2..]);
      var (names, rest) := ParseNames(ts[2..]).value;
      assert ([ts[0].name] + names)[1..] == names;
      assert ts == [ts[0], COMMA] + ts[2..];
      assert ts == [ts[0]] + ([COMMA] + NamesText(names)) + rest;
    }
  }

  lemma ParamsAccepted(ts: Input)
    requires ParseParams(ts).Some?
    ensures var (names, rest) := ParseParams(ts).value; ts == NamesText(names) + rest
  {
    hide ParseNames;
    if Head(ts).RPAREN? {
      assert ts == [RPAREN] + ts[1..];
    } else {
      NamesAccepted(ts);
    }
  }

  lemma FunctionAccepted(ts: Input) returns (f: CFunction)
    requires ParseFunction(ts).Some?
    ensures var (g, rest) := ParseFunction(ts).value;
            AllFit(f.body) && FunctionOf(f) == g && [FN] + ts == FunctionText(f) + rest
  {
    hide BlockText, StmtsOf, AllFit, ParseBlock, NamesText, ParseParams, Expect;
    var name := ts[0].name;
    Expected(ts[1..], LPAREN);
    var ts1 := Expect(ts[1..], LPAREN).value;
    ParamsAccepted(ts1);
    var (params, ts2) := ParseParams(ts1).value;
    Expected(ts2, LCURLY);
    var ts3 := Expect(ts2, LCURLY).value;
    var body := BlockAccepted(ts3);
    f := CFunction(name, params, body);
    assert ts == [IDENTIFIER(name)] + ts[1..];
    assert [FN] + ts == [FN, IDENTIFIER(name), LPAREN] + NamesText(params) + [LCURLY] + BlockText(body)
                        + ParseBlock(ts3).value.1;
  }

  lemma {:induction false} ProgramAccepted(ts: Input) returns (fs: seq<CFunction>)
    requires ParseProgram(ts).Some?
    ensures ProgramFits(fs) && ProgramOf(fs) == ParseProgram(ts).value && ts == ProgramText(fs)
    decreases |ts|
  {
    hide FunctionText, FunctionOf, ParseFunction, AllFit;
    if ts == [] {
      fs := [];
    } else {
      var f := FunctionAccepted(ts[1..]);
      var ts1 := ParseFunction(ts[1..]).value.1;
      var more := ProgramAccepted(ts1);
      fs := [f] + more;
      assert fs[1..] == more;
      assert ts == [FN] + ts[1..];
    }
  }

  // ---- the theorems ----

  /** The statement parser is the grammar: it reads `s` and stops at `rest` exactly when
      the tokens before `rest` are the text of a tree for `s`, in which every `else`
      belongs to the nearest conditional. */
  lemma StatementIsGrammar(ts: Input, s: Stmt, rest: Input)
    ensures ParseStmt(ts) == Some((s, rest)) <==> exists c :: StmtRead(ts, s, rest, c)
  {
    hide StmtFits, StmtOf, StmtText, Open, ParseStmt;
    if ParseStmt(ts) == Some((s, rest)) {
      var c := StmtAccepted(ts);
    }
    forall c | StmtRead(ts, s, rest, c) ensures ParseStmt(ts) == Some((s, rest)) {
      StmtReads(c, rest);
    }
  }

  ghost predicate ProgramRead(ts: Input, src: Source, fs: seq<CFunction>) {
    ProgramFits(fs) && ProgramOf(fs) == src && ts == ProgramText(fs)
  }

  /** A text is accepted as the program `src` exactly when it is the text of trees for it. */
  lemma ProgramIsGrammar(ts: Input, src: Source)
    ensures ParseProgram(ts) == Some(src) <==> exists fs :: ProgramRead(ts, src, fs)
  {
    hide ProgramFits, ProgramOf, ProgramText, ParseProgram;
    if ParseProgram(ts) == Some(src) {
      var fs := ProgramAccepted(ts);
      assert ProgramRead(ts, src, fs);
    }
    forall fs | ProgramRead(ts, src, fs) ensures ParseProgram(ts) == Some(src) {
      ProgramReads(fs);
    }
  }

  // ---- printing ----

  function PrintSimple(s: Simple): CSimple {
    match s
    case Assign(aop, lhs, rhs) => CAssign(aop, Print(lhs, PREC_TEMP), Print(rhs, PREC_TEMP))
    case Eval(e) => CEval(Print(e, PREC_TEMP))
  }

  function PrintInit(i: Init): CInit {
    if i.NoInit? then CNoInit else CInit(PrintSimple(i.init))
  }

  function PrintStmt(s: Stmt): CStmt
    decreases s, 1
  {
    match s
    case Do(simple) => CDo(PrintSimple(simple))
    case If(cond, thn, els) => CIf(Print(cond, PREC_TEMP), PrintBody(thn), PrintElse(els))
    case While(cond, body) => CWhile(Print(cond, PREC_TEMP), PrintBody(body))
    case For(init, cond, inc, body) =>
      CFor(PrintInit(init), Print(cond, PREC_TEMP), PrintSimple(inc), PrintBody(body))
    case Return(e) => CReturn(Print(e, PREC_TEMP))
    case Break => CBreak
  }

  function PrintElse(e: Else): CElse
    decreases e, 0
  {
    if e.NoElse? then CNoElse else CElse(PrintBody(e.body))
  }

  function PrintBody(b: Body): CBody
    decreases b, 0
  {
    match b
    case Block(ss) => CBlock(PrintStmts(ss))
    case Single(s) => CSingle(PrintStmt(s))
  }

  function PrintStmts(ss: seq<Stmt>): seq<CStmt>
    decreases ss, 0
  {
    if ss == [] then [] else [PrintStmt(ss[0])] + PrintStmts(ss[1..])
  }

  function PrintProgram(src: Source): seq<CFunction> {
    if src == [] then []
    else [CFunction(src[0].name, src[0].params, PrintStmts(src[0].body))] + PrintProgram(src[1..])
  }

  /** The statement ends in a conditional without `else`. */
  predicate Dangling(s: Stmt)
    decreases s, 1
  {
    match s
    case If(_, _, els) => if els.NoElse? then true else DanglingBody(els.body)
    case While(_, body) => DanglingBody(body)
    case For(_, _, _, body) => DanglingBody(body)
    case _ => false
  }

  predicate DanglingBody(b: Body)
    decreases b, 0
  {
    b.Single? && Dangling(b.stmt)
  }

  /** No `else` stands behind such a branch: the texts of the language cannot say that. */
  predicate Matched(s: Stmt)
    decreases s, 1
  {
    match s
    case If(_, thn, els) =>
      MatchedBody(thn) && (els.Else? ==> MatchedBody(els.body) && !DanglingBody(thn))
    case While(_, body) => MatchedBody(body)
    case For(_, _, _, body) => MatchedBody(body)
    case _ => true
  }

  predicate MatchedBody(b: Body)
    decreases b, 0
  {
    match b
    case Block(ss) => AllMatched(ss)
    case Single(s) => Matched(s)
  }

  predicate AllMatched(ss: seq<Stmt>)
    decreases ss, 0
  {
    ss == [] || (Matched(ss[0]) && AllMatched(ss[1..]))
  }

  predicate ProgramMatched(src: Source) {
    forall f | f in src :: AllMatched(f.body)
  }

  lemma SimplePrints(s: Simple)
    ensures SimpleFits(PrintSimple(s)) && SimpleOf(PrintSimple(s)) == s
  {
    hide Print, Fits, Erase;
    match s
    case Assign(_, lhs, rhs) => PrintFits(lhs, PREC_TEMP); PrintFits(rhs, PREC_TEMP);
    case Eval(e) => PrintFits(e, PREC_TEMP);
  }

  lemma {:induction false} StmtPrints(s: Stmt)
    requires Matched(s)
    ensures StmtFits(PrintStmt(s)) && StmtOf(PrintStmt(s)) == s && Open(PrintStmt(s)) == Dangling(s)
    decreases s, 1
  {
    hide Print, Fits, Erase, SimpleFits, SimpleOf, PrintSimple;
    match s
    case Do(simple) => SimplePrints(simple);
    case If(cond, thn, els) =>
      PrintFits(cond, PREC_TEMP);
      BodyPrints(thn);
      if els.Else? { BodyPrints(els.body); }
      assert ElseFits(PrintElse(els)) && ElseOf(PrintElse(els)) == els;
    case While(cond, body) => PrintFits(cond, PREC_TEMP); BodyPrints(body);
    case For(init, cond, inc, body) =>
      if init.Init? { SimplePrints(init.init); }
      PrintFits(cond, PREC_TEMP);
      SimplePrints(inc);
      BodyPrints(body);
    case Return(e) => PrintFits(e, PREC_TEMP);
    case Break =>
  }

  lemma {:induction false} BodyPrints(b: Body)
    requires MatchedBody(b)
    ensures BodyFits(PrintBody(b)) && BodyOf(PrintBody(b)) == b && OpenBody(PrintBody(b)) == DanglingBody(b)
    decreases b, 0
  {
    hide StmtFits, StmtOf, Open, PrintStmt, Dangling, Matched;
    match b
    case Block(ss) => StmtsPrint(ss);
    case Single(s) => StmtPrints(s);
  }

  lemma {:induction false} StmtsPrint(ss: seq<Stmt>)
    requires AllMatched(ss)
    ensures AllFit(PrintStmts(ss)) && StmtsOf(PrintStmts(ss)) == ss
    decreases ss, 0
  {
    hide StmtFits, StmtOf, Open, PrintStmt, Dangling, Matched;
    if ss != [] {
      StmtPrints(ss[0]);
      StmtsPrint(ss[1..]);
      assert PrintStmts(ss)[1..] == PrintStmts(ss[1..]);
    }
  }

  lemma {:induction false} ProgramPrints(src: Source)
    requires ProgramMatched(src)
    ensures ProgramFits(PrintProgram(src)) && ProgramOf(PrintProgram(src)) == src
    decreases |src|
  {
    hide AllFit, StmtsOf, PrintStmts, AllMatched;
    if src != [] {
      StmtsPrint(src[0].body);
      ProgramPrints(src[1..]);
      assert PrintProgram(src)[1..] == PrintProgram(src[1..]);
      assert [src[0]] + src[1..] == src;
    }
  }

  /** Round trip: a statement is read back from its text, and what follows is left alone. */
  lemma StatementRoundTrip(s: Stmt, rest: Input)
    requires Matched(s) && (Dangling(s) ==> !Head(rest).ELSE?)
    ensures ParseStmt(StmtText(PrintStmt(s)) + rest) == Some((s, rest))
  {
    hide StmtFits, StmtOf, StmtText, Open, ParseStmt, PrintStmt, Matched, Dangling;
    StmtPrints(s);
    StmtReads(PrintStmt(s), rest);
  }

  lemma {:induction false} StmtFitsMatched(c: CStmt)
    requires StmtFits(c)
    ensures Matched(StmtOf(c)) && Dangling(StmtOf(c)) == Open(c)
    decreases c, 1
  {
    hide Fits, Erase, SimpleFits, SimpleOf;
    match c
    case CIf(_, thn, els) =>
      BodyFitsMatched(thn);
      if els.CElse? { BodyFitsMatched(els.body); }
    case CWhile(_, body) => BodyFitsMatched(body);
    case CFor(_, _, _, body) => BodyFitsMatched(body);
    case _ =>
  }

  lemma {:induction false} BodyFitsMatched(c: CBody)
    requires BodyFits(c)
    ensures MatchedBody(BodyOf(c)) && DanglingBody(BodyOf(c)) == OpenBody(c)
    decreases c, 0
  {
    hide StmtFits, StmtOf, Open, Matched, Dangling;
    match c
    case CBlock(ss) => AllFitMatched(ss);
    case CSingle(s) => StmtFitsMatched(s);
  }

  lemma {:induction false} AllFitMatched(ss: seq<CStmt>)
    requires AllFit(ss)
    ensures AllMatched(StmtsOf(ss))
    decreases ss, 0
  {
    hide StmtFits, StmtOf, Open, Matched, Dangling;
    if ss != [] {
      StmtFitsMatched(ss[0]);
      AllFitMatched(ss[1..]);
      assert StmtsOf(ss)[1..] == StmtsOf(ss[1..]);
    }
  }

  lemma {:induction false} ProgramFitsMatched(fs: seq<CFunction>)
    requires ProgramFits(fs)
    ensures ProgramMatched(ProgramOf(fs))
    decreases |fs|
  {
    hide AllFit, AllMatched, StmtsOf;
    if fs != [] {
      AllFitMatched(fs[0].body);
      ProgramFitsMatched(fs[1..]);
    }
  }

  /** Round trip for programs. A program has a text exactly when its conditionals are
      matched, and then it is read back from the text that is printed for it. */
  lemma ProgramRoundTrip(src: Source)
    ensures ProgramMatched(src) ==> ParseProgram(ProgramText(PrintProgram(src))) == Some(src)
    ensures ProgramMatched(src) <==> exists ts :: ParseProgram(ts) == Some(src)
  {
    hide ProgramFits, ProgramOf, ProgramText, ParseProgram, PrintProgram, ProgramMatched;
    if ProgramMatched(src) {
      ProgramPrints(src);
      ProgramReads(PrintProgram(src));
    }
    forall ts | ParseProgram(ts) == Some(src) ensures ProgramMatched(src) {
      var fs := ProgramAccepted(ts);
      ProgramFitsMatched(fs);
    }
  }
}
