/** The statement parser as a function on token lists (src/parser.cpp). */
module Syntax {
  import opened Values
  import opened Ast
  import opened Tokens
  import opened Pratt

  function Expect(ts: Input, t: Token): (r: Option<Input>)
    ensures r.Some? ==> |r.value| < |ts|
  {
    if ts != [] && ts[0] == t then Some(ts[1..]) else None
  }

  function AssignOpOf(t: Token): Option<AssignOp> {
    match t
    case ASSIGN => Some(Set) case PLUS_EQ => Some(PlusEq) case MINUS_EQ => Some(MinusEq)
    case MUL_EQ => Some(MulEq) case DIV_EQ => Some(DivEq) case _ => None
  }

  function ParseExpr(ts: Input): (r: Option<(Expr, Input)>)
    ensures r.Some? ==> |r.value.1| < |ts|
  {
    ParsePrec(ts, PREC_TEMP)
  }

  /** `parse_assignment`. */
  function ParseAssign(ts: Input): (r: Option<(Simple, Input)>)
    ensures r.Some? ==> |r.value.1| < |ts|
  {
    var (lhs, rest) :- ParseExpr(ts);
    match AssignOpOf(Head(rest))
    case None => Some((Eval(lhs), rest))
    case Some(op) =>
      var (rhs, rest1) :- ParseExpr(Tail(rest));
      Some((Assign(op, lhs, rhs), rest1))
  }

  /** `( cond`, up to the closing parenthesis. */
  function ParseOpen(ts: Input): (r: Option<(Expr, Input)>)
    ensures r.Some? ==> |r.value.1| < |ts|
  {
    var ts1 :- Expect(ts, LPAREN);
    ParseExpr(ts1)
  }

  /** `( cond )`. */
  function ParseCond(ts: Input): (r: Option<(Expr, Input)>)
    ensures r.Some? ==> |r.value.1| < |ts|
  {
    var (c, ts2) :- ParseOpen(ts);
    var ts3 :- Expect(ts2, RPAREN);
    Some((c, ts3))
  }

  /** The part of `for` before its condition. */
  function ParseForInit(ts: Input): (r: Option<(Init, Input)>)
    ensures r.Some? ==> |r.value.1| < |ts|
  {
    var ts1 :- Expect(ts, LPAREN);
    if Head(ts1).SEMICOLON? then Some((NoInit, ts1[1..]))
    else
      var (init, ts2) :- ParseAssign(ts1);
      var ts3 :- Expect(ts2, SEMICOLON);
      Some((Init.Init(init), ts3))
  }

  /** `cond ; inc )`. */
  function ParseForRest(ts: Input): (r: Option<(Expr, Simple, Input)>)
    ensures r.Some? ==> |r.value.2| < |ts|
  {
    var (c, ts1) :- ParseExpr(ts);
    var ts2 :- Expect(ts1, SEMICOLON);
    var (inc, ts3) :- ParseAssign(ts2);
    var ts4 :- Expect(ts3, RPAREN);
    Some((c, inc, ts4))
  }

  /** `parse_statement`. */
  function ParseStmt(ts: Input): (r: Option<(Stmt, Input)>)
    ensures r.Some? ==> |r.value.1| < |ts|
    decreases |ts|, 0
  {
    match Head(ts)
    case IF =>
      var (c, ts1) :- ParseCond(ts[1..]);
      var (thn, ts2) :- ParseBody(ts1);
      if Head(ts2).ELSE? then
        var (els, ts3) :- ParseBody(ts2[1..]);
        Some((If(c, thn, Else(els)), ts3))
      else Some((If(c, thn, NoElse), ts2))
    case FOR =>
      var (init, ts1) :- ParseForInit(ts[1..]);
      var (c, inc, ts2) :- ParseForRest(ts1);
      var (body, ts3) :- ParseBody(ts2);
      Some((For(init, c, inc, body), ts3))
    case WHILE =>
      var (c, ts1) :- ParseCond(ts[1..]);
      var (body, ts2) :- ParseBody(ts1);
      Some((While(c, body), ts2))
    case RETURN =>
      var (e, ts1) :- ParseExpr(ts[1..]);
      var ts2 :- Expect(ts1, SEMICOLON);
      Some((Return(e), ts2))
    case BREAK =>
      var ts1 :- Expect(ts[1..], SEMICOLON);
      Some((Break, ts1))
    // the lexer never produces this token
    case CONTINUE => None
    case _ =>
      var (s, ts1) :- ParseAssign(ts);
      var ts2 :- Expect(ts1, SEMICOLON);
      Some((Do(s), ts2))
  }

  function ParseBody(ts: Input): (r: Option<(Body, Input)>)
    ensures r.Some? ==> |r.value.1| < |ts|
    decreases |ts|, 1
  {
    if Head(ts).LCURLY? then
      var (ss, rest) :- ParseBlock(ts[1..]);
      Some((Block(ss), rest))
    else
      var (s, rest) :- ParseStmt(ts);
      Some((Single(s), rest))
  }

  /** `parse_block`, behind the opening brace. */
  function ParseBlock(ts: Input): (r: Option<(seq<Stmt>, Input)>)
    ensures r.Some? ==> |r.value.1| < |ts|
    decreases |ts|, 1
  {
    if ts == [] then None
    else if ts[0].RCURLY? then Some(([], ts[1..]))
    else
      var (s, rest) :- ParseStmt(ts);
      var (ss, rest1) :- ParseBlock(rest);
      Some(([s] + ss, rest1))
  }

  /** `parse_fn_params`. */
  function ParseParams(ts: Input): (r: Option<(seq<string>, Input)>)
    ensures r.Some? ==> |r.value.1| < |ts|
  {
    if Head(ts).RPAREN? then Some(([], ts[1..])) else ParseNames(ts)
  }

  function ParseNames(ts: Input): (r: Option<(seq<string>, Input)>)
    ensures r.Some? ==> |r.value.1| < |ts|
    decreases |ts|
  {
    if !Head(ts).IDENTIFIER? then None
    else if Head(ts[1..]).RPAREN? then Some(([ts[0].name], ts[2..]))
    else if Head(ts[1..]).COMMA? then
      var (names, rest) :- ParseNames(ts[2..]);
      Some(([ts[0].name] + names, rest))
    else None
  }

  /** `name ( params ) {` */
  function ParseHeader(ts: Input): (r: Option<(string, seq<string>, Input)>)
    ensures r.Some? ==> |r.value.2| < |ts|
  {
    if !Head(ts).IDENTIFIER? then None
    else
      var ts1 :- Expect(ts[1..], LPAREN);
      var (params, ts2) :- ParseParams(ts1);
      var ts3 :- Expect(ts2, LCURLY);
      Some((ts[0].name, params, ts3))
  }

  /** `parse_function`. */
  function ParseFunction(ts: Input): (r: Option<(Function, Input)>)
    ensures r.Some? ==> |r.value.1| < |ts|
  {
    var (name, params, ts1) :- ParseHeader(ts);
    var (body, ts2) :- ParseBlock(ts1);
    Some((Function.Function(name, params, body), ts2))
  }

  /** `parse_program`. */
  function ParseProgram(ts: Input): Option<Source>
    decreases |ts|
  {
    if ts == [] then Some([])
    else if !ts[0].FN? then None
    else
      var (f, ts1) :- ParseFunction(ts[1..]);
      var fs :- ParseProgram(ts1);
      Some([f] + fs)
  }
}
