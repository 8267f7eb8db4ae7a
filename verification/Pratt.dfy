/** The expression parser as a function on token lists (src/parser.cpp). `None` stands
    for an error, and for the constructs that are not part of this model: floats,
    strings, member access, `and`, `or` and function signatures in parentheses. */
module Pratt {
  import opened Values
  import opened Ast
  import opened Tokens

  type Input = seq<Token>

  /** The current token; the end of the input repeats itself. */
  function Head(ts: Input): Token { if ts == [] then EOF else ts[0] }

  function Tail(ts: Input): Input { if ts == [] then [] else ts[1..] }

  // ---- numbers ----

  function Digit(c: char): int { c as int - '0' as int }

  /** The value of a digit string. */
  function Decimal(text: string): int {
    if text == "" then 0 else 10 * Decimal(text[..|text| - 1]) + Digit(text[|text| - 1])
  }

  /** `pfn_number`, after `pfn_unary` has put a sign in front or not. */
  function NumberExpr(negative: bool, text: string): Option<Expr> {
    if '.' in text || text == "" then None
    else Some(IntLit(if negative then -Decimal(text) else Decimal(text)))
  }

  // ---- operators ----

  function OperatorOf(t: Token): Option<Operator> {
    match t
    case PLUS => Some(OAdd) case MINUS => Some(OSub) case STAR => Some(OMul)
    case SLASH => Some(ODiv) case PERCENT => Some(OMod)
    case EQUAL => Some(OEq) case NOT_EQUAL => Some(ONeq)
    case LESS => Some(OLs) case LESS_EQ => Some(OLe) case GREATER => Some(OGr) case GREATER_EQ => Some(OGe)
    case _ => None
  }

  // ---- the parser ----

  /** `parse_precedence`. */
  function ParsePrec(ts: Input, p: nat): (r: Option<(Expr, Input)>)
    ensures r.Some? ==> |r.value.1| < |ts|
    decreases |ts|, 2
  {
    var (lhs, rest) :- ParsePrefix(ts);
    ParseInfix(lhs, rest, p)
  }

  function ParsePrefix(ts: Input): (r: Option<(Expr, Input)>)
    ensures r.Some? ==> |r.value.1| < |ts|
    decreases |ts|, 1
  {
    if ts == [] then None
    else
      match RuleOf(ts[0]).prefix
      case PfnIdentifier => if ts[0].IDENTIFIER? then Some((Var(ts[0].name), ts[1..])) else None
      case PfnNumber =>
        if !ts[0].NUMBER? then None
        else
          var e :- NumberExpr(false, ts[0].text);
          Some((e, ts[1..]))
      case PfnUnary =>
        if Head(ts[1..]).NUMBER? then
          var e :- NumberExpr(true, ts[1].text);
          Some((e, ts[2..]))
        else
          var (e, rest) :- ParsePrec(ts[1..], PREC_UNARY);
          Some((Neg(e), rest))
      case PfnGrouping => ParseGroup(ts[1..])
      case _ => None
  }

  /** `pfn_grouping` behind the parenthesis: `()` and `(x, ...)` begin a signature. */
  function ParseGroup(ts: Input): (r: Option<(Expr, Input)>)
    ensures r.Some? ==> |r.value.1| < |ts|
    decreases |ts|, 3
  {
    if Head(ts).RPAREN? || (Head(ts).IDENTIFIER? && Head(Tail(ts)).COMMA?) then None
    else
      var (e, rest) :- ParsePrec(ts, PREC_TEMP);
      if Head(rest).RPAREN? then Some((e, rest[1..])) else None
  }

  /** The loop of `parse_precedence`. */
  function ParseInfix(lhs: Expr, ts: Input, p: nat): (r: Option<(Expr, Input)>)
    ensures r.Some? ==> |r.value.1| <= |ts|
    decreases |ts|, 0
  {
    if p > Prec(Head(ts)) then Some((lhs, ts))
    else if ts == [] then None
    else
      match RuleOf(ts[0]).infix
      case IfnBinary =>
        var (rhs, rest) :- ParsePrec(ts[1..], Prec(ts[0]) + 1);
        var op :- OperatorOf(ts[0]);
        ParseInfix(Bin(op, lhs, rhs), rest, p)
      case IfnArrayGet =>
        var (i, rest) :- ParsePrec(ts[1..], PREC_TEMP);
        if Head(rest).RBRACKET? then ParseInfix(Index(lhs, i), rest[1..], p) else None
      case IfnCall =>
        var (args, rest) :- ParseArgs(ts[1..]);
        ParseInfix(Call(lhs, args), rest, p)
      case _ => None
  }

  /** `parse_param_list` with an expression as its item. */
  function ParseArgs(ts: Input): (r: Option<(seq<Expr>, Input)>)
    ensures r.Some? ==> |r.value.1| < |ts|
    decreases |ts|, 4
  {
    if Head(ts).RPAREN? then Some(([], ts[1..])) else ParseItems(ts)
  }

  function ParseItems(ts: Input): (r: Option<(seq<Expr>, Input)>)
    ensures r.Some? ==> |r.value.1| < |ts| && r.value.0 != []
    decreases |ts|, 3
  {
    var (e, rest) :- ParsePrec(ts, PREC_TEMP);
    if Head(rest).RPAREN? then Some(([e], rest[1..]))
    else if Head(rest).COMMA? then
      var (es, rest1) :- ParseItems(rest[1..]);
      Some(([e] + es, rest1))
    else None
  }
}
