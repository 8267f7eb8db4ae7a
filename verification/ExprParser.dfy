/** The expression parser as it runs (src/parser.cpp): recursive functions that advance
    the current token, proved to compute the functions of `Pratt`. */
module ExprParser {
  import opened Values
  import opened Ast
  import opened Tokens
  import opened Pratt
  import opened Lexing

  /** What a parsing function did: nothing but an error, or `e` read and `rest` left. */
  ghost predicate Did(lx: Lexer, spec: Option<(Expr, Input)>, r: Option<Expr>)
    reads lx
  {
    lx.Valid() &&
    match spec
    case None => r.None?
    case Some((e, rest)) => r == Some(e) && lx.Ahead() == rest && lx.nxt.None?
  }

  lemma DecimalNone()
    ensures Decimal("") == 0
  {
  }

  lemma DecimalNext(text: string, i: nat)
    requires i < |text|
    ensures Decimal(text[..i + 1]) == 10 * Decimal(text[..i]) + Digit(text[i])
  {
    assert text[..i + 1][..i] == text[..i];
  }

  /** `pfn_number`. */
  method PfnNumber(lx: Lexer, negative: bool) returns (r: Option<Expr>)
    requires lx.Valid() && lx.nxt.None? && lx.cur.NUMBER?
    modifies lx
    ensures lx.Valid() && lx.nxt.None? && r == NumberExpr(negative, old(lx.cur).text)
    ensures r.Some? ==> lx.Ahead() == Tail(old(lx.Ahead()))
  {
    hide Decimal, Lexer.Ahead;
    var text := lx.cur.text;
    if '.' in text || text == "" { return None; }
    var mul := if negative then -1 else 1;
    var res := 0;
    DecimalNone();
    for i := 0 to |text|
      invariant res == if negative then -Decimal(text[..i]) else Decimal(text[..i])
      modifies {}
    {
      DecimalNext(text, i);
      res := res * 10;
      res := res + Digit(text[i]) * mul;
    }
    assert text[..|text|] == text;
    lx.GetTok();
    r := Some(IntLit(res));
  }

  /** `parse_precedence`: a prefix, then every operator that binds tightly enough. */
  method ParsePrecedence(lx: Lexer, p: nat) returns (r: Option<Expr>)
    requires lx.Valid() && PREC_TEMP <= p <= PREC_PRIMARY && (lx.nxt.Some? ==> lx.cur.IDENTIFIER?)
    modifies lx
    ensures Did(lx, ParsePrec(old(lx.Ahead()), p), r)
    decreases |lx.Ahead()|, 2
  {
    hide RuleOf, Prec, ParsePrefix, ParseInfix, OperatorOf;
    ghost var ts := lx.Ahead();
    r := ParsePrefixRule(lx);
    PrecUnfolds(ts, p);
    if r.None? { return; }
    var lhs := r.value;
    TextDoesNotMatter(lhs, lx.Ahead(), ParsePrefix(ts).value.1, p);
    while p <= Prec(lx.cur)
      invariant lx.Valid() && lx.nxt.None? && |lx.Ahead()| < |ts|
      invariant ParsePrec(ts, p) == ParseInfix(lhs, lx.Ahead(), p)
      decreases |lx.Ahead()|
    {
      InfixUnfolds(lhs, lx.Ahead(), p);
      r := ParseInfixRule(lx, lhs);
      if r.None? { return; }
      lhs := r.value;
    }
    InfixUnfolds(lhs, lx.Ahead(), p);
    r := Some(lhs);
  }

  lemma PrecUnfolds(ts: Input, p: nat)
    ensures ParsePrec(ts, p) ==
            match ParsePrefix(ts)
            case None => None
            case Some((lhs, rest)) => ParseInfix(lhs, rest, p)
  {
    hide ParsePrefix, ParseInfix;
  }

  /** One operator of the loop, as a function. */
  function InfixStep(lhs: Expr, ts: Input): (r: Option<(Expr, Input)>)
    ensures r.Some? ==> |r.value.1| < |ts|
  {
    if ts == [] then None
    else
      match RuleOf(ts[0]).infix
      case IfnBinary =>
        var (rhs, rest) :- ParsePrec(ts[1..], Prec(ts[0]) + 1);
        var op :- OperatorOf(ts[0]);
        Some((Bin(op, lhs, rhs), rest))
      case IfnArrayGet =>
        var (i, rest) :- ParsePrec(ts[1..], PREC_TEMP);
        if Head(rest).RBRACKET? then Some((Index(lhs, i), rest[1..])) else None
      case IfnCall =>
        var (args, rest) :- ParseArgs(ts[1..]);
        Some((Call(lhs, args), rest))
      case _ => None
  }

  lemma InfixUnfolds(lhs: Expr, ts: Input, p: nat)
    ensures ParseInfix(lhs, ts, p) ==
            if p > Prec(Head(ts)) then Some((lhs, ts))
            else
              match InfixStep(lhs, ts)
              case None => None
              case Some((e, rest)) => ParseInfix(e, rest, p)
  {
    hide RuleOf, Prec, ParsePrec, ParseArgs, OperatorOf;
  }

  /** The prefix function of the current token. */
  method ParsePrefixRule(lx: Lexer) returns (r: Option<Expr>)
    requires lx.Valid() && (lx.nxt.Some? ==> lx.cur.IDENTIFIER?)
    modifies lx
    ensures lx.Valid()
    ensures match ParsePrefix(old(lx.Ahead()))
            case None => r.None?
            case Some((e, rest)) => r == Some(e) && AlikeInput(lx.Ahead(), rest) && lx.nxt.None?
    decreases |lx.Ahead()|, 1
  {
    hide RuleOf, Prec, ParsePrec, ParseGroup, NumberExpr;
    ghost var ts := lx.Ahead();
    PrefixInEffect(lx.cur);
    match RuleOf(lx.cur).prefix
    case PfnIdentifier =>
      var name := lx.cur.name;
      lx.GetTok();
      r := Some(Var(name));
    case PfnNumber =>
      r := PfnNumber(lx, false);
    case PfnUnary =>
      lx.GetTok();
      if lx.cur.NUMBER? {
        r := PfnNumber(lx, true);
        assert Tail(Tail(ts)) == ts[2..];
      } else {
        r := ParsePrecedence(lx, PREC_UNARY);
        if r.Some? { r := Some(Neg(r.value)); }
      }
    case PfnGrouping =>
      lx.GetTok();
      r := PfnGrouping(lx);
    case _ => r := None;
  }

  /** `pfn_grouping` behind the parenthesis. */
  method PfnGrouping(lx: Lexer) returns (r: Option<Expr>)
    requires lx.Valid() && lx.nxt.None?
    modifies lx
    ensures Did(lx, ParseGroup(old(lx.Ahead())), r)
    decreases |lx.Ahead()|, 3
  {
    hide RuleOf, Prec, ParsePrec;
    ghost var ts := lx.Ahead();
    if lx.cur.RPAREN? { return None; }
    if lx.cur.IDENTIFIER? {
      lx.GetTok();
      if lx.cur.COMMA? { return None; }
      lx.RollBack();
      assert lx.Ahead() == ts;
    }
    r := ParsePrecedence(lx, PREC_TEMP);
    if r.None? { return; }
    if !lx.cur.RPAREN? { return None; }
    lx.GetTok();
  }

  /** The infix function of the current token. */
  method ParseInfixRule(lx: Lexer, lhs: Expr) returns (r: Option<Expr>)
    requires lx.Valid() && lx.nxt.None?
    modifies lx
    ensures Did(lx, InfixStep(lhs, old(lx.Ahead())), r)
    decreases |lx.Ahead()|, 1
  {
    hide RuleOf, Prec, ParsePrec, ParseArgs, OperatorOf;
    ghost var ts := lx.Ahead();
    InfixInEffect(lx.cur);
    PrecedenceInEffect(lx.cur);
    match RuleOf(lx.cur).infix
    case IfnBinary =>
      var op := lx.cur;
      lx.GetTok();
      var rhs := ParsePrecedence(lx, Prec(op) + 1);
      if rhs.None? || OperatorOf(op).None? { return None; }
      r := Some(Bin(OperatorOf(op).value, lhs, rhs.value));
    case IfnArrayGet =>
      lx.GetTok();
      var x := ParsePrecedence(lx, PREC_TEMP);
      if x.None? || !lx.cur.RBRACKET? { return None; }
      lx.GetTok();
      r := Some(Index(lhs, x.value));
    case IfnCall =>
      lx.GetTok();
      var args := ParseParamList(lx);
      if args.None? { return None; }
      r := Some(Call(lhs, args.value));
    case _ => r := None;
  }

  /** The items read so far, and those that are still to come. */
  function ItemsFrom(args: seq<Expr>, ts: Input): Option<(seq<Expr>, Input)> {
    var (es, rest) :- ParseItems(ts);
    Some((args + es, rest))
  }

  lemma ItemsStart(ts: Input)
    ensures ItemsFrom([], ts) == ParseItems(ts)
  {
    hide ParseItems;
    if ParseItems(ts).Some? { assert [] + ParseItems(ts).value.0 == ParseItems(ts).value.0; }
  }

  lemma ItemsUnfold(args: seq<Expr>, ts: Input)
    ensures ItemsFrom(args, ts) ==
            match ParsePrec(ts, PREC_TEMP)
            case None => None
            case Some((e, rest)) =>
              if Head(rest).RPAREN? then Some((args + [e], rest[1..]))
              else if Head(rest).COMMA? then ItemsFrom(args + [e], rest[1..])
              else None
  {
    hide ParsePrec;
    if ParsePrec(ts, PREC_TEMP).Some? {
      var (e, rest) := ParsePrec(ts, PREC_TEMP).value;
      if Head(rest).COMMA? && ParseItems(rest[1..]).Some? {
        var es := ParseItems(rest[1..]).value.0;
        assert args + ([e] + es) == (args + [e]) + es;
      }
    }
  }

  /** `parse_param_list` with expressions, up to the closing parenthesis. */
  method ParseParamList(lx: Lexer) returns (r: Option<seq<Expr>>)
    requires lx.Valid() && lx.nxt.None?
    modifies lx
    ensures lx.Valid()
    ensures match ParseArgs(old(lx.Ahead()))
            case None => r.None?
            case Some((args, rest)) => r == Some(args) && lx.Ahead() == rest && lx.nxt.None?
    decreases |lx.Ahead()|, 4
  {
    hide RuleOf, Prec, ParsePrec, ParseItems, ItemsFrom;
    var args := [];
    ghost var ts := lx.Ahead();
    ItemsStart(ts);
    if lx.cur.RPAREN? {
      lx.GetTok();
      return Some([]);
    }
    while true
      invariant lx.Valid() && lx.nxt.None? && |lx.Ahead()| <= |ts|
      invariant ItemsFrom(args, lx.Ahead()) == ParseItems(ts)
      decreases |lx.Ahead()|
    {
      ItemsUnfold(args, lx.Ahead());
      var e := ParsePrecedence(lx, PREC_TEMP);
      if e.None? { return None; }
      args := args + [e.value];
      if lx.cur.RPAREN? {
        lx.GetTok();
        return Some(args);
      }
      if !lx.cur.COMMA? { return None; }
      lx.GetTok();
    }
  }
}
