/** How tightly the operators bind, by families: what a chain of operators is read as. */
module Precedence {
  import opened Values
  import opened Ast
  import opened Tokens
  import opened Pratt
  import opened PrattTheorems
  import opened Syntax

  /** Families of binary operators, the loosest first. */
  const FAMILIES: seq<seq<Operator>> :=
    [[ONeq], [OEq], [OLs, OLe, OGr, OGe], [OAdd, OSub], [OMul, ODiv, OMod]]

  /** The family an operator is listed in. */
  function Family(op: Operator): (k: nat)
    ensures k < |FAMILIES| && op in FAMILIES[k]
  {
    match op
    case ONeq => 0
    case OEq => 1
    case OLs => 2 case OLe => 2 case OGr => 2 case OGe => 2
    case OAdd => 3 case OSub => 3
    case OMul => 4 case ODiv => 4 case OMod => 4
  }

  lemma ListedOnce(op: Operator, k: nat)
    requires k < |FAMILIES| && op in FAMILIES[k]
    ensures k == Family(op)
  {
  }

  /** The order of the operators, token by token; a sign binds tighter than all of them,
      calls and accesses tighter still. */
  lemma TokenOrder()
    ensures 0 < Prec(NOT_EQUAL) < Prec(EQUAL) < Prec(LESS) < Prec(PLUS) < Prec(STAR) < PREC_UNARY < Prec(LPAREN)
    ensures Prec(NOT_EQUAL) == 2 && Prec(EQUAL) == 3 && Prec(LESS) == 5 && Prec(PLUS) == 6 && Prec(LPAREN) == 9
    ensures Prec(LESS) == Prec(LESS_EQ) == Prec(GREATER) == Prec(GREATER_EQ)
    ensures Prec(PLUS) == Prec(MINUS) && Prec(STAR) == Prec(SLASH) == Prec(PERCENT) && Prec(LPAREN) == Prec(LBRACKET)
  {
    hide Prec;
    PrecedenceInEffect(NOT_EQUAL);
    PrecedenceInEffect(EQUAL);
    ComparisonTokens();
    ArithmeticTokens();
    PrecedenceInEffect(LPAREN);
    PrecedenceInEffect(LBRACKET);
  }

  lemma ComparisonTokens()
    ensures Prec(LESS) == Prec(LESS_EQ) == Prec(GREATER) == Prec(GREATER_EQ) == InEffect(LESS).precedence
  {
    hide Prec;
    PrecedenceInEffect(LESS);
    PrecedenceInEffect(LESS_EQ);
    PrecedenceInEffect(GREATER);
    PrecedenceInEffect(GREATER_EQ);
  }

  lemma ArithmeticTokens()
    ensures Prec(PLUS) == Prec(MINUS) == InEffect(PLUS).precedence
    ensures Prec(STAR) == Prec(SLASH) == Prec(PERCENT) == InEffect(STAR).precedence
  {
    hide Prec;
    PrecedenceInEffect(PLUS);
    PrecedenceInEffect(MINUS);
    PrecedenceInEffect(STAR);
    PrecedenceInEffect(SLASH);
    PrecedenceInEffect(PERCENT);
  }

  /** An operator binds tighter exactly when its family is tighter. */
  lemma FamilyOrder(o1: Operator, o2: Operator)
    ensures Prec(TokenOf(o1)) < Prec(TokenOf(o2)) <==> Family(o1) < Family(o2)
    ensures Prec(TokenOf(o1)) < PREC_UNARY
  {
    hide Prec;
    TokenOrder();
  }

  /** A tree that may stand beside the operator without parentheses on either side: no
      operator at all, or one of a tighter family. */
  predicate Tight(c: Cst, op: Operator) {
    Shaped(c) && (c.CBin? ==> Family(c.op) > Family(op))
  }

  lemma TightFits(c: Cst, op: Operator)
    requires Tight(c, op)
    ensures Fits(c, Prec(TokenOf(op))) && Fits(c, Prec(TokenOf(op)) + 1)
  {
    hide Prec, Shaped;
    FamilyOrder(op, if c.CBin? then c.op else op);
    if c.CBin? { FamilyOrder(op, c.op); }
  }

  lemma BinFits(op: Operator, l: Cst, r: Cst)
    requires Fits(l, Prec(TokenOf(op))) && Fits(r, Prec(TokenOf(op)) + 1)
    ensures Fits(CBin(op, l, r), Prec(TokenOf(op))) && Fits(CBin(op, l, r), PREC_TEMP)
  {
    hide Prec, Fits;
    OperatorTokens(op);
    Whole(CBin(op, l, r), Prec(TokenOf(op)));
    Whole(CBin(op, l, r), PREC_TEMP);
  }

  /** The law the table is for: of two operators in a row the second takes the operand
      between them exactly when its family is tighter. Within a family the first one does. */
  lemma TighterFirst(o1: Operator, o2: Operator, a: Cst, b: Cst, c: Cst, rest: Input)
    requires Tight(a, o1) && Tight(a, o2) && Tight(b, o1) && Tight(b, o2) && Tight(c, o1) && Tight(c, o2)
    requires Prec(Head(rest)) == 0
    ensures var ts := Flatten(a) + [TokenOf(o1)] + Flatten(b) + [TokenOf(o2)] + Flatten(c) + rest;
            ParseExpr(ts) ==
            Some((if Family(o1) < Family(o2) then Bin(o1, Erase(a), Bin(o2, Erase(b), Erase(c)))
                  else Bin(o2, Bin(o1, Erase(a), Erase(b)), Erase(c)), rest))
  {
    hide Prec, Fits, Tight, Flatten, ParseExpr, Erase, Family;
    TightFits(a, o1);
    TightFits(b, o1);
    TightFits(b, o2);
    TightFits(c, o2);
    FamilyOrder(o1, o2);
    FamilyOrder(o2, o1);
    if Family(o1) < Family(o2) {
      SecondFirst(o1, o2, a, b, c, rest);
    } else {
      FirstFirst(o1, o2, a, b, c, rest);
    }
  }

  lemma SecondFirst(o1: Operator, o2: Operator, a: Cst, b: Cst, c: Cst, rest: Input)
    requires Fits(a, Prec(TokenOf(o1))) && Fits(b, Prec(TokenOf(o2))) && Fits(c, Prec(TokenOf(o2)) + 1)
    requires Prec(TokenOf(o1)) < Prec(TokenOf(o2)) && Prec(Head(rest)) == 0
    ensures ParseExpr(Flatten(a) + [TokenOf(o1)] + Flatten(b) + [TokenOf(o2)] + Flatten(c) + rest)
         == Some((Bin(o1, Erase(a), Bin(o2, Erase(b), Erase(c))), rest))
  {
    hide Prec, Fits, Flatten, ParsePrec, TokenOf;
    var right := CBin(o2, b, c);
    BinFits(o2, b, c);
    FitsLess(right, Prec(TokenOf(o2)), Prec(TokenOf(o1)) + 1);
    BinFits(o1, a, right);
    FlattenUnfolds(right);
    WholeReads(o1, a, right, rest);
    var t1, t2 := [TokenOf(o1)], [TokenOf(o2)];
    assert Flatten(a) + t1 + (Flatten(b) + t2 + Flatten(c)) + rest ==
           Flatten(a) + t1 + Flatten(b) + t2 + Flatten(c) + rest;
  }

  lemma FirstFirst(o1: Operator, o2: Operator, a: Cst, b: Cst, c: Cst, rest: Input)
    requires Fits(a, Prec(TokenOf(o1))) && Fits(b, Prec(TokenOf(o1)) + 1) && Fits(c, Prec(TokenOf(o2)) + 1)
    requires Prec(TokenOf(o2)) <= Prec(TokenOf(o1)) && Prec(Head(rest)) == 0
    ensures ParseExpr(Flatten(a) + [TokenOf(o1)] + Flatten(b) + [TokenOf(o2)] + Flatten(c) + rest)
         == Some((Bin(o2, Bin(o1, Erase(a), Erase(b)), Erase(c)), rest))
  {
    hide Prec, Fits, Flatten, ParsePrec, TokenOf;
    var left := CBin(o1, a, b);
    BinFits(o1, a, b);
    FitsLess(left, Prec(TokenOf(o1)), Prec(TokenOf(o2)));
    BinFits(o2, left, c);
    FlattenUnfolds(left);
    WholeReads(o2, left, c, rest);
  }

  lemma WholeReads(op: Operator, l: Cst, r: Cst, rest: Input)
    requires Fits(CBin(op, l, r), PREC_TEMP) && Prec(Head(rest)) == 0
    ensures ParseExpr(Flatten(l) + [TokenOf(op)] + Flatten(r) + rest) == Some((Bin(op, Erase(l), Erase(r)), rest))
  {
    hide Prec, Fits, Flatten, ParsePrec, TokenOf;
    FlattenUnfolds(CBin(op, l, r));
    ReadsAll(CBin(op, l, r), rest, PREC_TEMP);
  }

  /** A sign belongs to the operand right behind it, whatever operator follows. */
  lemma SignFirst(op: Operator, a: Cst, b: Cst, rest: Input)
    requires Fits(CNeg(a), PREC_UNARY) && Tight(b, op) && Prec(Head(rest)) == 0
    ensures ParseExpr([MINUS] + Flatten(a) + [TokenOf(op)] + Flatten(b) + rest)
         == Some((Bin(op, Neg(Erase(a)), Erase(b)), rest))
  {
    hide Prec, Tight, Flatten, ParsePrec, Fits;
    var whole := CBin(op, CNeg(a), b);
    FamilyOrder(op, op);
    FitsLess(CNeg(a), PREC_UNARY, Prec(TokenOf(op)));
    TightFits(b, op);
    BinFits(op, CNeg(a), b);
    FlattenUnfolds(whole);
    NegText(a);
    assert Flatten(whole) == [MINUS] + Flatten(a) + [TokenOf(op)] + Flatten(b);
    ReadsAll(whole, rest, PREC_TEMP);
  }

  lemma NegText(a: Cst)
    ensures Flatten(CNeg(a)) == [MINUS] + Flatten(a)
  {
  }
}
