/** The expression parser accepts exactly the grammar that its rule table stands for:
    concrete syntax trees whose operators nest by precedence. */
module PrattTheorems {
  import opened Values
  import opened Ast
  import opened Tokens
  import opened Pratt

  /** An expression as it is written, with every parenthesis and every sign. */
  datatype Cst =
    | CVar(name: string)
    | CNum(negative: bool, text: string)
    | CNeg(operand: Cst)
    | CBin(op: Operator, l: Cst, r: Cst)
    | CIndex(base: Cst, index: Cst)
    | CCall(callee: Cst, args: seq<Cst>)
    | CGroup(inner: Cst)

  function TokenOf(op: Operator): Token {
    match op
    case OAdd => PLUS case OSub => MINUS case OMul => STAR case ODiv => SLASH case OMod => PERCENT
    case OEq => EQUAL case ONeq => NOT_EQUAL
    case OLs => LESS case OLe => LESS_EQ case OGr => GREATER case OGe => GREATER_EQ
  }

  /** The tokens of a tree, in order. */
  function Flatten(c: Cst): Input
    decreases c, 0
  {
    match c
    case CVar(name) => [IDENTIFIER(name)]
    case CNum(negative, text) => if negative then [MINUS, NUMBER(text)] else [NUMBER(text)]
    case CNeg(c1) => [MINUS] + Flatten(c1)
    case CBin(op, l, r) => Flatten(l) + [TokenOf(op)] + Flatten(r)
    case CIndex(b, i) => Flatten(b) + [LBRACKET] + Flatten(i) + [RBRACKET]
    case CCall(f, args) => Flatten(f) + [LPAREN] + FlattenArgs(args)
    case CGroup(c1) => [LPAREN] + Flatten(c1) + [RPAREN]
  }

  function FlattenArgs(args: seq<Cst>): Input
    decreases args, 1
  {
    if args == [] then [RPAREN] else FlattenItems(args)
  }

  function FlattenItems(args: seq<Cst>): Input
    requires args != []
    decreases args, 0
  {
    Flatten(args[0]) + if |args| == 1 then [RPAREN] else [COMMA] + FlattenItems(args[1..])
  }

  /** The expression a tree stands for. */
  function Erase(c: Cst): Expr
    decreases c, 0
  {
    match c
    case CVar(name) => Var(name)
    case CNum(negative, text) => IntLit(if negative then -Decimal(text) else Decimal(text))
    case CNeg(c1) => Neg(Erase(c1))
    case CBin(op, l, r) => Bin(op, Erase(l), Erase(r))
    case CIndex(b, i) => Index(Erase(b), Erase(i))
    case CCall(f, args) => Call(Erase(f), EraseAll(args))
    case CGroup(c1) => Erase(c1)
  }

  function EraseAll(args: seq<Cst>): (es: seq<Expr>)
    ensures |es| == |args|
    decreases args, 0
  {
    if args == [] then [] else [Erase(args[0])] + EraseAll(args[1..])
  }

  function Level(c: Cst): nat {
    match c
    case CNeg(_) => PREC_UNARY
    case CBin(op, _, _) => Prec(TokenOf(op))
    case CIndex(_, _) => PREC_CALL
    case CCall(_, _) => PREC_CALL
    case _ => PREC_PRIMARY
  }

  /** The tree may stand where an operator of strength `p` is asked for. Left operands
      bind at least as tightly as their operator, right operands strictly tighter. */
  predicate Fits(c: Cst, p: nat)
    decreases c, 1
  {
    Level(c) >= p && Shaped(c)
  }

  predicate Shaped(c: Cst)
    decreases c, 0
  {
    match c
    case CVar(_) => true
    case CNum(_, text) => '.' !in text && text != ""
    // a minus in front of a number is part of the number
    case CNeg(c1) => Fits(c1, PREC_UNARY) && !Head(Flatten(c1)).NUMBER?
    case CBin(op, l, r) => Fits(l, Prec(TokenOf(op))) && Fits(r, Prec(TokenOf(op)) + 1)
    case CIndex(b, i) => Fits(b, PREC_CALL) && Fits(i, PREC_TEMP)
    case CCall(f, args) => Fits(f, PREC_CALL) && forall a | a in args :: Fits(a, PREC_TEMP)
    case CGroup(c1) => Fits(c1, PREC_TEMP)
  }

  // ---- the table, for the tokens that matter here ----

  lemma OperatorTokens(op: Operator)
    ensures var t := TokenOf(op);
            && OperatorOf(t) == Some(op) && RuleOf(t).infix == IfnBinary
            && PREC_OR <= Prec(t) <= PREC_FACTOR
  {
    hide RuleOf, Prec;
    PrecedenceInEffect(TokenOf(op));
    InfixInEffect(TokenOf(op));
  }

  lemma TokenBack(t: Token)
    requires OperatorOf(t).Some?
    ensures TokenOf(OperatorOf(t).value) == t
  {
  }

  lemma LevelBounds(c: Cst)
    ensures PREC_OR <= Level(c) <= PREC_PRIMARY
  {
    if c.CBin? { OperatorTokens(c.op); }
  }

  /** How a tree can begin: never in a way that `pfn_grouping` takes for a signature. */
  lemma {:induction false} Begins(c: Cst)
    requires Shaped(c)
    ensures var ts := Flatten(c);
            && ts != [] && !ts[0].RPAREN?
            && (|ts| == 1 && ts[0].IDENTIFIER? ==> c.CVar?)
            && (|ts| > 1 && ts[0].IDENTIFIER? ==> !ts[1].COMMA?)
  {
    match c
    case CVar(_) =>
    case CNum(_, _) =>
    case CNeg(_) =>
    case CBin(op, l, r) => Begins(l); Begins(r);
    case CIndex(b, i) => Begins(b);
    case CCall(f, args) => Begins(f);
    case CGroup(_) =>
  }

  // ---- every well shaped tree is accepted ----

  /** What `ParsePrec` does first with the tokens of a tree: it reads the whole tree and
      goes on behind it with the operators that may follow. */
  lemma {:induction false} Reads(c: Cst, rest: Input, p: nat)
    requires Fits(c, p) && (Prec(Head(rest)) <= Level(c) || Level(c) >= PREC_CALL)
    ensures ParsePrec(Flatten(c) + rest, p) == ParseInfix(Erase(c), rest, p)
    decreases c, 5
  {
    hide Prec, RuleOf, Decimal, ParseInfix, ParseGroup;
    match c
    case CVar(name) =>
      assert Flatten(c) + rest == [IDENTIFIER(name)] + rest;
      PrefixInEffect(IDENTIFIER(name));
    case CNum(negative, text) =>
      PrefixInEffect(NUMBER(text));
      PrefixInEffect(MINUS);
      if negative {
        assert (Flatten(c) + rest)[1..] == [NUMBER(text)] + rest;
        assert (Flatten(c) + rest)[2..] == rest;
      } else {
        assert Flatten(c) + rest == [NUMBER(text)] + rest;
      }
    case CNeg(c1) => ReadsNeg(c, rest, p);
    case CBin(op, _, _) => OperatorTokens(op); ReadsBin(c, rest, p);
    case CIndex(_, _) => ReadsIndex(c, rest, p);
    case CCall(_, _) => ReadsCall(c, rest, p);
    case CGroup(_) => ReadsGroup(c, rest, p);
  }

  /** The same, where nothing behind the tree binds as tightly. */
  lemma ReadsAll(c: Cst, rest: Input, p: nat)
    requires Fits(c, p) && Prec(Head(rest)) < p
    ensures ParsePrec(Flatten(c) + rest, p) == Some((Erase(c), rest))
    decreases c, 6
  {
    hide Prec, RuleOf, ParsePrec;
    Reads(c, rest, p);
  }

  lemma HighPrecedence(t: Token)
    ensures Prec(t) <= PREC_UNARY ==> Prec(t) < PREC_UNARY
  {
    hide Prec;
    PrecedenceInEffect(t);
  }

  lemma {:induction false} ReadsNeg(c: Cst, rest: Input, p: nat)
    requires c.CNeg? && Fits(c, p) && Prec(Head(rest)) <= PREC_UNARY
    ensures ParsePrec(Flatten(c) + rest, p) == ParseInfix(Erase(c), rest, p)
    decreases c, 4
  {
    hide Fits, Shaped, Prec, RuleOf, Decimal, ParseInfix, ParseGroup;
    Parts(c, p);
    var c1 := c.operand;
    PrefixInEffect(MINUS);
    HighPrecedence(Head(rest));
    Begins(c1);
    assert (Flatten(c) + rest)[1..] == Flatten(c1) + rest;
    ReadsAll(c1, rest, PREC_UNARY);
  }

  lemma {:induction false} ReadsBin(c: Cst, rest: Input, p: nat)
    requires c.CBin? && Fits(c, p) && Prec(Head(rest)) <= Level(c)
    ensures ParsePrec(Flatten(c) + rest, p) == ParseInfix(Erase(c), rest, p)
    decreases c, 4
  {
    hide Fits, Shaped, Prec, RuleOf, Decimal, ParsePrec, ParseGroup, ParseArgs, Flatten;
    Parts(c, p);
    var t := TokenOf(c.op);
    var rest1 := [t] + Flatten(c.r) + rest;
    FlattenUnfolds(c);
    OperatorTokens(c.op);
    assert Flatten(c) + rest == Flatten(c.l) + rest1;
    FitsLess(c.l, Prec(t), p);
    Reads(c.l, rest1, p);
    assert rest1[1..] == Flatten(c.r) + rest;
    ReadsAll(c.r, rest, Prec(t) + 1);
  }

  lemma FlattenUnfolds(c: Cst)
    ensures c.CBin? ==> Flatten(c) == Flatten(c.l) + [TokenOf(c.op)] + Flatten(c.r)
    ensures c.CIndex? ==> Flatten(c) == Flatten(c.base) + [LBRACKET] + Flatten(c.index) + [RBRACKET]
    ensures c.CCall? ==> Flatten(c) == Flatten(c.callee) + [LPAREN] + FlattenArgs(c.args)
    ensures c.CGroup? ==> Flatten(c) == [LPAREN] + Flatten(c.inner) + [RPAREN]
  {
  }

  lemma {:induction false} ReadsIndex(c: Cst, rest: Input, p: nat)
    requires c.CIndex? && Fits(c, p)
    ensures ParsePrec(Flatten(c) + rest, p) == ParseInfix(Erase(c), rest, p)
    decreases c, 4
  {
    hide Fits, Shaped, Prec, RuleOf, Decimal, ParsePrec, ParseGroup, ParseArgs, Flatten;
    Parts(c, p);
    var rest1 := [LBRACKET] + Flatten(c.index) + [RBRACKET] + rest;
    FlattenUnfolds(c);
    PrecedenceInEffect(LBRACKET);
    PrecedenceInEffect(RBRACKET);
    InfixInEffect(LBRACKET);
    assert Flatten(c) + rest == Flatten(c.base) + rest1;
    FitsLess(c.base, PREC_CALL, p);
    Reads(c.base, rest1, p);
    assert rest1[1..] == Flatten(c.index) + ([RBRACKET] + rest);
    ReadsAll(c.index, [RBRACKET] + rest, PREC_TEMP);
    assert ([RBRACKET] + rest)[1..] == rest;
  }

  lemma {:induction false} ReadsCall(c: Cst, rest: Input, p: nat)
    requires c.CCall? && Fits(c, p)
    ensures ParsePrec(Flatten(c) + rest, p) == ParseInfix(Erase(c), rest, p)
    decreases c, 4
  {
    hide Fits, Shaped, Prec, RuleOf, Decimal, ParsePrec, ParseGroup, ParseArgs, Flatten, FlattenArgs;
    Parts(c, p);
    var rest1 := [LPAREN] + FlattenArgs(c.args) + rest;
    FlattenUnfolds(c);
    PrecedenceInEffect(LPAREN);
    InfixInEffect(LPAREN);
    assert Flatten(c) + rest == Flatten(c.callee) + rest1;
    FitsLess(c.callee, PREC_CALL, p);
    Reads(c.callee, rest1, p);
    assert rest1[1..] == FlattenArgs(c.args) + rest;
    ReadsArgs(c.args, rest);
  }

  lemma {:induction false} ReadsArgs(args: seq<Cst>, rest: Input)
    requires forall a | a in args :: Fits(a, PREC_TEMP)
    ensures ParseArgs(FlattenArgs(args) + rest) == Some((EraseAll(args), rest))
    decreases args, 2
  {
    hide ParseItems, Fits, Erase;
    if args == [] {
      assert ([RPAREN] + rest)[1..] == rest;
    } else {
      FitsShaped(args[0], PREC_TEMP);
      Begins(args[0]);
      assert Head(FlattenItems(args) + rest) == Flatten(args[0])[0];
      ReadsItems(args, rest);
    }
  }

  lemma FitsAt(c: Cst, p: nat, q: nat)
    requires Fits(c, p) && q <= Level(c)
    ensures Fits(c, q)
  {
  }

  /** Trees from their parts. */
  lemma Whole(c: Cst, p: nat)
    requires Level(c) >= p
    requires match c
             case CBin(op, l, r) => Fits(l, Prec(TokenOf(op))) && Fits(r, Prec(TokenOf(op)) + 1)
             case CIndex(b, i) => Fits(b, PREC_CALL) && Fits(i, PREC_TEMP)
             case CCall(f, args) => Fits(f, PREC_CALL) && forall a | a in args :: Fits(a, PREC_TEMP)
             case _ => false
    ensures Fits(c, p)
  {
    hide Flatten, Prec;
  }

  lemma FitsLess(c: Cst, p: nat, q: nat)
    requires Fits(c, p) && q <= p
    ensures Fits(c, q) && Level(c) >= p
  {
  }

  /** What the shape of a tree says about its parts. */
  lemma Parts(c: Cst, p: nat)
    requires Fits(c, p)
    ensures Shaped(c) && Level(c) >= p
    ensures match c
            case CNeg(c1) => Fits(c1, PREC_UNARY) && Shaped(c1) && !Head(Flatten(c1)).NUMBER?
            case CBin(op, l, r) => Fits(l, Prec(TokenOf(op))) && Fits(r, Prec(TokenOf(op)) + 1)
            case CIndex(b, i) => Fits(b, PREC_CALL) && Fits(i, PREC_TEMP)
            case CCall(f, args) => Fits(f, PREC_CALL) && forall a | a in args :: Fits(a, PREC_TEMP)
            case CGroup(c1) => Fits(c1, PREC_TEMP) && Shaped(c1)
            case _ => true
  {
    hide Flatten, Prec;
  }

  lemma FitsShaped(c: Cst, p: nat)
    requires Fits(c, p)
    ensures Shaped(c) && Level(c) >= p
  {
  }

  lemma {:induction false} ReadsItems(args: seq<Cst>, rest: Input)
    requires args != [] && forall a | a in args :: Fits(a, PREC_TEMP)
    ensures ParseItems(FlattenItems(args) + rest) == Some((EraseAll(args), rest))
    decreases args, 1
  {
    hide Fits, Erase, Flatten, ParsePrec, Prec;
    var n := |args|;
    var rest1 := if n == 1 then [RPAREN] + rest else [COMMA] + FlattenItems(args[1..]) + rest;
    PrecedenceInEffect(RPAREN);
    PrecedenceInEffect(COMMA);
    assert FlattenItems(args) + rest == Flatten(args[0]) + rest1;
    ReadsAll(args[0], rest1, PREC_TEMP);
    if n == 1 {
      assert rest1[1..] == rest;
      assert args[1..] == [];
      assert EraseAll(args) == [Erase(args[0])];
    } else {
      assert rest1 == [COMMA] + (FlattenItems(args[1..]) + rest);
      ReadsItems(args[1..], rest);
    }
  }

  lemma {:induction false} GroupReads(c: Cst, rest: Input)
    requires Fits(c, PREC_TEMP)
    ensures ParseGroup(Flatten(c) + ([RPAREN] + rest)) == Some((Erase(c), rest))
    decreases c, 7
  {
    hide Prec, RuleOf, Decimal, ParsePrec, Flatten, Fits, Shaped;
    var rest1 := [RPAREN] + rest;
    PrecedenceInEffect(RPAREN);
    FitsShaped(c, PREC_TEMP);
    Begins(c);
    var ts := Flatten(c) + rest1;
    assert ts[0] == Flatten(c)[0];
    assert Tail(ts) == Flatten(c)[1..] + rest1;
    ReadsAll(c, rest1, PREC_TEMP);
    assert rest1[1..] == rest;
  }

  lemma {:induction false} ReadsGroup(c: Cst, rest: Input, p: nat)
    requires c.CGroup? && Fits(c, p)
    ensures ParsePrec(Flatten(c) + rest, p) == ParseInfix(Erase(c), rest, p)
    decreases c, 4
  {
    hide Fits, Shaped, Prec, RuleOf, Decimal, ParseInfix, Flatten;
    Parts(c, p);
    var rest1 := [RPAREN] + rest;
    FlattenUnfolds(c);
    PrecedenceInEffect(RPAREN);
    PrefixInEffect(LPAREN);
    assert (Flatten(c) + rest)[1..] == Flatten(c.inner) + rest1;
    GroupReads(c.inner, rest);
  }

  // ---- everything that is accepted is a well shaped tree ----

  /** What is accepted is the text of a tree that fits, and the parser stops at the
      first operator that does not bind tightly enough. */
  ghost predicate Read(ts: Input, p: nat, e: Expr, rest: Input, c: Cst) {
    Fits(c, p) && Erase(c) == e && ts == Flatten(c) + rest && Prec(Head(rest)) < p
  }

  lemma {:induction false} Accepted(ts: Input, p: nat) returns (c: Cst)
    requires ParsePrec(ts, p).Some? && PREC_TEMP <= p <= PREC_UNARY
    ensures var (e, rest) := ParsePrec(ts, p).value; Read(ts, p, e, rest, c)
    decreases |ts|, 2
  {
    hide Prec, RuleOf, Decimal, Flatten, Fits, Shaped, ParsePrefix, ParseInfix, Erase;
    var (lhs, rest) := ParsePrefix(ts).value;
    var c1 := PrefixAccepted(ts);
    FitsLess(c1, PREC_UNARY, p);
    c := InfixAccepted(c1, rest, p);
    var rest1 := ParsePrec(ts, p).value.1;
    var between :| rest == between + rest1 && Flatten(c) == Flatten(c1) + between;
    assert ts == Flatten(c) + rest1;
  }

  lemma {:induction false} PrefixAccepted(ts: Input) returns (c: Cst)
    requires ParsePrefix(ts).Some?
    ensures var (e, rest) := ParsePrefix(ts).value;
            && Fits(c, PREC_UNARY) && Erase(c) == e && ts == Flatten(c) + rest
            && (Prec(Head(rest)) <= Level(c) || Level(c) >= PREC_CALL)
    decreases |ts|, 1
  {
    hide Prec, RuleOf, Decimal, ParsePrec, ParseGroup;
    PrefixInEffect(ts[0]);
    match ts[0]
    case IDENTIFIER(name) => c := CVar(name);
    case NUMBER(text) => c := CNum(false, text);
    case MINUS =>
      if Head(ts[1..]).NUMBER? {
        c := CNum(true, ts[1].text);
      } else {
        c := SignAccepted(ts[1..]);
      }
    case LPAREN =>
      c := GroupAccepted(ts[1..]);
  }

  /** What stands behind a sign that is not part of a number. */
  lemma {:induction false} SignAccepted(ts: Input) returns (c: Cst)
    requires ParsePrec(ts, PREC_UNARY).Some? && !Head(ts).NUMBER?
    ensures var (e, rest) := ParsePrec(ts, PREC_UNARY).value;
            && Fits(c, PREC_UNARY) && c.CNeg? && Erase(c) == Neg(e) && [MINUS] + ts == Flatten(c) + rest
            && Prec(Head(rest)) <= Level(c)
    decreases |ts|, 3
  {
    hide Prec, RuleOf, Decimal, ParsePrec, ParseGroup;
    var c1 := Accepted(ts, PREC_UNARY);
    c := CNeg(c1);
    SignIsNoNumber(c1, ts, ParsePrec(ts, PREC_UNARY).value.1);
  }

  lemma SignIsNoNumber(c: Cst, ts: Input, rest: Input)
    requires ts == Flatten(c) + rest && !Head(ts).NUMBER? && Fits(c, PREC_UNARY)
    ensures !Head(Flatten(c)).NUMBER?
  {
    hide Fits, Shaped, Flatten;
    FitsShaped(c, PREC_UNARY);
    Begins(c);
    assert ts[0] == Flatten(c)[0];
  }

  /** What stands behind an opening parenthesis. */
  lemma {:induction false} GroupAccepted(ts: Input) returns (c: Cst)
    requires ParseGroup(ts).Some?
    ensures var (e, rest) := ParseGroup(ts).value;
            && Fits(c, PREC_UNARY) && c.CGroup? && Erase(c) == e && [LPAREN] + ts == Flatten(c) + rest
    decreases |ts|, 3
  {
    hide Prec, RuleOf, Decimal, ParsePrec;
    var c1 := Accepted(ts, PREC_TEMP);
    c := CGroup(c1);
    var rest := ParsePrec(ts, PREC_TEMP).value.1;
    assert rest == [RPAREN] + rest[1..];
    assert ts == Flatten(c1) + ([RPAREN] + rest[1..]);
    assert [LPAREN] + ts == [LPAREN] + Flatten(c1) + [RPAREN] + rest[1..];
  }

  /** The loop extends the tree read so far to the right. */
  lemma {:induction false} InfixAccepted(c1: Cst, ts: Input, p: nat) returns (c: Cst)
    requires Fits(c1, p) && (Prec(Head(ts)) <= Level(c1) || Level(c1) >= PREC_CALL) && PREC_TEMP <= p <= PREC_UNARY
    requires ParseInfix(Erase(c1), ts, p).Some?
    ensures var (e, rest) := ParseInfix(Erase(c1), ts, p).value;
            && Fits(c, p) && Erase(c) == e && Prec(Head(rest)) < p
            && exists between :: ts == between + rest && Flatten(c) == Flatten(c1) + between
    decreases |ts|, 2
  {
    hide Prec, RuleOf, Decimal, ParsePrec, ParseArgs, Flatten, Fits, Shaped, Erase;
    if p > Prec(Head(ts)) {
      c := c1;
      assert ts == [] + ts && Flatten(c) == Flatten(c1) + [];
      return;
    }
    var c2, rest := OneMore(c1, ts, p);
    c := InfixAccepted(c2, rest, p);
    Joins(c1, ts, p, c2, rest, c, ParseInfix(Erase(c1), ts, p).value.1);
  }

  lemma Joins(c1: Cst, ts: Input, p: nat, c2: Cst, rest: Input, c: Cst, last: Input)
    requires Extends(c1, ts, p, c2, rest)
    requires exists between :: rest == between + last && Flatten(c) == Flatten(c2) + between
    ensures exists between :: ts == between + last && Flatten(c) == Flatten(c1) + between
  {
    hide Prec, RuleOf, ParseInfix, Flatten, Fits, Erase;
    var between2 :| rest == between2 + last && Flatten(c) == Flatten(c2) + between2;
    var between1 :| ts == between1 + rest && Flatten(c2) == Flatten(c1) + between1;
    assert ts == (between1 + between2) + last;
    assert Flatten(c) == Flatten(c1) + (between1 + between2);
  }

  lemma {:induction false} OneMore(c1: Cst, ts: Input, p: nat) returns (c2: Cst, rest: Input)
    requires Fits(c1, p) && (Prec(Head(ts)) <= Level(c1) || Level(c1) >= PREC_CALL) && PREC_TEMP <= p <= PREC_UNARY
    requires ParseInfix(Erase(c1), ts, p).Some? && p <= Prec(Head(ts))
    ensures Extends(c1, ts, p, c2, rest)
    decreases |ts|, 1
  {
    hide Prec, RuleOf, Decimal, ParsePrec, ParseArgs, Flatten, Fits, Shaped, Erase, Extends;
    InfixInEffect(ts[0]);
    PrecedenceInEffect(ts[0]);
    if ts[0].LBRACKET? {
      c2, rest := IndexAccepted(c1, ts, p);
    } else if ts[0].LPAREN? {
      c2, rest := CallAccepted(c1, ts, p);
    } else {
      c2, rest := BinaryAccepted(c1, ts, p);
    }
  }

  /** One more operator: the loop goes on with the tree `c2` at `rest`. */
  ghost predicate Extends(c1: Cst, ts: Input, p: nat, c2: Cst, rest: Input) {
    && |rest| < |ts| && Fits(c2, p) && (Prec(Head(rest)) <= Level(c2) || Level(c2) >= PREC_CALL)
    && ParseInfix(Erase(c1), ts, p) == ParseInfix(Erase(c2), rest, p)
    && exists between :: ts == between + rest && Flatten(c2) == Flatten(c1) + between
  }

  lemma {:induction false} BinaryAccepted(c1: Cst, ts: Input, p: nat) returns (c2: Cst, rest: Input)
    requires Fits(c1, p) && (Prec(Head(ts)) <= Level(c1) || Level(c1) >= PREC_CALL) && PREC_TEMP <= p <= Prec(Head(ts))
    requires ts != [] && RuleOf(ts[0]).infix == IfnBinary && ParseInfix(Erase(c1), ts, p).Some?
    ensures Extends(c1, ts, p, c2, rest)
    decreases |ts|, 0
  {
    hide Fits, Shaped, Prec, RuleOf, Decimal, ParsePrec, ParseArgs, Flatten;
    var t := ts[0];
    var op := OperatorOf(t).value;
    TokenBack(t);
    OperatorTokens(op);
    var r := Accepted(ts[1..], Prec(t) + 1);
    rest := ParsePrec(ts[1..], Prec(t) + 1).value.1;
    c2 := CBin(op, c1, r);
    FlattenUnfolds(c2);
    FitsAt(c1, p, Prec(t));
    Whole(c2, p);
    var between := [t] + Flatten(r);
    assert ts == between + rest;
    assert Flatten(c2) == Flatten(c1) + between;
  }

  lemma {:induction false} IndexAccepted(c1: Cst, ts: Input, p: nat) returns (c2: Cst, rest: Input)
    requires Fits(c1, p) && Level(c1) >= PREC_CALL && PREC_TEMP <= p <= PREC_UNARY && p <= Prec(Head(ts))
    requires ts != [] && ts[0].LBRACKET? && ParseInfix(Erase(c1), ts, p).Some?
    ensures Extends(c1, ts, p, c2, rest)
    decreases |ts|, 0
  {
    hide Fits, Shaped, Prec, RuleOf, Decimal, ParsePrec, ParseArgs, Flatten;
    InfixInEffect(LBRACKET);
    var i := Accepted(ts[1..], PREC_TEMP);
    var rest1 := ParsePrec(ts[1..], PREC_TEMP).value.1;
    rest := rest1[1..];
    c2 := CIndex(c1, i);
    FlattenUnfolds(c2);
    FitsAt(c1, p, PREC_CALL);
    Whole(c2, p);
    var between := [LBRACKET] + Flatten(i) + [RBRACKET];
    assert rest1 == [RBRACKET] + rest;
    assert ts == between + rest;
    assert Flatten(c2) == Flatten(c1) + between;
  }

  lemma {:induction false} CallAccepted(c1: Cst, ts: Input, p: nat) returns (c2: Cst, rest: Input)
    requires Fits(c1, p) && Level(c1) >= PREC_CALL && PREC_TEMP <= p <= PREC_UNARY && p <= Prec(Head(ts))
    requires ts != [] && ts[0].LPAREN? && ParseInfix(Erase(c1), ts, p).Some?
    ensures Extends(c1, ts, p, c2, rest)
    decreases |ts|, 0
  {
    hide Fits, Shaped, Prec, RuleOf, Decimal, ParsePrec, ParseArgs, Flatten, FlattenArgs;
    InfixInEffect(LPAREN);
    var args := ArgsAccepted(ts[1..]);
    rest := ParseArgs(ts[1..]).value.1;
    c2 := CCall(c1, args);
    FlattenUnfolds(c2);
    FitsAt(c1, p, PREC_CALL);
    Whole(c2, p);
    var between := [LPAREN] + FlattenArgs(args);
    assert ts == between + rest;
    assert Flatten(c2) == Flatten(c1) + between;
  }

  lemma {:induction false} ArgsAccepted(ts: Input) returns (args: seq<Cst>)
    requires ParseArgs(ts).Some?
    ensures var (es, rest) := ParseArgs(ts).value;
            && (forall a | a in args :: Fits(a, PREC_TEMP)) && EraseAll(args) == es && ts == FlattenArgs(args) + rest
    decreases |ts|, 4
  {
    hide Fits, Shaped, Erase, Flatten, ParseItems, FlattenItems;
    if Head(ts).RPAREN? {
      args := [];
      assert ts == [RPAREN] + ts[1..];
    } else {
      args := ItemsAccepted(ts);
    }
  }

  lemma {:induction false} ItemsAccepted(ts: Input) returns (args: seq<Cst>)
    requires ParseItems(ts).Some?
    ensures var (es, rest) := ParseItems(ts).value;
            && args != [] && (forall a | a in args :: Fits(a, PREC_TEMP)) && EraseAll(args) == es
            && ts == FlattenItems(args) + rest
    decreases |ts|, 3
  {
    hide Fits, Shaped, Erase, Flatten, ParsePrec, Prec;
    var a := Accepted(ts, PREC_TEMP);
    var rest := ParsePrec(ts, PREC_TEMP).value.1;
    if Head(rest).RPAREN? {
      args := [a];
      assert rest == [RPAREN] + rest[1..];
      assert args[1..] == [] && EraseAll(args) == [Erase(a)];
      assert ts == FlattenItems(args) + rest[1..];
    } else {
      var more := ItemsAccepted(rest[1..]);
      args := [a] + more;
      assert rest == [COMMA] + rest[1..];
      assert args[1..] == more;
      assert ts == FlattenItems(args) + ParseItems(ts).value.1;
    }
  }

  /** The parser is the grammar: with precedence `p` it reads `e` and stops at `rest`
      exactly when the tokens before `rest` are the text of a tree for `e` that fits,
      and `rest` does not go on with an operator that binds as tightly. */
  lemma ParserIsGrammar(ts: Input, p: nat, e: Expr, rest: Input)
    requires PREC_TEMP <= p <= PREC_UNARY
    ensures ParsePrec(ts, p) == Some((e, rest)) <==> exists c :: Read(ts, p, e, rest, c)
  {
    hide ParsePrec, Fits, Flatten, Erase, Prec;
    if ParsePrec(ts, p) == Some((e, rest)) {
      var c := Accepted(ts, p);
    }
    forall c | Read(ts, p, e, rest, c) ensures ParsePrec(ts, p) == Some((e, rest)) {
      ReadsAll(c, rest, p);
    }
  }

  // ---- printing ----

  function DigitChar(d: nat): char
    requires d < 10
  {
    ('0' as int + d) as char
  }

  function Digits(n: nat): string {
    (if n < 10 then "" else Digits(n / 10)) + [DigitChar(n % 10)]
  }

  lemma {:induction false} DigitsBack(n: nat)
    ensures Decimal(Digits(n)) == n && '.' !in Digits(n) && Digits(n) != ""
  {
    var front := if n < 10 then "" else Digits(n / 10);
    if n >= 10 { DigitsBack(n / 10); }
    assert Digits(n)[..|Digits(n)| - 1] == front;
    assert Decimal(front) == n / 10;
  }

  function Grouped(c: Cst, need: bool): Cst { if need then CGroup(c) else c }

  /** The text of an expression, with parentheses where precedence asks for them and
      where a minus would otherwise be taken for the sign of a number. */
  function Print(e: Expr, p: nat): Cst
    decreases e, 1
  {
    var c := PrintRaw(e);
    Grouped(c, Level(c) < p)
  }

  function PrintRaw(e: Expr): Cst
    decreases e, 0
  {
    match e
    case Var(name) => CVar(name)
    case IntLit(n) => if n < 0 then CNum(true, Digits(-n)) else CNum(false, Digits(n))
    case Neg(e1) =>
      var c1 := Print(e1, PREC_UNARY);
      CNeg(Grouped(c1, Head(Flatten(c1)).NUMBER?))
    case Bin(op, l, r) => CBin(op, Print(l, Prec(TokenOf(op))), Print(r, Prec(TokenOf(op)) + 1))
    case Index(b, i) => CIndex(Print(b, PREC_CALL), Print(i, PREC_TEMP))
    case Call(f, args) => CCall(Print(f, PREC_CALL), PrintAll(args))
  }

  function PrintAll(es: seq<Expr>): seq<Cst>
    decreases es
  {
    if es == [] then [] else [Print(es[0], PREC_TEMP)] + PrintAll(es[1..])
  }

  lemma {:induction false} PrintFits(e: Expr, p: nat)
    requires p <= PREC_PRIMARY
    ensures Fits(Print(e, p), p) && Erase(Print(e, p)) == e
    decreases e, 1
  {
    hide Prec, Flatten;
    var c := PrintRaw(e);
    PrintRawFits(e);
    LevelBounds(c);
    assert Fits(c, Level(c));
    GroupFits(c, Level(c));
  }

  lemma {:induction false} PrintRawFits(e: Expr)
    ensures Shaped(PrintRaw(e)) && Erase(PrintRaw(e)) == e
    decreases e, 0
  {
    hide Prec, Print, Decimal, Digits;
    match e
    case Var(_) =>
    case IntLit(n) => DigitsBack(if n < 0 then -n else n);
    case Neg(e1) =>
      PrintFits(e1, PREC_UNARY);
      GroupFits(Print(e1, PREC_UNARY), PREC_UNARY);
    case Bin(op, l, r) =>
      OperatorTokens(op);
      PrintFits(l, Prec(TokenOf(op)));
      PrintFits(r, Prec(TokenOf(op)) + 1);
    case Index(b, i) => PrintFits(b, PREC_CALL); PrintFits(i, PREC_TEMP);
    case Call(f, args) => PrintFits(f, PREC_CALL); PrintAllFits(args);
  }

  lemma GroupFits(c: Cst, p: nat)
    requires Fits(c, p) && p <= PREC_PRIMARY
    ensures Fits(CGroup(c), p) && Erase(CGroup(c)) == Erase(c) && !Head(Flatten(CGroup(c))).NUMBER?
  {
    hide Prec;
    LevelBounds(c);
    FitsAt(c, p, PREC_TEMP);
    assert Shaped(CGroup(c));
  }

  lemma {:induction false} PrintAllFits(es: seq<Expr>)
    ensures (forall c | c in PrintAll(es) :: Fits(c, PREC_TEMP)) && EraseAll(PrintAll(es)) == es
    decreases es
  {
    hide Prec, Print, Fits, Erase;
    if es != [] {
      PrintFits(es[0], PREC_TEMP);
      PrintAllFits(es[1..]);
      assert PrintAll(es)[1..] == PrintAll(es[1..]);
    }
  }

  /** Round trip: every expression is read back from its text, and the tokens behind
      it are left alone. */
  lemma RoundTrip(e: Expr, rest: Input, p: nat)
    requires PREC_TEMP <= p <= PREC_PRIMARY && Prec(Head(rest)) < p
    ensures ParsePrec(Flatten(Print(e, p)) + rest, p) == Some((e, rest))
  {
    hide Prec, Flatten, Print, ParsePrec, Fits, Erase;
    PrintFits(e, p);
    ReadsAll(Print(e, p), rest, p);
  }
}
