/** What written operators mean, in numbers: from tokens to the arithmetic on integers,
    without the syntax trees and the instructions in between. */
module Meaning {
  import opened Values
  import opened Ast
  import opened Tokens
  import opened Pratt
  import opened PrattTheorems
  import opened Syntax
  import opened StatementGrammar
  import opened Precedence
  import opened SourceSemantics
  import opened Division
  import opened ArrayLaws

  // ---- arithmetic ----

  function Abs(x: int): nat { if x < 0 then -x else x }

  /** The quotient of the magnitudes with the sign of the operands. */
  function Quotient(x: int, y: int): int
    requires y != 0
  {
    if (x < 0) == (y < 0) then Abs(x) / Abs(y) else -(Abs(x) / Abs(y))
  }

  /** Division by zero has no result, and neither has the one quotient that does not fit. */
  predicate Divisible(x: int, y: int) {
    y != 0 && !(x == -0x8000_0000 && y == -1)
  }

  function Bit(b: bool): int { if b then 1 else 0 }

  /** The number an operator stands for, before it is cut to 32 bits. */
  function Arithmetic(t: Token, x: int, y: int): Option<int> {
    match t
    case PLUS => Some(x + y)
    case MINUS => Some(x - y)
    case STAR => Some(x * y)
    case SLASH => if Divisible(x, y) then Some(Quotient(x, y)) else None
    case PERCENT => if Divisible(x, y) then Some(x - y * Quotient(x, y)) else None
    case EQUAL => Some(Bit(x == y))
    case NOT_EQUAL => Some(Bit(x != y))
    case LESS => Some(Bit(x < y))
    case LESS_EQ => Some(Bit(x <= y))
    case GREATER => Some(Bit(x > y))
    case GREATER_EQ => Some(Bit(x >= y))
    case _ => None
  }

  predicate IsOperator(t: Token) {
    || t.PLUS? || t.MINUS? || t.STAR? || t.SLASH? || t.PERCENT? || t.EQUAL? || t.NOT_EQUAL?
    || t.LESS? || t.LESS_EQ? || t.GREATER? || t.GREATER_EQ?
  }

  /** The integer that equals `n` up to a multiple of 2^32. */
  predicate Cut(v: Value, n: int) {
    v.Int? && -0x8000_0000 <= v.i < 0x8000_0000 && (v.i - n) % 0x1_0000_0000 == 0
  }

  predicate Gives(v: Option<Value>, n: Option<int>) {
    match n
    case None => v.None?
    case Some(x) => v.Some? && Cut(v.value, x)
  }

  lemma QuotientIs(x: int32, y: int32)
    requires y != 0
    ensures TruncDiv(x, y) == Quotient(x, y)
  {
    hide TruncDiv;
    SignsDoNotMatter(x, y, Abs(x), Abs(y));
  }

  lemma ApplyGives(op: Operator, x: int32, y: int32)
    ensures Gives(Apply(op, Int(x), Int(y)), Arithmetic(TokenOf(op), x, y))
  {
    hide Gives, Apply, Arithmetic, TruncDiv, Wrap32, Quotient;
    if op.ODiv? || op.OMod? {
      if y != 0 { QuotientIs(x, y); }
      DivisionGives(op, x, y);
    } else if op.OAdd? || op.OSub? || op.OMul? {
      SumGives(op, x, y);
    } else {
      ComparisonGives(op, x, y);
    }
  }

  lemma DivisionGives(op: Operator, x: int32, y: int32)
    requires (op.ODiv? || op.OMod?) && (y != 0 ==> TruncDiv(x, y) == Quotient(x, y))
    ensures Gives(Apply(op, Int(x), Int(y)), Arithmetic(TokenOf(op), x, y))
  {
    hide TruncDiv, Wrap32, Quotient;
  }

  lemma SumGives(op: Operator, x: int32, y: int32)
    requires op.OAdd? || op.OSub? || op.OMul?
    ensures Gives(Apply(op, Int(x), Int(y)), Arithmetic(TokenOf(op), x, y))
  {
    hide TruncDiv, Wrap32, Quotient;
  }

  lemma ComparisonGives(op: Operator, x: int32, y: int32)
    requires !op.ODiv? && !op.OMod? && !op.OAdd? && !op.OSub? && !op.OMul?
    ensures Gives(Apply(op, Int(x), Int(y)), Arithmetic(TokenOf(op), x, y))
  {
    hide TruncDiv, Wrap32, Quotient;
  }

  lemma OperatorTokenIs(t: Token)
    requires IsOperator(t)
    ensures OperatorOf(t).Some? && TokenOf(OperatorOf(t).value) == t
  {
  }

  // ---- expressions ----

  function Power10(n: nat): nat {
    if n == 0 then 1 else 10 * Power10(n - 1)
  }

  /** Positional notation: every digit counts the power of ten of its place. */
  function Positional(text: string): int {
    if text == "" then 0 else (text[0] as int - 48) * Power10(|text| - 1) + Positional(text[1..])
  }

  lemma PositionalFirst(text: string)
    ensures Positional("") == 0
    ensures text != "" ==>
              Positional(text) == (text[0] as int - 48) * Power10(|text| - 1) + Positional(text[1..])
  {
    hide Power10;
  }

  lemma TenTimes(d: int, n: nat)
    ensures d * Power10(n + 1) == 10 * (d * Power10(n))
  {
    var w := Power10(n);
    assert Power10(n + 1) == 10 * w;
    assert d * (10 * w) == 10 * (d * w);
  }

  lemma {:induction false} PositionalLast(text: string)
    requires text != ""
    ensures Positional(text) == 10 * Positional(text[..|text| - 1]) + (text[|text| - 1] as int - 48)
  {
    hide Positional, Power10;
    var front := text[..|text| - 1];
    PositionalFirst(text);
    PositionalFirst(front);
    if |text| == 1 {
      NoTens();
      assert text[1..] == "" && front == "";
    } else {
      PositionalLast(text[1..]);
      assert text[1..][..|text| - 2] == front[1..];
      TenTimes(text[0] as int - 48, |text| - 2);
    }
  }

  lemma NoTens()
    ensures Power10(0) == 1
  {
  }

  lemma {:induction false} DecimalIsPositional(text: string)
    ensures Decimal(text) == Positional(text)
  {
    hide Positional;
    PositionalFirst(text);
    if text != "" {
      DecimalIsPositional(text[..|text| - 1]);
      PositionalLast(text);
    }
  }

  /** A numeral, with or without a sign: it is read, and its value is the number that its
      digits denote. */
  lemma LiteralMeans(negative: bool, text: string, rest: Input, src: Source, k: nat, env: Env, heap: Heap, depth: nat,
      fuel: nat)
    requires text != "" && '.' !in text && Prec(Head(rest)) == 0 && k < |src|
    ensures var p := ParseExpr((if negative then [MINUS] else []) + [NUMBER(text)] + rest);
            && p.Some? && p.value.1 == rest
            && var r := EvalExpr(src, k, p.value.0, env, heap, depth, fuel);
               r.Val? && r.heap == heap && Cut(r.v, if negative then 0 - Positional(text) else Positional(text))
  {
    hide Prec, ParseExpr, Positional, Decimal, Wrap32;
    DecimalIsPositional(text);
    var c := CNum(negative, text);
    LiteralText(negative, text);
    ExprReads(c, rest);
  }

  lemma LiteralText(negative: bool, text: string)
    requires text != "" && '.' !in text
    ensures var c := CNum(negative, text);
            && Fits(c, PREC_TEMP) && Flatten(c) == (if negative then [MINUS] else []) + [NUMBER(text)]
            && Erase(c) == IntLit(if negative then 0 - Decimal(text) else Decimal(text))
  {
    hide Decimal;
  }

  /** A binary operator between two operands that are no operators themselves: the text is
      read, and evaluating it does the arithmetic on what the operands give. */
  lemma OperatorMeans(t: Token, a: Cst, b: Cst, rest: Input, src: Source, k: nat, env: Env, heap: Heap, depth: nat,
      fuel: nat, x: int32, h1: Heap, y: int32, h2: Heap)
    requires IsOperator(t) && Shaped(a) && Shaped(b) && !a.CBin? && !b.CBin? && Prec(Head(rest)) == 0 && k < |src|
    requires EvalExpr(src, k, Erase(a), env, heap, depth, fuel) == Val(Int(x), h1)
    requires EvalExpr(src, k, Erase(b), env, h1, depth, fuel) == Val(Int(y), h2)
    ensures var p := ParseExpr(Flatten(a) + [t] + Flatten(b) + rest);
            && p.Some? && p.value.1 == rest
            && var r := EvalExpr(src, k, p.value.0, env, heap, depth, fuel);
               if Arithmetic(t, x, y).None? then r == ExprErr
               else r.Val? && r.heap == h2 && Cut(r.v, Arithmetic(t, x, y).value)
  {
    hide Prec, Flatten, ParseExpr, Erase, Apply, Arithmetic, Cut, Fits, TokenOf;
    OperatorTokenIs(t);
    var op := OperatorOf(t).value;
    OperandFits(a, op);
    OperandFits(b, op);
    BinFits(op, a, b);
    WholeReads(op, a, b, rest);
    BinEvaluates(src, k, op, Erase(a), Erase(b), env, heap, depth, fuel, Int(x), h1, Int(y), h2);
    ApplyGives(op, x, y);
  }

  lemma OperandFits(c: Cst, op: Operator)
    requires Shaped(c) && !c.CBin?
    ensures Fits(c, Prec(TokenOf(op))) && Fits(c, Prec(TokenOf(op)) + 1)
  {
    hide Prec, Fits, Shaped, TokenOf;
    TightFits(c, op);
  }

  lemma BinEvaluates(src: Source, k: nat, op: Operator, l: Expr, r: Expr, env: Env, heap: Heap, depth: nat, fuel: nat,
      v: Value, h1: Heap, w: Value, h2: Heap)
    requires k < |src|
    requires EvalExpr(src, k, l, env, heap, depth, fuel) == Val(v, h1)
    requires EvalExpr(src, k, r, env, h1, depth, fuel) == Val(w, h2)
    ensures EvalExpr(src, k, Bin(op, l, r), env, heap, depth, fuel)
         == match Apply(op, v, w) case Some(x) => Val(x, h2) case None => ExprErr
  {
    hide Apply;
  }

  /** The class bit of a type word: set for integers and functions, clear for nil, and the
      lowest bit of its length for an array. */
  predicate ClassBit(v: Value) {
    v.Int? || v.Fun? || (v.Arr? && v.len % 2 == 1)
  }

  /** `<` and `<=` ask the left operand to be an integer, but the right one only for its
      class bit: then its lower word is compared, whatever it is. */
  lemma MixedComparison(v: Value, w: Value)
    ensures Apply(OLs, v, w).Some? <==> v.Int? && ClassBit(w)
    ensures v.Int? && w.Fun? ==> Apply(OLs, v, w) == Some(Int(if v.i < w.fid then 1 else 0))
    ensures v.Int? && w.Arr? && w.len % 2 == 1 ==> Apply(OLs, v, w) == Some(Int(if v.i < w.handle then 1 else 0))
    ensures v.Int? && w.Fun? ==> Apply(OLe, v, w) == Some(Int(if v.i <= w.fid then 1 else 0))
    ensures Apply(OGr, w, v) == Apply(OLs, v, w) && Apply(OGe, w, v) == Apply(OLe, v, w)
  {
  }

  /** A sign in front of an operand that is no number literal. */
  lemma SignMeans(c: Cst, rest: Input, src: Source, k: nat, env: Env, heap: Heap, depth: nat, fuel: nat, x: int32,
      h1: Heap)
    requires c.CNeg? && Fits(c, PREC_TEMP) && Prec(Head(rest)) == 0 && k < |src|
    requires EvalExpr(src, k, Erase(c.operand), env, heap, depth, fuel) == Val(Int(x), h1)
    ensures var p := ParseExpr([MINUS] + Flatten(c.operand) + rest);
            && p.Some? && p.value.1 == rest
            && var r := EvalExpr(src, k, p.value.0, env, heap, depth, fuel);
               r.Val? && r.heap == h1 && Cut(r.v, 0 - x)
  {
    hide Prec, ParseExpr, Fits, Flatten;
    NegText(c.operand);
    ExprReads(c, rest);
  }

  // ---- names and arrays ----

  lemma {:induction false} FunctionNumber(src: Source, k: nat, name: string)
    requires k < |src|
    ensures name in FuncTable(src, k) <==> exists j :: 0 <= j <= k && src[j].name == name
    ensures name in FuncTable(src, k) ==>
              var j := FuncTable(src, k)[name]; j <= k && src[j].name == name && forall i | j < i <= k ::
                  src[i].name != name
  {
    if k > 0 { FunctionNumber(src, k - 1, name); }
  }

  /** A name by itself: `nil`, a variable, or else the last function of that name that has
      been declared so far, the current one included. */
  lemma NameMeans(x: string, rest: Input, src: Source, k: nat, env: Env, heap: Heap, depth: nat, fuel: nat)
    requires Prec(Head(rest)) == 0 && k < |src|
    ensures var p := ParseExpr([IDENTIFIER(x)] + rest);
            && p.Some? && p.value.1 == rest
            && var r := EvalExpr(src, k, p.value.0, env, heap, depth, fuel);
               if x == "nil" then r == Val(Nil, heap)
               else if x in env then r == Val(env[x], heap)
               else if exists j :: 0 <= j <= k && src[j].name == x then
                 && r.Val? && r.heap == heap && r.v.Fun? && r.v.fid <= k && src[r.v.fid].name == x
                 && forall i | r.v.fid < i <= k :: src[i].name != x
               else r == ExprErr
  {
    hide Prec, ParseExpr, Fits, Flatten, Erase, FuncTable;
    VarText(x);
    ExprReads(CVar(x), rest);
    FunctionNumber(src, k, x);
  }

  /** `a[i]`: the array is evaluated first, then the index; what the access gives is the
      subject of `ArrayLaws`. */
  lemma IndexMeans(a: Cst, i: Cst, rest: Input, src: Source, k: nat, env: Env, heap: Heap, depth: nat, fuel: nat,
      arr: Value, h1: Heap, idx: Value, h2: Heap)
    requires Fits(CIndex(a, i), PREC_TEMP) && Prec(Head(rest)) == 0 && k < |src|
    requires EvalExpr(src, k, Erase(a), env, heap, depth, fuel) == Val(arr, h1)
    requires EvalExpr(src, k, Erase(i), env, h1, depth, fuel) == Val(idx, h2)
    ensures var p := ParseExpr(Flatten(a) + [LBRACKET] + Flatten(i) + [RBRACKET] + rest);
            && p.Some? && p.value.1 == rest
            && var r := EvalExpr(src, k, p.value.0, env, heap, depth, fuel);
               if Reading(h2, arr, idx).None? then r == ExprErr
               else r.Val? && r.v == Reading(h2, arr, idx).value && Some((r.v, r.heap)) == ArrGet(h2, arr, idx)
  {
    hide Prec, ParseExpr, Fits, Flatten, Erase, ArrGet;
    FlattenUnfolds(CIndex(a, i));
    IndexErases(a, i);
    ExprReads(CIndex(a, i), rest);
  }

  /** `array(n)`: a new array; its length and contents are the subject of `ArrayLaws`. */
  lemma ArrayMeans(n: Cst, rest: Input, src: Source, k: nat, env: Env, heap: Heap, depth: nat, fuel: nat, size: Value,
      h1: Heap)
    requires Fits(n, PREC_TEMP) && Prec(Head(rest)) == 0 && k < |src|
    requires EvalExpr(src, k, Erase(n), env, heap, depth, fuel) == Val(size, h1)
    ensures var p := ParseExpr([IDENTIFIER("array"), LPAREN] + Flatten(n) + [RPAREN] + rest);
            && p.Some? && p.value.1 == rest
            && EvalExpr(src, k, p.value.0, env, heap, depth, fuel)
            == match Alloc(h1, size) case Some((v, h2)) => Val(v, h2) case None => ExprErr
  {
    hide Prec, ParseExpr, Fits, Flatten, Erase, Alloc;
    var f := CVar("array");
    VarText("array");
    ArrayText(n);
    ExprReads(CCall(f, [n]), rest);
    OneArgument(src, k, Erase(n), env, heap, depth, fuel, size, h1);
  }

  lemma ArrayText(n: Cst)
    requires Fits(n, PREC_TEMP)
    ensures var c := CCall(CVar("array"), [n]);
            && Fits(c, PREC_TEMP) && Flatten(c) == [IDENTIFIER("array"), LPAREN] + Flatten(n) + [RPAREN]
            && Erase(c) == Call(Var("array"), [Erase(n)])
  {
    var f, args := CVar("array"), [n];
    assert Flatten(f) == [IDENTIFIER("array")] && Erase(f) == Var("array") && Fits(f, PREC_CALL);
    assert FlattenArgs(args) == Flatten(n) + [RPAREN];
    assert EraseAll(args) == [Erase(n)];
  }

  lemma OneArgument(src: Source, k: nat, e: Expr, env: Env, heap: Heap, depth: nat, fuel: nat, v: Value, h1: Heap)
    requires k < |src| && EvalExpr(src, k, e, env, heap, depth, fuel) == Val(v, h1)
    ensures EvalArgs(src, k, [e], env, heap, depth, fuel) == Vals([v], h1)
  {
    hide EvalExpr;
    assert EvalArgs(src, k, [e][1..], env, h1, depth, fuel) == Vals([], h1);
  }

  // ---- assignments ----

  /** The number a variable has after `x t y`. */
  function Assigned(t: Token, old_: int, y: int): Option<int> {
    match t
    case ASSIGN => Some(y)
    case PLUS_EQ => Some(old_ + y)
    case MINUS_EQ => Some(old_ - y)
    case MUL_EQ => Some(old_ * y)
    case DIV_EQ => if Divisible(old_, y) then Some(Quotient(old_, y)) else None
    case _ => None
  }

  /** The number an element has after `a[i] t y`: the assigned value is the left operand. */
  function Stored(t: Token, old_: int, y: int): Option<int> {
    match t
    case ASSIGN => Some(y)
    case PLUS_EQ => Some(y + old_)
    case MINUS_EQ => Some(y - old_)
    case MUL_EQ => Some(y * old_)
    case DIV_EQ => if Divisible(y, old_) then Some(Quotient(y, old_)) else None
    case _ => None
  }

  predicate IsAssignment(t: Token) {
    t.ASSIGN? || t.PLUS_EQ? || t.MINUS_EQ? || t.MUL_EQ? || t.DIV_EQ?
  }

  lemma UpdateGives(aop: AssignOp, old_: int32, y: int32)
    ensures Gives(Update(aop, Int(old_), Int(y)), Assigned(AssignToken(aop), old_, y))
  {
    hide TruncDiv, Wrap32, Quotient;
    if y != 0 { QuotientIs(old_, y); }
  }

  lemma ElementGives(aop: AssignOp, old_: int32, y: int32)
    ensures Gives(UpdateElement(aop, Int(old_), Int(y)), Stored(AssignToken(aop), old_, y))
  {
    hide TruncDiv, Wrap32, Quotient;
    if old_ != 0 { QuotientIs(y, old_); }
  }

  lemma AssignmentToken(t: Token) returns (aop: AssignOp)
    requires IsAssignment(t)
    ensures AssignToken(aop) == t
  {
    aop := match t
      case ASSIGN => Set case PLUS_EQ => PlusEq case MINUS_EQ => MinusEq case MUL_EQ => MulEq case _ => DivEq;
  }

  /** The statement `x t b;` for a variable that holds an integer: it is read, and running
      it leaves the number in the variable and everything else alone. */
  lemma AssignmentMeans(t: Token, x: string, b: Cst, rest: Input, src: Source, k: nat, env: Env, heap: Heap, depth: nat,
      fuel: nat, old_: int32, y: int32, h1: Heap)
    requires IsAssignment(t) && Fits(b, PREC_TEMP) && k < |src|
    requires x in env && env[x] == Int(old_) && EvalExpr(src, k, Erase(b), env, heap, depth, fuel) == Val(Int(y), h1)
    ensures var p := ParseStmt([IDENTIFIER(x), t] + Flatten(b) + [SEMICOLON] + rest);
            && p.Some? && p.value.1 == rest
            && var r := ExecStmt(src, k, p.value.0, env, heap, depth, fuel);
               if Assigned(t, old_, y).None? then r == StmtErr
               else
                 && r.Normal? && r.heap == h1 && x in r.env && Cut(r.env[x], Assigned(t, old_, y).value)
                 && r.env == env[x := r.env[x]]
  {
    hide Fits, Flatten, ParseStmt, Erase, EvalExpr, Update, Assigned, Cut;
    var aop := AssignmentToken(t);
    var c := CAssign(aop, CVar(x), b);
    VarText(x);
    AssignmentReads(c, rest);
    assert [IDENTIFIER(x)] + [t] + Flatten(b) + [SEMICOLON] + rest == [IDENTIFIER(x), t] + Flatten(b) + [SEMICOLON]
        + rest;
    UpdateGives(aop, old_, y);
    AssignmentRuns(src, k, aop, x, Erase(b), env, heap, depth, fuel, Int(y), h1);
  }

  lemma VarText(x: string)
    ensures Flatten(CVar(x)) == [IDENTIFIER(x)] && Erase(CVar(x)) == Var(x) && Fits(CVar(x), PREC_TEMP)
  {
  }

  lemma AssignmentReads(c: CSimple, rest: Input)
    requires SimpleFits(c) && c.CAssign?
    ensures ParseStmt(Flatten(c.lhs) + [AssignToken(c.aop)] + Flatten(c.rhs) + [SEMICOLON] + rest)
         == Some((Do(Assign(c.aop, Erase(c.lhs), Erase(c.rhs))), rest))
  {
    hide SimpleFits, Flatten, ParseStmt, Erase;
    StmtReads(CDo(c), rest);
  }

  lemma AssignmentRuns(src: Source, k: nat, aop: AssignOp, x: string, e: Expr, env: Env, heap: Heap, depth: nat,
      fuel: nat, y: Value, h1: Heap)
    requires k < |src| && x in env && EvalExpr(src, k, e, env, heap, depth, fuel) == Val(y, h1)
    ensures ExecStmt(src, k, Do(Assign(aop, Var(x), e)), env, heap, depth, fuel)
         == match Update(aop, env[x], y) case Some(w) => Normal(env[x := w], h1) case None => StmtErr
  {
    hide EvalExpr, Update;
  }

  /** The statement `a[i] t b;` for an element that holds an integer: it is read, and after
      running it the element reads as the number, every other element as before. The value
      is evaluated first, then the array, then the index. */
  lemma ElementMeans(t: Token, a: Cst, i: Cst, b: Cst, rest: Input, src: Source, k: nat, env: Env, heap: Heap,
      depth: nat, fuel: nat, y: int32, h1: Heap, arr: Value, h2: Heap, idx: Value, h3: Heap, old_: int32)
    requires IsAssignment(t) && Fits(CIndex(a, i), PREC_TEMP) && Fits(b, PREC_TEMP) && k < |src|
    requires EvalExpr(src, k, Erase(b), env, heap, depth, fuel) == Val(Int(y), h1)
    requires EvalExpr(src, k, Erase(a), env, h1, depth, fuel) == Val(arr, h2)
    requires EvalExpr(src, k, Erase(i), env, h2, depth, fuel) == Val(idx, h3)
    requires Reading(h3, arr, idx) == Some(Int(old_))
    ensures var p := ParseStmt(Flatten(a) + [LBRACKET] + Flatten(i) + [RBRACKET, t] + Flatten(b) + [SEMICOLON] + rest);
            && p.Some? && p.value.1 == rest
            && var r := ExecStmt(src, k, p.value.0, env, heap, depth, fuel);
               if Stored(t, old_, y).None? then r == StmtErr
               else
                 && r.Normal? && r.env == env && Reading(r.heap, arr, idx).Some?
                 && Cut(Reading(r.heap, arr, idx).value, Stored(t, old_, y).value)
                 && forall arr1: Value, idx1 | !(arr1.Arr? && arr1.handle == arr.handle && idx1 == idx) ::
                      Reading(r.heap, arr1, idx1) == Reading(h3, arr1, idx1)
  {
    hide Fits, Flatten, ParseStmt, Erase, EvalExpr, UpdateElement, Stored, Reading, StoreElement;
    var aop := AssignmentToken(t);
    var c := CAssign(aop, CIndex(a, i), b);
    FlattenUnfolds(CIndex(a, i));
    IndexErases(a, i);
    AssignmentReads(c, rest);
    assert Flatten(a) + [LBRACKET] + Flatten(i) + [RBRACKET] + [t] + Flatten(b) + [SEMICOLON] + rest
        == Flatten(a) + [LBRACKET] + Flatten(i) + [RBRACKET, t] + Flatten(b) + [SEMICOLON] + rest;
    ElementRuns(src, k, aop, Erase(a), Erase(i), Erase(b), env, heap, depth, fuel, Int(y), h1, arr, h2, idx, h3);
    ElementGives(aop, old_, y);
    ElementStored(h3, aop, arr, idx, old_, Int(y));
  }

  lemma IndexErases(a: Cst, i: Cst)
    ensures Erase(CIndex(a, i)) == Index(Erase(a), Erase(i))
  {
  }

  lemma ElementRuns(src: Source, k: nat, aop: AssignOp, a: Expr, i: Expr, b: Expr, env: Env, heap: Heap, depth: nat,
      fuel: nat, y: Value, h1: Heap, arr: Value, h2: Heap, idx: Value, h3: Heap)
    requires k < |src| && EvalExpr(src, k, b, env, heap, depth, fuel) == Val(y, h1)
    requires EvalExpr(src, k, a, env, h1, depth, fuel) == Val(arr, h2)
    requires EvalExpr(src, k, i, env, h2, depth, fuel) == Val(idx, h3)
    ensures ExecStmt(src, k, Do(Assign(aop, Index(a, i), b)), env, heap, depth, fuel)
         == match StoreElement(h3, aop, arr, idx, y) case Some(h) => Normal(env, h) case None => StmtErr
  {
    hide EvalExpr, StoreElement;
  }

  lemma ElementStored(h: Heap, aop: AssignOp, arr: Value, idx: Value, old_: int32, y: Value)
    requires Reading(h, arr, idx) == Some(Int(old_)) && y.Int?
    ensures var w := UpdateElement(aop, Int(old_), y);
            var r := StoreElement(h, aop, arr, idx, y);
            && (w.None? ==> r.None?)
            && (w.Some? && !w.value.Arr? ==>
                  && r.Some? && Reading(r.value, arr, idx) == w
                  && forall arr1: Value, idx1 | !(arr1.Arr? && arr1.handle == arr.handle && idx1 == idx) ::
                       Reading(r.value, arr1, idx1) == Reading(h, arr1, idx1))
  {
    hide ArrSet, ArrGet, InBounds;
    IntegerCell(h, arr, idx, old_);
    var w := UpdateElement(aop, Int(old_), y);
    if w.Some? && !w.value.Arr? {
      WritesWhereReads(h, arr, idx, w.value);
      var h1 := ArrSet(h, arr, idx, w.value).value;
      ReadBack(h, arr, idx, w.value, h1);
      forall arr1: Value, idx1 | !(arr1.Arr? && arr1.handle == arr.handle && idx1 == idx)
        ensures Reading(h1, arr1, idx1) == Reading(h, arr1, idx1)
      {
        OthersRead(h, arr, idx, w.value, h1, arr1, idx1);
      }
    }
  }

  lemma IntegerCell(h: Heap, arr: Value, idx: Value, n: int32)
    requires Reading(h, arr, idx) == Some(Int(n))
    ensures ArrGet(h, arr, idx) == Some((Int(n), h)) && arr.Arr?
  {
  }

  // ---- conditionals ----

  /** `if (c) A else B`: nil and 0 take the second branch, every other value the first. */
  lemma ConditionalMeans(c: Cst, thn: CBody, els: CBody, rest: Input, src: Source, k: nat, env: Env, heap: Heap,
      depth: nat, fuel: nat, v: Value, h1: Heap)
    requires Fits(c, PREC_TEMP) && BodyFits(thn) && BodyFits(els) && !OpenBody(thn)
    requires (OpenBody(els) ==> !Head(rest).ELSE?) && k < |src|
    requires EvalExpr(src, k, Erase(c), env, heap, depth, fuel) == Val(v, h1)
    ensures var ts := [IF, LPAREN] + Flatten(c) + [RPAREN] + BodyText(thn) + [ELSE] + BodyText(els) + rest;
            && ParseStmt(ts).Some? && ParseStmt(ts).value.1 == rest
            && ExecStmt(src, k, ParseStmt(ts).value.0, env, heap, depth, fuel)
            == ExecBranch(src, k, BodyOf(if v.Nil? || v == Int(0) then els else thn), env, h1, depth, fuel)
  {
    hide Fits, Flatten, ParseStmt, Erase, EvalExpr, BodyFits, OpenBody, BodyText, BodyOf, ExecBranch;
    var s := CIf(c, thn, CElse(els));
    assert ElseText(s.els) == [ELSE] + BodyText(els) && ElseOf(s.els) == Else(BodyOf(els)) && ElseFits(s.els);
    StmtReads(s, rest);
    assert StmtText(s) + rest == [IF, LPAREN] + Flatten(c) + [RPAREN] + BodyText(thn) + [ELSE] + BodyText(els) + rest;
  }

  // ---- loops and calls ----

  lemma SingleBreak()
    ensures var b := CSingle(CBreak);
            BodyFits(b) && !OpenBody(b) && BodyText(b) == [BREAK, SEMICOLON] && BodyOf(b) == Single(Break)
  {
    assert StmtFits(CBreak) && !Open(CBreak) && StmtText(CBreak) == [BREAK, SEMICOLON] && StmtOf(CBreak) == Break;
  }

  lemma BreakText(c: Cst)
    requires Fits(c, PREC_TEMP)
    ensures var s := CWhile(c, CSingle(CBreak));
            && StmtFits(s) && !Open(s) && StmtOf(s) == While(Erase(c), Single(Break))
            && StmtText(s) == [WHILE, LPAREN] + Flatten(c) + [RPAREN, BREAK, SEMICOLON]
  {
    hide Fits, Flatten, Erase, BodyFits, OpenBody, BodyText, BodyOf;
    SingleBreak();
  }

  /** `while (c) break;` evaluates its condition once, and nothing is left of it. */
  lemma BreakMeans(c: Cst, rest: Input, src: Source, k: nat, env: Env, heap: Heap, depth: nat, fuel: nat, v: Value,
      h1: Heap)
    requires Fits(c, PREC_TEMP) && k < |src| && fuel > 0
    requires EvalExpr(src, k, Erase(c), env, heap, depth, fuel) == Val(v, h1)
    ensures var ts := [WHILE, LPAREN] + Flatten(c) + [RPAREN, BREAK, SEMICOLON] + rest;
            && ParseStmt(ts).Some? && ParseStmt(ts).value.1 == rest
            && ExecStmt(src, k, ParseStmt(ts).value.0, env, heap, depth, fuel) == Normal(env, h1)
  {
    hide Fits, Flatten, ParseStmt, Erase, EvalExpr, StmtText, StmtOf, StmtFits, Open;
    BreakText(c);
    StmtReads(CWhile(c, CSingle(CBreak)), rest);
    BreakLeaves(src, k, Erase(c), env, heap, depth, fuel, v, h1);
  }

  lemma BreakLeaves(src: Source, k: nat, c: Expr, env: Env, heap: Heap, depth: nat, fuel: nat, v: Value, h1: Heap)
    requires k < |src| && fuel > 0 && EvalExpr(src, k, c, env, heap, depth, fuel) == Val(v, h1)
    ensures ExecStmt(src, k, While(c, Single(Break)), env, heap, depth, fuel) == Normal(env, h1)
  {
    hide EvalExpr;
    var s := While(c, Single(Break));
    assert Restrict(env, env.Keys) == env;
    assert ExecBody(src, k, s.body, env, h1, depth, fuel) == Broke(env, h1);
    assert Iterate(src, k, s, env, h1, depth, fuel) == Normal(env, h1);
  }

  /** Texts with a comma between any two. */
  function Commas(texts: seq<Input>): Input {
    if texts == [] then []
    else if |texts| == 1 then texts[0]
    else Commas(texts[..|texts| - 1]) + [COMMA] + texts[|texts| - 1]
  }

  function Texts(args: seq<Cst>): (ts: seq<Input>)
    ensures |ts| == |args|
  {
    seq(|args|, i requires 0 <= i < |args| => Flatten(args[i]))
  }

  lemma {:induction false} CommasFirst(texts: seq<Input>)
    requires |texts| > 1
    ensures Commas(texts) == texts[0] + [COMMA] + Commas(texts[1..])
  {
    var n := |texts| - 1;
    if n == 1 {
      assert texts[..1] == [texts[0]] && texts[1..] == [texts[1]];
    } else {
      CommasFirst(texts[..n]);
      assert texts[..n][1..] == texts[1..][..n - 1];
    }
  }

  lemma {:induction false} ItemsText(args: seq<Cst>)
    requires args != []
    ensures FlattenItems(args) == Commas(Texts(args)) + [RPAREN]
  {
    hide Flatten;
    if |args| > 1 {
      ItemsText(args[1..]);
      assert Texts(args)[1..] == Texts(args[1..]);
      CommasFirst(Texts(args));
    }
  }

  lemma {:induction false} ErasedInOrder(args: seq<Cst>)
    ensures forall i | 0 <= i < |args| :: EraseAll(args)[i] == Erase(args[i])
  {
    hide Erase;
    if args != [] { ErasedInOrder(args[1..]); }
  }

  /** A call as it is written: callee, parenthesis, arguments between commas, parenthesis.
      It is read as that call, with its arguments in that order. */
  lemma CallReads(f: Cst, args: seq<Cst>, rest: Input)
    requires Fits(CCall(f, args), PREC_TEMP) && Prec(Head(rest)) == 0
    ensures var p := ParseExpr(Flatten(f) + [LPAREN] + Commas(Texts(args)) + [RPAREN] + rest);
            && p.Some? && p.value.1 == rest && p.value.0.Call? && p.value.0.callee == Erase(f)
            && |p.value.0.args| == |args| && forall i | 0 <= i < |args| :: p.value.0.args[i] == Erase(args[i])
  {
    hide Fits, Prec, ParseExpr, Commas, Texts, FlattenItems;
    var c := CCall(f, args);
    ExprReads(c, rest);
    ErasedInOrder(args);
    if args == [] {
      NoTexts();
    } else {
      ItemsText(args);
    }
    CallText(f, args, Commas(Texts(args)));
    assert Flatten(c) + rest == Flatten(f) + [LPAREN] + Commas(Texts(args)) + [RPAREN] + rest;
  }

  lemma NoTexts()
    ensures Commas(Texts([])) == []
  {
  }

  lemma CallText(f: Cst, args: seq<Cst>, items: Input)
    requires if args == [] then items == [] else FlattenItems(args) == items + [RPAREN]
    ensures Flatten(CCall(f, args)) == Flatten(f) + [LPAREN] + items + [RPAREN]
    ensures Erase(CCall(f, args)) == Call(Erase(f), EraseAll(args))
  {
    hide FlattenItems, EraseAll;
  }

  predicate Distinct(names: seq<string>) {
    forall i, j | 0 <= i < j < |names| :: names[i] != names[j]
  }

  lemma {:induction false} Bound(params: seq<string>, vs: seq<Value>, i: nat)
    requires |params| == |vs| && i < |params| && Distinct(params)
    ensures params[i] in BindParams(params, vs) && BindParams(params, vs)[params[i]] == vs[i]
  {
    var n := |params| - 1;
    if i < n { Bound(params[..n], vs[..n], i); }
  }

  /** A call hands the arguments over in their order: a function that returns its
      parameter number `i`, whatever follows that `return`, gives argument number `i`,
      and a function that returns nothing gives nil. */
  lemma CallMeans(src: Source, k: nat, f: Expr, args: seq<Expr>, env: Env, heap: Heap, depth: nat, fuel: nat, fid: nat,
      h1: Heap, vs: seq<Value>, h2: Heap, i: nat)
    requires k < |src| && fid < |src| && f != Var("array") && depth < 2000 && fuel > 0
    requires EvalExpr(src, k, f, env, heap, depth, fuel) == Val(Fun(fid), h1)
    requires EvalArgs(src, k, args, env, h1, depth, fuel) == Vals(vs, h2)
    requires |vs| == |src[fid].params| && Distinct(src[fid].params)
    ensures src[fid].body == [] ==> EvalExpr(src, k, Call(f, args), env, heap, depth, fuel) == Val(Nil, h2)
    ensures i < |vs| && src[fid].params[i] != "nil" && src[fid].body != []
            && src[fid].body[0] == Return(Var(src[fid].params[i])) ==>
              EvalExpr(src, k, Call(f, args), env, heap, depth, fuel) == Val(vs[i], h2)
  {
    hide EvalArgs, BindParams;
    var g := src[fid];
    if i < |vs| { Bound(g.params, vs, i); }
    var env1 := BindParams(g.params, vs);
    assert g.body == [] ==> ExecStmts(src, fid, g.body, env1, h2, depth + 1, fuel - 1) == Normal(env1, h2);
    if g.body != [] && i < |vs| && g.params[i] != "nil" && g.body[0] == Return(Var(g.params[i])) {
      assert EvalExpr(src, fid, Var(g.params[i]), env1, h2, depth + 1, fuel - 1) == Val(vs[i], h2);
      assert ExecStmt(src, fid, g.body[0], env1, h2, depth + 1, fuel - 1) == Returned(vs[i], h2);
      assert ExecStmts(src, fid, g.body, env1, h2, depth + 1, fuel - 1) == Returned(vs[i], h2);
    }
  }
}
