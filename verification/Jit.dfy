/** The JIT (src/jit_runtime.h, src/jit_runtime.cpp): what each instruction is lowered
    to, and the compile loop that emits it. */
module Jit {
  import opened Values
  import opened Bytecode
  import opened MicroMachine
  import opened Machine

  const FLOAT_ZERO: int32 := 0
  const NIL_CELL: Cell := Cell(0, TYPE_NIL)

  /** The instructions of `binary_operation` between the type checks and the exit. */
  function Middle(op: BinOp, a: nat, c: nat, err: Label): seq<Mop> {
    match op
    case Add => [AddD(0, c)] + [StoreD(a, 0), StoreType(a, TYPE_INT)]
    case Sub => [SubD(0, c)] + [StoreD(a, 0), StoreType(a, TYPE_INT)]
    case Mul => [ImulD(0, c)] + [StoreD(a, 0), StoreType(a, TYPE_INT)]
    case Div => [CmpD(c, 0), Jcc(E, err), Cdq(2, 0), Idiv(2, 0, c)] + [StoreD(a, 0), StoreType(a, TYPE_INT)]
    case Lt => [CmpTD(0, c), Set(L, 3), Movzx(4, 3), StoreD(a, 4), StoreType(a, TYPE_INT)]
    case _ => [CmpTD(0, c), Set(Cond.LE, 3), Movzx(4, 3), StoreD(a, 4), StoreType(a, TYPE_INT)]
  }

  /** The exit with the error code, and the place behind it. */
  function Exit(i: nat): seq<Mop> {
    [Bind(Local(i, 0)), MovAbs(1, NIL_CELL), AddImm(1, 1), Ret(1), Bind(Local(i, 2))]
  }

  function LowerBinary(i: nat, op: BinOp, a: nat, b: nat, c: nat): seq<Mop> {
    [CmpType(b, TYPE_INT), Jcc(NE, Local(i, 1)), CmpType(c, TYPE_INT), Jcc(NE, Local(i, 0)), LoadD(0, b)]
    + Middle(op, a, c, Local(i, 0)) + [Jump(Local(i, 2))]
    + [Bind(Local(i, 1)), CmpType(b, TYPE_FLOAT), Jcc(NE, Local(i, 0)), CmpType(c, TYPE_FLOAT), Jcc(NE, Local(i, 0)),
       Other, Jump(Local(i, 2))]
    + Exit(i)
  }

  /** `modulo_operation`. */
  function LowerMod(i: nat, a: nat, b: nat, c: nat): seq<Mop> {
    [CmpType(b, TYPE_INT), Jcc(NE, Local(i, 0)), CmpType(c, TYPE_INT), Jcc(NE, Local(i, 0)), LoadD(0, b)]
    + [CmpD(c, 0), Jcc(E, Local(i, 0)), Cdq(2, 0), Idiv(2, 0, c), MovTT(0, 2)]
    + [StoreD(a, 0), StoreType(a, TYPE_INT), LoadQ(3, a), Jump(Local(i, 2))]
    + Exit(i)
  }

  function LowerNeg(i: nat, a: nat, b: nat): seq<Mop> {
    [CmpType(b, TYPE_INT), Jcc(NE, Local(i, 1)), LoadD(0, b), NegD(0), StoreD(a, 0), StoreType(a, TYPE_INT),
        Jump(Local(i, 2))]
    + [Bind(Local(i, 1)), CmpType(b, TYPE_FLOAT), Jcc(NE, Local(i, 0)), Other, StoreType(a, TYPE_FLOAT),
        Jump(Local(i, 2))]
    + Exit(i)
  }

  /** `cjmp`: an integer or a float is compared with zero, anything else with the type
      word of an empty array. */
  function LowerJump(i: nat, taken: bool, a: nat, l: Label): seq<Mop> {
    var cc := if taken then NE else E;
    [CmpType(a, TYPE_INT), Jcc(NE, Local(i, 0)), CmpD(a, 0), Jcc(cc, l), Jump(Local(i, 2))]
    + [Bind(Local(i, 0)), CmpType(a, TYPE_FLOAT), Jcc(NE, Local(i, 1)), CmpD(a, FLOAT_ZERO), Jcc(cc, l),
        Jump(Local(i, 2))]
    + [Bind(Local(i, 1)), CmpType(a, TYPE_OBJ), Jcc(cc, l), Jump(Local(i, 2))]
    + [Bind(Local(i, 2))]
  }

  function LowerEq(equal: bool, a: nat, b: nat, c: nat): seq<Mop> {
    [LoadQ(1, b), LoadQ(2, c), SetMark(1), SetMark(2), CmpTT(1, 2)] + [Set(if equal then E else NE, 3)]
    + [Movzx(4, 3), StoreD(a, 4), StoreType(a, TYPE_INT)]
  }

  function TargetOf(i: nat, ins: Instr): int { i + 1 + ins.Sbx() }

  /** The code for the instruction at index `i`; `None` where `compile` throws. */
  function Lower(p: Program, i: nat, ins: Instr): Option<seq<Mop>> {
    if !ins.known then None
    else
      match ins.op
      case ADD => Some(LowerBinary(i, Add, ins.a, ins.b, ins.c))
      case SUB => Some(LowerBinary(i, Sub, ins.a, ins.b, ins.c))
      case MUL => Some(LowerBinary(i, Mul, ins.a, ins.b, ins.c))
      case DIV => Some(LowerBinary(i, Div, ins.a, ins.b, ins.c))
      case LT => Some(LowerBinary(i, Lt, ins.a, ins.b, ins.c))
      case LE => Some(LowerBinary(i, Le, ins.a, ins.b, ins.c))
      case MOD => Some(LowerMod(i, ins.a, ins.b, ins.c))
      case NEG => Some(LowerNeg(i, ins.a, ins.b))
      case EQ => Some(LowerEq(true, ins.a, ins.b, ins.c))
      case NEQ => Some(LowerEq(false, ins.a, ins.b, ins.c))
      case LOADINT => if ins.bx < |p.constants|
          then Some([MovAbs(1, Cell(p.constants[ins.bx], TYPE_INT)), StoreQ(ins.a, 1)]) else None
      case LOADNIL => Some([MovAbs(1, NIL_CELL), StoreQ(ins.a, 1)])
      case MOVE => Some([LoadQ(1, ins.b), StoreQ(ins.a, 1)])
      case JMP => if TargetOf(i, ins) < 0 then None else Some([Jump(Target(TargetOf(i, ins)))])
      case JMPT => if TargetOf(i, ins) < 0 then None else Some(LowerJump(i, true, ins.a, Target(TargetOf(i, ins))))
      case JMPF => if TargetOf(i, ins) < 0 then None else Some(LowerJump(i, false, ins.a, Target(TargetOf(i, ins))))
      case RETURN => Some([LoadQ(1, ins.a), StoreQ(0, 1), Ret(1)])
      case RETURNNIL => Some([MovAbs(1, NIL_CELL), StoreQ(0, 1), Ret(1)])
      // a call through a register is skipped
      case INVOKEDYNAMIC => Some([])
      case NATIVE_CALL => Some([Other])
      case LOADFLOAT => Some([Other])
      case ARRGET => Some([Other])
      case ARRSET => Some([Other])
      case _ => None
  }

  predicate IsJump(ins: Instr) {
    ins.known && (ins.op.JMP? || ins.op.JMPT? || ins.op.JMPF?)
  }

  /** The indices that some jump of the function goes to. */
  function Targets(code: seq<Instr>): set<int> {
    set i | 0 <= i < |code| && IsJump(code[i]) :: TargetOf(i, code[i])
  }

  /** The code of the first `n` instructions, with the labels bound in front of those
      that are jumped to. */
  function Assembled(p: Program, code: seq<Instr>, n: nat): Option<seq<Mop>>
    requires n <= |code|
  {
    if n == 0 then Some([])
    else
      var before :- Assembled(p, code, n - 1);
      var block :- Lower(p, n - 1, code[n - 1]);
      Some(before + (if n - 1 in Targets(code) then [Bind(Target(n - 1))] else []) + block)
  }

  /** What `compile` returns: finalizing fails for a label that was never bound. */
  function Compiled(p: Program, code: seq<Instr>): Option<seq<Mop>> {
    var ms :- Assembled(p, code, |code|);
    if forall l | l in Targets(code) :: 0 <= l < |code| then Some(ms) else None
  }

  // ---- the compiler ----

  /** The assembler and the emission functions of `JitFuncInfo`. */
  class JitFuncInfo {
    var cc: seq<Mop>

    constructor ()
      ensures cc == []
    {
      cc := [];
    }

    method Emit(m: Mop)
      modifies this
      ensures cc == old(cc) + [m]
    {
      cc := cc + [m];
    }

    /** Several instructions in a row. */
    method EmitAll(ms: seq<Mop>)
      modifies this
      ensures cc == old(cc) + ms
    {
      for k := 0 to |ms|
        invariant cc == old(cc) + ms[..k]
      {
        Emit(ms[k]);
        assert ms[..k + 1] == ms[..k] + [ms[k]];
      }
      assert ms[..|ms|] == ms;
    }

    /** The error exit that several operations end with. */
    method EmitExit(i: nat)
      modifies this
      ensures cc == old(cc) + Exit(i)
    {
      EmitAll([Bind(Local(i, 0)), MovAbs(1, NIL_CELL), AddImm(1, 1), Ret(1), Bind(Local(i, 2))]);
    }

    method EmitMiddle(op: BinOp, a: nat, c: nat, err: Label)
      modifies this
      ensures cc == old(cc) + Middle(op, a, c, err)
    {
      match op {
        case Add => Emit(AddD(0, c));
        case Sub => Emit(SubD(0, c));
        case Mul => Emit(ImulD(0, c));
        case Div => EmitAll([CmpD(c, 0), Jcc(E, err), Cdq(2, 0), Idiv(2, 0, c)]);
        case Lt => EmitAll([CmpTD(0, c), Set(L, 3), Movzx(4, 3), StoreD(a, 4), StoreType(a, TYPE_INT)]);
        case _ => EmitAll([CmpTD(0, c), Set(Cond.LE, 3), Movzx(4, 3), StoreD(a, 4), StoreType(a, TYPE_INT)]);
      }
      if op.Add? || op.Sub? || op.Mul? || op.Div? {
        EmitAll([StoreD(a, 0), StoreType(a, TYPE_INT)]);
      }
    }

    /** `binary_operation`. */
    method BinaryOperation(i: nat, op: BinOp, a: nat, b: nat, c: nat)
      modifies this
      ensures cc == old(cc) + LowerBinary(i, op, a, b, c)
    {
      hide Middle, Exit;
      var err, sf, nxt := Local(i, 0), Local(i, 1), Local(i, 2);
      EmitAll([CmpType(b, TYPE_INT), Jcc(NE, sf), CmpType(c, TYPE_INT), Jcc(NE, err), LoadD(0, b)]);
      EmitMiddle(op, a, c, err);
      Emit(Jump(nxt));
      EmitAll([Bind(sf), CmpType(b, TYPE_FLOAT), Jcc(NE, err), CmpType(c, TYPE_FLOAT), Jcc(NE, err), Other, Jump(nxt)]);
      EmitExit(i);
    }

    method ModuloOperation(i: nat, a: nat, b: nat, c: nat)
      modifies this
      ensures cc == old(cc) + LowerMod(i, a, b, c)
    {
      var err, nxt := Local(i, 0), Local(i, 2);
      EmitAll([CmpType(b, TYPE_INT), Jcc(NE, err), CmpType(c, TYPE_INT), Jcc(NE, err), LoadD(0, b)]);
      EmitAll([CmpD(c, 0), Jcc(E, err), Cdq(2, 0), Idiv(2, 0, c), MovTT(0, 2)]);
      EmitAll([StoreD(a, 0), StoreType(a, TYPE_INT), LoadQ(3, a), Jump(nxt)]);
      EmitExit(i);
    }

    method Neg(i: nat, a: nat, b: nat)
      modifies this
      ensures cc == old(cc) + LowerNeg(i, a, b)
    {
      var err, sf, nxt := Local(i, 0), Local(i, 1), Local(i, 2);
      EmitAll([CmpType(b, TYPE_INT), Jcc(NE, sf), LoadD(0, b), NegD(0), StoreD(a, 0), StoreType(a, TYPE_INT),
          Jump(nxt)]);
      EmitAll([Bind(sf), CmpType(b, TYPE_FLOAT), Jcc(NE, err), Other, StoreType(a, TYPE_FLOAT), Jump(nxt)]);
      EmitExit(i);
    }

    /** `cjmp`. */
    method Cjmp(i: nat, jmpT: bool, a: nat, l: Label)
      modifies this
      ensures cc == old(cc) + LowerJump(i, jmpT, a, l)
    {
      var sf, obj, nxt := Local(i, 0), Local(i, 1), Local(i, 2);
      var cond := if jmpT then NE else E;
      EmitAll([CmpType(a, TYPE_INT), Jcc(NE, sf), CmpD(a, 0), Jcc(cond, l), Jump(nxt)]);
      EmitAll([Bind(sf), CmpType(a, TYPE_FLOAT), Jcc(NE, obj), CmpD(a, FLOAT_ZERO), Jcc(cond, l), Jump(nxt)]);
      EmitAll([Bind(obj), CmpType(a, TYPE_OBJ), Jcc(cond, l), Jump(nxt)]);
      Emit(Bind(nxt));
    }

    method Equality(equal: bool, a: nat, b: nat, c: nat)
      modifies this
      ensures cc == old(cc) + LowerEq(equal, a, b, c)
    {
      EmitAll([LoadQ(1, b), LoadQ(2, c), SetMark(1), SetMark(2), CmpTT(1, 2)]);
      Emit(Set(if equal then E else NE, 3));
      EmitAll([Movzx(4, 3), StoreD(a, 4), StoreType(a, TYPE_INT)]);
    }

    /** The switch of `compile`: the code for one instruction, or an exception. */
    method Instruction(p: Program, i: nat, ins: Instr) returns (ok: bool)
      modifies this
      ensures ok == Lower(p, i, ins).Some? && (ok ==> cc == old(cc) + Lower(p, i, ins).value)
    {
      hide LowerBinary, LowerMod, LowerNeg, LowerJump, LowerEq;
      if !ins.known { return false; }
      ok := true;
      match ins.op
      case ADD => BinaryOperation(i, Add, ins.a, ins.b, ins.c);
      case SUB => BinaryOperation(i, Sub, ins.a, ins.b, ins.c);
      case MUL => BinaryOperation(i, Mul, ins.a, ins.b, ins.c);
      case DIV => BinaryOperation(i, Div, ins.a, ins.b, ins.c);
      case LT => BinaryOperation(i, Lt, ins.a, ins.b, ins.c);
      case LE => BinaryOperation(i, Le, ins.a, ins.b, ins.c);
      case MOD => ModuloOperation(i, ins.a, ins.b, ins.c);
      case NEG => Neg(i, ins.a, ins.b);
      case EQ => Equality(true, ins.a, ins.b, ins.c);
      case NEQ => Equality(false, ins.a, ins.b, ins.c);
      case _ => ok := Rest(p, i, ins);
    }

    method Rest(p: Program, i: nat, ins: Instr) returns (ok: bool)
      requires ins.known && BinaryOf(ins.op).None? && !ins.op.NEG?
      modifies this
      ensures ok == Lower(p, i, ins).Some? && (ok ==> cc == old(cc) + Lower(p, i, ins).value)
    {
      hide LowerBinary, LowerMod, LowerNeg, LowerJump, LowerEq;
      ok := true;
      match ins.op
      case LOADINT =>
        if ins.bx >= |p.constants| { return false; }
        Emit(MovAbs(1, Cell(p.constants[ins.bx], TYPE_INT)));
        Emit(StoreQ(ins.a, 1));
      case LOADNIL =>
        Emit(MovAbs(1, NIL_CELL));
        Emit(StoreQ(ins.a, 1));
      case MOVE =>
        Emit(LoadQ(1, ins.b));
        Emit(StoreQ(ins.a, 1));
      case JMP =>
        if TargetOf(i, ins) < 0 { return false; }
        Emit(Jump(Target(TargetOf(i, ins))));
      case JMPT =>
        if TargetOf(i, ins) < 0 { return false; }
        Cjmp(i, true, ins.a, Target(TargetOf(i, ins)));
      case JMPF =>
        if TargetOf(i, ins) < 0 { return false; }
        Cjmp(i, false, ins.a, Target(TargetOf(i, ins)));
      case RETURN =>
        Emit(LoadQ(1, ins.a));
        Emit(StoreQ(0, 1));
        Emit(Ret(1));
      case RETURNNIL =>
        Emit(MovAbs(1, NIL_CELL));
        Emit(StoreQ(0, 1));
        Emit(Ret(1));
      case INVOKEDYNAMIC =>
      case NATIVE_CALL => Emit(Other);
      case LOADFLOAT => Emit(Other);
      case ARRGET => Emit(Other);
      case ARRSET => Emit(Other);
      case _ => ok := false;
    }
  }

  /** The first loop of `compile`: a label for every place that is jumped to. */
  method FindLabels(code: seq<Instr>) returns (labels: set<int>)
    ensures labels == Targets(code)
  {
    labels := {};
    for i := 0 to |code|
      invariant labels == set k | 0 <= k < i && IsJump(code[k]) :: TargetOf(k, code[k])
    {
      if IsJump(code[i]) { labels := labels + {TargetOf(i, code[i])}; }
    }
  }

  /** `compile`. */
  method Compile(p: Program, code: seq<Instr>) returns (r: Option<seq<Mop>>)
    ensures r == Compiled(p, code)
  {
    hide Lower;
    var labels := FindLabels(code);
    var info := new JitFuncInfo();
    for i := 0 to |code|
      invariant fresh(info) && Assembled(p, code, i) == Some(info.cc)
    {
      ghost var before := info.cc;
      if i in labels { info.Emit(Bind(Target(i))); }
      var ok := info.Instruction(p, i, code[i]);
      if !ok {
        NotAssembled(p, code, i + 1, |code|);
        return None;
      }
      assert info.cc == before + (if i in Targets(code) then [Bind(Target(i))] else []) + Lower(p, i, code[i]).value;
    }
    var all := forall l | l in labels :: 0 <= l < |code|;
    r := if all then Some(info.cc) else None;
  }

  lemma {:induction false} NotAssembled(p: Program, code: seq<Instr>, n: nat, m: nat)
    requires n <= m <= |code| && Assembled(p, code, n).None?
    ensures Assembled(p, code, m).None?
    decreases m
  {
    hide Lower;
    if n < m { NotAssembled(p, code, n, m - 1); }
  }
}
