/** The lowered code does what the interpreter does, for functions on integers. */
module JitCorrect {
  import opened Values
  import opened Bytecode
  import opened MicroMachine
  import opened Jit
  import opened Division
  import Machine

  /** The cell holds the value; an array's mark bit may be set or not. */
  predicate Rep(v: Value, c: Cell) {
    match v
    case Nil => c == Cell(0, TYPE_NIL)
    case Int(i) => c == Cell(i, TYPE_INT)
    case Fun(fid) => fid < TWO_31 && c == Cell(fid, TYPE_CALLABLE)
    case Arr(handle, len) =>
      handle < TWO_31 && c.lo == handle && (c.hi == 4 * len + TYPE_OBJ || c.hi == 4 * len + TYPE_OBJ + 2)
  }

  /** The type words: those of arrays are odd, with the mark in bit 1 and the length above
      it, and bit 2 is the class that comparisons look at. No value has a float's. */
  lemma TypeWords(v: Value, c: Cell)
    requires Rep(v, c)
    ensures match v case Nil => c.hi == 16 case Int(_) => c.hi == 4 case Fun(_) => c.hi == 12
            case Arr(_, len) => c.hi == 4 * len + 1 || c.hi == 4 * len + 3
    ensures c.hi / 4 % 2 == v.Class() && c.lo == v.Payload() && TYPE_FLOAT == 8 != c.hi && (c.hi % 2 == 1 <==> v.Arr?)
  {
    if v.Arr? { HeaderBack(c.hi, v.len); }
  }

  /** The window holds the registers of the frame. */
  ghost predicate Shown(vm: Machine.VM, mem: map<nat, Cell>) {
    forall r: nat | r < BYTE :: r in mem && Rep(vm.Reg(r), mem[r])
  }

  /** The code `b` stands at `pos`. */
  ghost predicate Here(ms: seq<Mop>, pos: nat, b: seq<Mop>) {
    BoundOnce(ms) && pos + |b| <= |ms| && forall k | 0 <= k < |b| :: ms[pos + k] == b[k]
  }

  lemma HereParts(ms: seq<Mop>, pos: nat, b: seq<Mop>, b1: seq<Mop>, b2: seq<Mop>)
    requires Here(ms, pos, b) && b == b1 + b2
    ensures Here(ms, pos, b1) && Here(ms, pos + |b1|, b2)
  {
    forall k | 0 <= k < |b1| ensures ms[pos + k] == b1[k] { assert b[k] == b1[k]; }
    forall k | 0 <= k < |b2| ensures ms[pos + |b1| + k] == b2[k] { assert b[|b1| + k] == b2[k]; }
  }

  lemma HereAt(ms: seq<Mop>, pos: nat, b: seq<Mop>, k: nat)
    requires Here(ms, pos, b) && k < |b|
    ensures BoundOnce(ms) && pos + |b| <= |ms| && ms[pos + k] == b[k]
  {
  }

  /** One instruction of a block that falls through. */
  lemma Walk(ms: seq<Mop>, s: Run, pos: nat, b: seq<Mop>, k: nat, st: MState)
    requires Here(ms, pos, b) && k < |b| && Reaches(ms, s, At(pos + k, st)) && Exec(b[k], st).Fall?
    ensures Reaches(ms, s, At(pos + k + 1, Exec(b[k], st).st))
  {
    hide Exec, Reaches;
    ReachesNext(ms, s, At(pos + k, st));
  }

  /** A jump to a label that is bound at `j`. */
  lemma Leap(ms: seq<Mop>, s: Run, pc: nat, st: MState, l: Label, j: nat)
    requires BoundOnce(ms) && pc < |ms| && j < |ms| && ms[j] == Bind(l)
    requires Reaches(ms, s, At(pc, st)) && Exec(ms[pc], st) == Goto(l, st)
    ensures Reaches(ms, s, At(j + 1, st))
  {
    hide Reaches;
    FindIs(ms, l, j);
    ReachesNext(ms, s, At(pc, st));
    ReachesNext(ms, s, At(j, st));
  }

  // ---- the type checks and the operations ----

  /** The checks pass and the left operand is in register 0. */
  lemma Head(ms: seq<Mop>, s: Run, pos: nat, e1: Label, e2: Label, b: nat, c: nat, st: MState) returns (st1: MState)
    requires Here(ms, pos, [CmpType(b, TYPE_INT), Jcc(NE, e1), CmpType(c, TYPE_INT), Jcc(NE, e2), LoadD(0, b)])
    requires Reaches(ms, s, At(pos, st))
    requires b in st.mem && c in st.mem && st.mem[b].hi == TYPE_INT && st.mem[c].hi == TYPE_INT
    ensures Reaches(ms, s, At(pos + 5, st1)) && st1.mem == st.mem && 0 in st1.temps && st1.temps[0] == T32(st.mem[b].lo)
  {
    hide Reaches, Here;
    var blk := [CmpType(b, TYPE_INT), Jcc(NE, e1), CmpType(c, TYPE_INT), Jcc(NE, e2), LoadD(0, b)];
    st1 := st;
    for k := 0 to 5
      invariant Reaches(ms, s, At(pos + k, st1)) && st1.mem == st.mem
      invariant (k == 1 || k == 3) ==> st1.eq
      invariant k == 5 ==> 0 in st1.temps && st1.temps[0] == T32(st.mem[b].lo)
    {
      Walk(ms, s, pos, blk, k, st1);
      st1 := Exec(blk[k], st1).st;
    }
  }

  /** The result in register `t` goes to slot `a` as an integer. */
  lemma StoreInt(ms: seq<Mop>, s: Run, pos: nat, a: nat, t: nat, st: MState) returns (st1: MState)
    requires Here(ms, pos, [StoreD(a, t), StoreType(a, TYPE_INT)]) && Reaches(ms, s, At(pos, st))
    requires a in st.mem && Has32(st, t)
    ensures Reaches(ms, s, At(pos + 2, st1)) && st1.mem == st.mem[a := Cell(st.temps[t].d, TYPE_INT)]
  {
    hide Reaches, Here;
    var blk := [StoreD(a, t), StoreType(a, TYPE_INT)];
    Walk(ms, s, pos, blk, 0, st);
    st1 := Exec(blk[0], st).st;
    Walk(ms, s, pos, blk, 1, st1);
    st1 := Exec(blk[1], st1).st;
  }

  /** Division on 32 bits: the dividend in two registers is the number itself, and
      quotient and remainder fit. */
  lemma DivisionFits(x: int32, y: int32)
    requires Divides(x, y)
    ensures Dividend(if x < 0 then -1 else 0, x) == x
    ensures var q := TruncDiv(x, y); -TWO_31 <= q < TWO_31 && -TWO_31 <= x - y * q < TWO_31
    ensures Wrap32(TruncDiv(x, y)) == TruncDiv(x, y) && Wrap32(x - y * TruncDiv(x, y)) == x - y * TruncDiv(x, y)
  {
    var x1: int, y1: int := x, y;
    var m: nat, n: nat := if x1 < 0 then 0 - x1 else x1, if y1 < 0 then 0 - y1 else y1;
    QuotientBounds(m, n);
    SignsDoNotMatter(x, y, m, n);
    WrapSmall(TruncDiv(x, y));
    WrapSmall(x - y * TruncDiv(x, y));
  }

  /** What the operation between the checks and the exit computes. */
  lemma Middles(ms: seq<Mop>, s: Run, pos: nat, op: BinOp, a: nat, c: nat, err: Label, st: MState) returns (st1: MState)
    requires Here(ms, pos, Middle(op, a, c, err)) && Reaches(ms, s, At(pos, st))
    requires Has32(st, 0) && a in st.mem && c in st.mem
    requires !op.Mod? && !op.Eq? && !op.Neq? && IntOp(op, st.temps[0].d, st.mem[c].lo).Some?
    ensures Reaches(ms, s, At(pos + |Middle(op, a, c, err)|, st1))
    ensures st1.mem == st.mem[a := Cell(IntOp(op, st.temps[0].d, st.mem[c].lo).value.i, TYPE_INT)]
  {
    hide Reaches, Here;
    if op.Add? || op.Sub? || op.Mul? {
      st1 := MiddleArith(ms, s, pos, op, a, c, err, st);
    } else if op.Div? {
      st1 := MiddleDiv(ms, s, pos, a, c, err, st);
    } else {
      st1 := MiddleCmp(ms, s, pos, op, a, c, err, st);
    }
  }

  lemma MiddleArith(ms: seq<Mop>, s: Run, pos: nat, op: BinOp, a: nat, c: nat, err: Label,
      st: MState) returns (st1: MState)
    requires Here(ms, pos, Middle(op, a, c, err)) && Reaches(ms, s, At(pos, st))
    requires Has32(st, 0) && a in st.mem && c in st.mem && (op.Add? || op.Sub? || op.Mul?)
    ensures Reaches(ms, s, At(pos + 3, st1))
    ensures st1.mem == st.mem[a := Cell(IntOp(op, st.temps[0].d, st.mem[c].lo).value.i, TYPE_INT)]
  {
    hide Reaches, Here;
    var store := [StoreD(a, 0), StoreType(a, TYPE_INT)];
    var first := if op.Add? then [AddD(0, c)] else if op.Sub? then [SubD(0, c)] else [ImulD(0, c)];
    HereParts(ms, pos, Middle(op, a, c, err), first, store);
    Walk(ms, s, pos, first, 0, st);
    st1 := StoreInt(ms, s, pos + 1, a, 0, Exec(first[0], st).st);
  }

  lemma MiddleDiv(ms: seq<Mop>, s: Run, pos: nat, a: nat, c: nat, err: Label, st: MState) returns (st1: MState)
    requires Here(ms, pos, Middle(Div, a, c, err)) && Reaches(ms, s, At(pos, st))
    requires Has32(st, 0) && a in st.mem && c in st.mem && Divides(st.temps[0].d, st.mem[c].lo)
    ensures Reaches(ms, s, At(pos + 6, st1))
    ensures st1.mem == st.mem[a := Cell(Wrap32(TruncDiv(st.temps[0].d, st.mem[c].lo)), TYPE_INT)]
  {
    hide Reaches, Here, TruncDiv, Wrap32, Dividend;
    var head := [CmpD(c, 0), Jcc(E, err), Cdq(2, 0), Idiv(2, 0, c)];
    HereParts(ms, pos, Middle(Div, a, c, err), head, [StoreD(a, 0), StoreType(a, TYPE_INT)]);
    st1 := Divide(ms, s, pos, head, c, err, st);
    st1 := StoreInt(ms, s, pos + 4, a, 0, st1);
  }

  /** Quotient in register 0, remainder in register 2. */
  lemma Divide(ms: seq<Mop>, s: Run, pos: nat, b: seq<Mop>, c: nat, err: Label, st: MState) returns (st1: MState)
    requires |b| >= 4 && b[0] == CmpD(c, 0) && b[1] == Jcc(E, err) && b[2] == Cdq(2, 0) && b[3] == Idiv(2, 0, c)
    requires Here(ms, pos, b) && Reaches(ms, s, At(pos, st))
    requires Has32(st, 0) && c in st.mem && Divides(st.temps[0].d, st.mem[c].lo)
    ensures Reaches(ms, s, At(pos + 4, st1)) && st1.mem == st.mem && Has32(st1, 0) && Has32(st1, 2)
    ensures var x, y := st.temps[0].d, st.mem[c].lo;
            st1.temps[0].d == Wrap32(TruncDiv(x, y)) && st1.temps[2].d == Wrap32(x - y * TruncDiv(x, y))
  {
    hide Reaches, Here, TruncDiv, Wrap32, Dividend;
    DivisionFits(st.temps[0].d, st.mem[c].lo);
    Walk(ms, s, pos, b, 0, st);
    st1 := Exec(b[0], st).st;
    Walk(ms, s, pos, b, 1, st1);
    Walk(ms, s, pos, b, 2, st1);
    st1 := Exec(b[2], st1).st;
    Walk(ms, s, pos, b, 3, st1);
    st1 := Exec(b[3], st1).st;
  }

  lemma MiddleCmp(ms: seq<Mop>, s: Run, pos: nat, op: BinOp, a: nat, c: nat, err: Label,
      st: MState) returns (st1: MState)
    requires Here(ms, pos, Middle(op, a, c, err)) && Reaches(ms, s, At(pos, st))
    requires Has32(st, 0) && a in st.mem && c in st.mem && (op.Lt? || op.Le?)
    ensures Reaches(ms, s, At(pos + 5, st1))
    ensures st1.mem == st.mem[a := Cell(IntOp(op, st.temps[0].d, st.mem[c].lo).value.i, TYPE_INT)]
  {
    hide Reaches, Here;
    var cc := if op.Lt? then L else Cond.LE;
    var head := [CmpTD(0, c), Set(cc, 3), Movzx(4, 3)];
    HereParts(ms, pos, Middle(op, a, c, err), head, [StoreD(a, 4), StoreType(a, TYPE_INT)]);
    st1 := CompareInto(ms, s, pos, cc, c, st);
    st1 := StoreInt(ms, s, pos + 3, a, 4, st1);
  }

  /** The outcome of a comparison, as a number in register 4. */
  lemma CompareInto(ms: seq<Mop>, s: Run, pos: nat, cc: Cond, c: nat, st: MState) returns (st1: MState)
    requires Here(ms, pos, [CmpTD(0, c), Set(cc, 3), Movzx(4, 3)]) && Reaches(ms, s, At(pos, st))
    requires Has32(st, 0) && c in st.mem && (cc.L? || cc.LE?)
    ensures Reaches(ms, s, At(pos + 3, st1)) && st1.mem == st.mem && Has32(st1, 4)
    ensures var x, y := st.temps[0].d, st.mem[c].lo;
            st1.temps[4].d == if (if cc.L? then x < y else x <= y) then 1 else 0
  {
    hide Reaches, Here;
    var head := [CmpTD(0, c), Set(cc, 3), Movzx(4, 3)];
    Walk(ms, s, pos, head, 0, st);
    st1 := Exec(head[0], st).st;
    Walk(ms, s, pos, head, 1, st1);
    st1 := Exec(head[1], st1).st;
    Walk(ms, s, pos, head, 2, st1);
    st1 := Exec(head[2], st1).st;
  }

  // ---- one lemma per kind of instruction ----

  /** `binary_operation` on two integers, for which the interpreter has a result. */
  lemma BinarySim(ms: seq<Mop>, s: Run, pos: nat, i: nat, op: BinOp, a: nat, b: nat, c: nat,
      st: MState) returns (st1: MState)
    requires Here(ms, pos, LowerBinary(i, op, a, b, c)) && Reaches(ms, s, At(pos, st))
    requires a in st.mem && b in st.mem && c in st.mem && st.mem[b].hi == TYPE_INT && st.mem[c].hi == TYPE_INT
    requires !op.Mod? && !op.Eq? && !op.Neq? && IntOp(op, st.mem[b].lo, st.mem[c].lo).Some?
    ensures Reaches(ms, s, At(pos + |LowerBinary(i, op, a, b, c)|, st1))
    ensures st1.mem == st.mem[a := Cell(IntOp(op, st.mem[b].lo, st.mem[c].lo).value.i, TYPE_INT)]
  {
    hide Reaches, Here, Middle, IntOp;
    var all := LowerBinary(i, op, a, b, c);
    var checks := [CmpType(b, TYPE_INT), Jcc(NE, Local(i, 1)), CmpType(c, TYPE_INT), Jcc(NE, Local(i, 0)), LoadD(0, b)];
    var middle := Middle(op, a, c, Local(i, 0));
    var rest := all[5 + |middle|..];
    HereParts(ms, pos, all, checks + middle, rest);
    HereParts(ms, pos, checks + middle, checks, middle);
    st1 := Head(ms, s, pos, Local(i, 1), Local(i, 0), b, c, st);
    st1 := Middles(ms, s, pos + 5, op, a, c, Local(i, 0), st1);
    assert rest[0] == Jump(Local(i, 2)) && rest[|rest| - 1] == Bind(Local(i, 2));
    Out(ms, s, pos + 5 + |middle|, rest, Local(i, 2), st1);
  }

  /** From a jump at the start of a block to the label at its end. */
  lemma Out(ms: seq<Mop>, s: Run, pos: nat, b: seq<Mop>, l: Label, st: MState)
    requires |b| > 1 && b[0] == Jump(l) && b[|b| - 1] == Bind(l)
    requires Here(ms, pos, b) && Reaches(ms, s, At(pos, st))
    ensures Reaches(ms, s, At(pos + |b|, st))
  {
    hide Reaches;
    Leap(ms, s, pos, st, l, pos + |b| - 1);
  }

  lemma ModSim(ms: seq<Mop>, s: Run, pos: nat, i: nat, a: nat, b: nat, c: nat, st: MState) returns (st1: MState)
    requires Here(ms, pos, LowerMod(i, a, b, c)) && Reaches(ms, s, At(pos, st))
    requires a in st.mem && b in st.mem && c in st.mem && st.mem[b].hi == TYPE_INT && st.mem[c].hi == TYPE_INT
    requires Divides(st.mem[b].lo, st.mem[c].lo)
    ensures Reaches(ms, s, At(pos + |LowerMod(i, a, b, c)|, st1))
    ensures st1.mem == st.mem[a := Cell(IntOp(Mod, st.mem[b].lo, st.mem[c].lo).value.i, TYPE_INT)]
  {
    hide Reaches, Here, TruncDiv, Wrap32;
    var all := LowerMod(i, a, b, c);
    var checks := [CmpType(b, TYPE_INT), Jcc(NE, Local(i, 0)), CmpType(c, TYPE_INT), Jcc(NE, Local(i, 0)), LoadD(0, b)];
    var divide := [CmpD(c, 0), Jcc(E, Local(i, 0)), Cdq(2, 0), Idiv(2, 0, c), MovTT(0, 2)];
    var tail := [StoreD(a, 0), StoreType(a, TYPE_INT), LoadQ(3, a), Jump(Local(i, 2))] + Exit(i);
    assert all == checks + (divide + tail);
    HereParts(ms, pos, all, checks, divide + tail);
    HereParts(ms, pos + 5, divide + tail, divide, tail);
    st1 := Head(ms, s, pos, Local(i, 0), Local(i, 0), b, c, st);
    st1 := Divide(ms, s, pos + 5, divide, c, Local(i, 0), st1);
    Walk(ms, s, pos + 5, divide, 4, st1);
    st1 := Exec(divide[4], st1).st;
    st1 := ModTail(ms, s, pos + 10, i, a, st1);
  }

  lemma ModTail(ms: seq<Mop>, s: Run, pos: nat, i: nat, a: nat, st: MState) returns (st1: MState)
    requires Here(ms, pos, [StoreD(a, 0), StoreType(a, TYPE_INT), LoadQ(3, a), Jump(Local(i, 2))] + Exit(i))
    requires Reaches(ms, s, At(pos, st)) && a in st.mem && Has32(st, 0)
    ensures Reaches(ms, s, At(pos + 9, st1)) && st1.mem == st.mem[a := Cell(st.temps[0].d, TYPE_INT)]
  {
    hide Reaches, Here;
    var all := [StoreD(a, 0), StoreType(a, TYPE_INT), LoadQ(3, a), Jump(Local(i, 2))] + Exit(i);
    var store, load, rest := [StoreD(a, 0), StoreType(a, TYPE_INT)], [LoadQ(3, a)], [Jump(Local(i, 2))] + Exit(i);
    assert all == store + (load + rest);
    HereParts(ms, pos, all, store, load + rest);
    HereParts(ms, pos + 2, load + rest, load, rest);
    st1 := StoreInt(ms, s, pos, a, 0, st);
    Walk(ms, s, pos + 2, load, 0, st1);
    st1 := Exec(load[0], st1).st;
    Out(ms, s, pos + 3, rest, Local(i, 2), st1);
  }

  lemma NegSim(ms: seq<Mop>, s: Run, pos: nat, i: nat, a: nat, b: nat, st: MState) returns (st1: MState)
    requires Here(ms, pos, LowerNeg(i, a, b)) && Reaches(ms, s, At(pos, st))
    requires a in st.mem && b in st.mem && st.mem[b].hi == TYPE_INT
    ensures Reaches(ms, s, At(pos + |LowerNeg(i, a, b)|, st1))
    ensures st1.mem == st.mem[a := Cell(Wrap32(0 - st.mem[b].lo), TYPE_INT)]
  {
    hide Reaches, Here, Wrap32;
    var all := LowerNeg(i, a, b);
    var head := [CmpType(b, TYPE_INT), Jcc(NE, Local(i, 1)), LoadD(0, b), NegD(0)];
    var store := [StoreD(a, 0), StoreType(a, TYPE_INT)];
    var rest := all[6..];
    assert all == head + (store + rest);
    HereParts(ms, pos, all, head, store + rest);
    HereParts(ms, pos + 4, store + rest, store, rest);
    st1 := NegHead(ms, s, pos, i, b, st);
    st1 := StoreInt(ms, s, pos + 4, a, 0, st1);
    assert rest[0] == Jump(Local(i, 2)) && rest[|rest| - 1] == Bind(Local(i, 2));
    Out(ms, s, pos + 6, rest, Local(i, 2), st1);
  }

  lemma NegHead(ms: seq<Mop>, s: Run, pos: nat, i: nat, b: nat, st: MState) returns (st1: MState)
    requires Here(ms, pos, [CmpType(b, TYPE_INT), Jcc(NE, Local(i, 1)), LoadD(0, b), NegD(0)])
    requires Reaches(ms, s, At(pos, st)) && b in st.mem && st.mem[b].hi == TYPE_INT
    ensures Reaches(ms, s, At(pos + 4, st1)) && st1.mem == st.mem
    ensures Has32(st1, 0) && st1.temps[0].d == Wrap32(0 - st.mem[b].lo)
  {
    hide Reaches, Here, Wrap32;
    var head := [CmpType(b, TYPE_INT), Jcc(NE, Local(i, 1)), LoadD(0, b), NegD(0)];
    Walk(ms, s, pos, head, 0, st);
    st1 := Exec(head[0], st).st;
    Walk(ms, s, pos, head, 1, st1);
    Walk(ms, s, pos, head, 2, st1);
    st1 := Exec(head[2], st1).st;
    Walk(ms, s, pos, head, 3, st1);
    st1 := Exec(head[3], st1).st;
  }

  /** Equality works on any two values: setting both mark bits hides the marks. */
  lemma EqSim(ms: seq<Mop>, s: Run, pos: nat, equal: bool, a: nat, b: nat, c: nat, v: Value, w: Value,
      st: MState) returns (st1: MState)
    requires Here(ms, pos, LowerEq(equal, a, b, c)) && Reaches(ms, s, At(pos, st))
    requires a in st.mem && b in st.mem && c in st.mem && Rep(v, st.mem[b]) && Rep(w, st.mem[c])
    ensures Reaches(ms, s, At(pos + |LowerEq(equal, a, b, c)|, st1))
    ensures st1.mem == st.mem[a := Cell(if (v == w) == equal then 1 else 0, TYPE_INT)]
  {
    hide Reaches, Here, Marked, Rep;
    var all := LowerEq(equal, a, b, c);
    var head := [LoadQ(1, b), LoadQ(2, c), SetMark(1), SetMark(2), CmpTT(1, 2)];
    var set3, rest := [Set(if equal then E else NE, 3)], [Movzx(4, 3)];
    var store := [StoreD(a, 4), StoreType(a, TYPE_INT)];
    assert all == head + (set3 + (rest + store));
    HereParts(ms, pos, all, head, set3 + (rest + store));
    HereParts(ms, pos + 5, set3 + (rest + store), set3, rest + store);
    HereParts(ms, pos + 6, rest + store, rest, store);
    st1 := CompareUnmarked(ms, s, pos, b, c, v, w, st);
    Walk(ms, s, pos + 5, set3, 0, st1);
    st1 := Exec(set3[0], st1).st;
    Walk(ms, s, pos + 6, rest, 0, st1);
    st1 := Exec(rest[0], st1).st;
    st1 := StoreInt(ms, s, pos + 7, a, 4, st1);
  }

  lemma CompareUnmarked(ms: seq<Mop>, s: Run, pos: nat, b: nat, c: nat, v: Value, w: Value,
      st: MState) returns (st1: MState)
    requires Here(ms, pos, [LoadQ(1, b), LoadQ(2, c), SetMark(1), SetMark(2), CmpTT(1, 2)])
    requires Reaches(ms, s, At(pos, st))
    requires b in st.mem && c in st.mem && Rep(v, st.mem[b]) && Rep(w, st.mem[c])
    ensures Reaches(ms, s, At(pos + 5, st1)) && st1.mem == st.mem && st1.eq == (v == w)
  {
    hide Reaches, Here, Marked, Rep;
    var head := [LoadQ(1, b), LoadQ(2, c), SetMark(1), SetMark(2), CmpTT(1, 2)];
    MarksHidden(v, w, st.mem[b], st.mem[c]);
    Walk(ms, s, pos, head, 0, st);
    st1 := Exec(head[0], st).st;
    Walk(ms, s, pos, head, 1, st1);
    st1 := Exec(head[1], st1).st;
    Walk(ms, s, pos, head, 2, st1);
    st1 := Exec(head[2], st1).st;
    Walk(ms, s, pos, head, 3, st1);
    st1 := Exec(head[3], st1).st;
    Walk(ms, s, pos, head, 4, st1);
    st1 := Exec(head[4], st1).st;
  }

  lemma MarksHidden(v: Value, w: Value, c: Cell, d: Cell)
    requires Rep(v, c) && Rep(w, d)
    ensures Marked(c) == Marked(d) <==> v == w
  {
  }

  /** What `cjmp` takes a value for. */
  predicate JitTruthy(c: Cell) {
    if c.hi == TYPE_INT || c.hi == TYPE_FLOAT then c.lo != 0 else c.hi != TYPE_OBJ
  }

  /** The compiled condition agrees with the interpreter exactly for values that are
      neither nil nor the unmarked header of an empty array. */
  lemma ConditionAgrees(v: Value, c: Cell)
    requires Rep(v, c)
    ensures JitTruthy(c) == v.Truthy() <==> !v.Nil? && !(v.Arr? && v.len == 0 && c.hi == TYPE_OBJ)
  {
  }

  /** `cjmp` on any value: it jumps, or it goes on behind its code. */
  lemma JumpSim(ms: seq<Mop>, s: Run, pos: nat, i: nat, taken: bool, a: nat, l: Label, st: MState) returns (st1: MState)
    requires Here(ms, pos, LowerJump(i, taken, a, l)) && Reaches(ms, s, At(pos, st)) && a in st.mem
    requires Find(ms, l) < |ms|
    ensures st1.mem == st.mem
    ensures if JitTruthy(st.mem[a]) == taken then Reaches(ms, s, At(Find(ms, l) + 1, st1))
            else Reaches(ms, s, At(pos + |LowerJump(i, taken, a, l)|, st1))
  {
    hide Reaches, Here, Find;
    var all := LowerJump(i, taken, a, l);
    Walk(ms, s, pos, all, 0, st);
    st1 := Exec(all[0], st).st;
    if st.mem[a].hi == TYPE_INT {
      Walk(ms, s, pos, all, 1, st1);
      Walk(ms, s, pos, all, 2, st1);
      st1 := Exec(all[2], st1).st;
      Decide(ms, s, pos, i, taken, a, l, 3, st1);
    } else {
      JumpInto(ms, s, pos, all, 1, Local(i, 0), 5, st1);
      st1 := JumpNoInt(ms, s, pos, i, taken, a, l, st1);
    }
  }

  lemma JumpNoInt(ms: seq<Mop>, s: Run, pos: nat, i: nat, taken: bool, a: nat, l: Label,
      st: MState) returns (st1: MState)
    requires Here(ms, pos, LowerJump(i, taken, a, l)) && Reaches(ms, s, At(pos + 6, st)) && a in st.mem
    requires Find(ms, l) < |ms| && st.mem[a].hi != TYPE_INT
    ensures st1.mem == st.mem
    ensures if JitTruthy(st.mem[a]) == taken then Reaches(ms, s, At(Find(ms, l) + 1, st1))
            else Reaches(ms, s, At(pos + |LowerJump(i, taken, a, l)|, st1))
  {
    hide Reaches, Here, Find;
    var all := LowerJump(i, taken, a, l);
    Walk(ms, s, pos, all, 6, st);
    st1 := Exec(all[6], st).st;
    if st.mem[a].hi == TYPE_FLOAT {
      Walk(ms, s, pos, all, 7, st1);
      Walk(ms, s, pos, all, 8, st1);
      st1 := Exec(all[8], st1).st;
      Decide(ms, s, pos, i, taken, a, l, 9, st1);
    } else {
      JumpInto(ms, s, pos, all, 7, Local(i, 1), 11, st1);
      Walk(ms, s, pos, all, 12, st1);
      st1 := Exec(all[12], st1).st;
      Decide(ms, s, pos, i, taken, a, l, 13, st1);
    }
  }

  lemma JumpInto(ms: seq<Mop>, s: Run, pos: nat, b: seq<Mop>, k: nat, l: Label, j: nat, st: MState)
    requires Here(ms, pos, b) && k < |b| && j < |b| && b[k] == Jcc(NE, l) && b[j] == Bind(l) && !st.eq
    requires Reaches(ms, s, At(pos + k, st))
    ensures Reaches(ms, s, At(pos + j + 1, st))
  {
    hide Reaches;
    Leap(ms, s, pos + k, st, l, pos + j);
  }

  /** The conditional jump of one of the three cases, and the jump to the end. */
  lemma Decide(ms: seq<Mop>, s: Run, pos: nat, i: nat, taken: bool, a: nat, l: Label, k: nat, st: MState)
    requires Here(ms, pos, LowerJump(i, taken, a, l)) && (k == 3 || k == 9 || k == 13)
    requires Reaches(ms, s, At(pos + k, st)) && Find(ms, l) < |ms|
    ensures if st.eq != taken then Reaches(ms, s, At(Find(ms, l) + 1, st))
            else Reaches(ms, s, At(pos + |LowerJump(i, taken, a, l)|, st))
  {
    hide Reaches, LowerJump, Here, Find;
    var all := LowerJump(i, taken, a, l);
    DecisionAt(i, taken, a, l, k);
    HereAt(ms, pos, all, k);
    HereAt(ms, pos, all, k + 1);
    HereAt(ms, pos, all, |all| - 1);
    if st.eq != taken {
      Leap(ms, s, pos + k, st, l, Find(ms, l));
    } else {
      Walk(ms, s, pos, all, k, st);
      Leap(ms, s, pos + k + 1, st, Local(i, 2), pos + |all| - 1);
    }
  }

  lemma DecisionAt(i: nat, taken: bool, a: nat, l: Label, k: nat)
    requires k == 3 || k == 9 || k == 13
    ensures var all := LowerJump(i, taken, a, l);
            && |all| == 16 && all[k] == Jcc(if taken then NE else E, l) && all[k + 1] == Jump(Local(i, 2))
               && all[15] == Bind(Local(i, 2))
  {
  }

  // ---- operations that fail ----

  /** `OBJ_NIL` plus 1: the word that compiled code returns when an operation fails. */
  const FAILED: Cell := Cell(1, TYPE_NIL)

  lemma Exits(ms: seq<Mop>, s: Run, pos: nat, i: nat, st: MState) returns (st1: MState)
    requires Here(ms, pos, Exit(i)) && Reaches(ms, s, At(pos + 1, st))
    ensures st1.mem == st.mem && Reaches(ms, s, Done(st1, FAILED))
  {
    hide Reaches, Here;
    var b := Exit(i);
    Walk(ms, s, pos, b, 1, st);
    st1 := Exec(b[1], st).st;
    Walk(ms, s, pos, b, 2, st1);
    st1 := Exec(b[2], st1).st;
    LastStep(ms, s, pos, b, 3, st1);
  }

  /** A jump to the error exit at the end of a block. */
  lemma Fails(ms: seq<Mop>, s: Run, pos: nat, i: nat, all: seq<Mop>, k: nat, cc: Cond, st: MState)
    returns (st1: MState)
    requires Here(ms, pos, all) && |all| >= 5 && all[|all| - 5..] == Exit(i) && k < |all|
    requires all[k] == Jcc(cc, Local(i, 0)) && Holds(cc, st) && Reaches(ms, s, At(pos + k, st))
    ensures st1.mem == st.mem && Reaches(ms, s, Done(st1, FAILED))
  {
    hide Reaches, Holds;
    var front := all[..|all| - 5];
    assert all == front + Exit(i);
    HereParts(ms, pos, all, front, Exit(i));
    HereAt(ms, pos, all, k);
    HereAt(ms, pos + |front|, Exit(i), 0);
    Leap(ms, s, pos + k, st, Local(i, 0), pos + |front|);
    st1 := Exits(ms, s, pos + |front|, i, st);
  }

  /** The block begins with the two type checks, the first one leading to `l1`, and ends
      with the error exit. */
  predicate Checked(i: nat, all: seq<Mop>, l1: Label, b: nat, c: nat) {
    && |all| >= 14 && all[..5] == [CmpType(b, TYPE_INT), Jcc(NE, l1), CmpType(c, TYPE_INT), Jcc(NE, Local(i, 0)),
                                   LoadD(0, b)]
    && all[|all| - 5..] == Exit(i)
  }

  /** A division follows. */
  predicate Divided(i: nat, all: seq<Mop>, c: nat) {
    |all| >= 14 && all[5..9] == [CmpD(c, 0), Jcc(E, Local(i, 0)), Cdq(2, 0), Idiv(2, 0, c)]
  }

  /** The left operand is neither an integer nor a float. */
  lemma NoNumber(ms: seq<Mop>, s: Run, pos: nat, i: nat, all: seq<Mop>, b: nat, j: nat, st: MState)
    returns (st1: MState)
    requires Here(ms, pos, all) && |all| >= 5 && all[|all| - 5..] == Exit(i) && 1 < j && j + 2 < |all|
    requires all[0] == CmpType(b, TYPE_INT) && all[1] == Jcc(NE, Local(i, 1)) && all[j] == Bind(Local(i, 1))
    requires all[j + 1] == CmpType(b, TYPE_FLOAT) && all[j + 2] == Jcc(NE, Local(i, 0))
    requires Reaches(ms, s, At(pos, st)) && b in st.mem && st.mem[b].hi != TYPE_INT && st.mem[b].hi != TYPE_FLOAT
    ensures st1.mem == st.mem && Reaches(ms, s, Done(st1, FAILED))
  {
    hide Reaches, Here, Exit;
    Walk(ms, s, pos, all, 0, st);
    st1 := Exec(all[0], st).st;
    JumpInto(ms, s, pos, all, 1, Local(i, 1), j, st1);
    Walk(ms, s, pos, all, j + 1, st1);
    st1 := Exec(all[j + 1], st1).st;
    st1 := Fails(ms, s, pos, i, all, j + 2, NE, st1);
  }

  /** The left operand is an integer, but the right one is not, or it is a zero to divide by. */
  lemma CheckFails(ms: seq<Mop>, s: Run, pos: nat, i: nat, all: seq<Mop>, l1: Label, b: nat, c: nat, st: MState)
    returns (st1: MState)
    requires Here(ms, pos, all) && Checked(i, all, l1, b, c) && Reaches(ms, s, At(pos, st))
    requires b in st.mem && c in st.mem && st.mem[b].hi == TYPE_INT
    requires st.mem[c].hi != TYPE_INT || (Divided(i, all, c) && st.mem[c].lo == 0)
    ensures st1.mem == st.mem && Reaches(ms, s, Done(st1, FAILED))
  {
    hide Reaches, Here, Exit;
    CheckedAt(i, all, l1, b, c);
    Walk(ms, s, pos, all, 0, st);
    st1 := Exec(all[0], st).st;
    Walk(ms, s, pos, all, 1, st1);
    Walk(ms, s, pos, all, 2, st1);
    st1 := Exec(all[2], st1).st;
    if st.mem[c].hi != TYPE_INT {
      st1 := Fails(ms, s, pos, i, all, 3, NE, st1);
    } else {
      st1 := Checks(ms, s, pos, i, all, l1, b, c, st);
      DividedAt(i, all, c);
      Walk(ms, s, pos, all, 5, st1);
      st1 := Exec(all[5], st1).st;
      st1 := Fails(ms, s, pos, i, all, 6, E, st1);
    }
  }

  lemma CheckedAt(i: nat, all: seq<Mop>, l1: Label, b: nat, c: nat)
    requires Checked(i, all, l1, b, c)
    ensures all[0] == CmpType(b, TYPE_INT) && all[1] == Jcc(NE, l1) && all[2] == CmpType(c, TYPE_INT)
    ensures all[3] == Jcc(NE, Local(i, 0)) && all[4] == LoadD(0, b) && all[|all| - 5..] == Exit(i)
  {
    hide Exit;
    var head := all[..5];
    assert forall k | 0 <= k < 5 :: all[k] == head[k];
  }

  lemma DividedAt(i: nat, all: seq<Mop>, c: nat)
    requires Divided(i, all, c)
    ensures all[5] == CmpD(c, 0) && all[6] == Jcc(E, Local(i, 0)) && all[7] == Cdq(2, 0) && all[8] == Idiv(2, 0, c)
  {
    var part := all[5..9];
    assert all[5] == part[0] && all[6] == part[1] && all[7] == part[2] && all[8] == part[3];
  }

  /** Both operands are integers. */
  lemma Checks(ms: seq<Mop>, s: Run, pos: nat, i: nat, all: seq<Mop>, l1: Label, b: nat, c: nat, st: MState)
    returns (st1: MState)
    requires Here(ms, pos, all) && Checked(i, all, l1, b, c) && Reaches(ms, s, At(pos, st))
    requires b in st.mem && c in st.mem && st.mem[b].hi == TYPE_INT && st.mem[c].hi == TYPE_INT
    ensures Reaches(ms, s, At(pos + 5, st1)) && st1.mem == st.mem && 0 in st1.temps && st1.temps[0] == T32(st.mem[b].lo)
  {
    hide Reaches, Here, Exit;
    assert all == all[..5] + all[5..];
    HereParts(ms, pos, all, all[..5], all[5..]);
    st1 := Head(ms, s, pos, l1, Local(i, 0), b, c, st);
  }

  /** The one quotient that does not fit: the division instruction traps. */
  lemma Traps(ms: seq<Mop>, s: Run, pos: nat, i: nat, all: seq<Mop>, l1: Label, b: nat, c: nat, st: MState)
    requires Here(ms, pos, all) && Checked(i, all, l1, b, c) && Divided(i, all, c) && Reaches(ms, s, At(pos, st))
    requires b in st.mem && c in st.mem && st.mem[b] == Cell(-0x8000_0000, TYPE_INT) && st.mem[c] == Cell(-1, TYPE_INT)
    ensures Reaches(ms, s, Bad)
  {
    hide Reaches, Here, Exit;
    DividedAt(i, all, c);
    var st1 := Checks(ms, s, pos, i, all, l1, b, c, st);
    Walk(ms, s, pos, all, 5, st1);
    st1 := Exec(all[5], st1).st;
    Walk(ms, s, pos, all, 6, st1);
    Walk(ms, s, pos, all, 7, st1);
    st1 := Exec(all[7], st1).st;
    HereAt(ms, pos, all, 8);
    ReachesNext(ms, s, At(pos + 8, st1));
  }

  lemma BinaryShape(i: nat, op: BinOp, a: nat, b: nat, c: nat)
    ensures var all := LowerBinary(i, op, a, b, c);
            && Checked(i, all, Local(i, 1), b, c) && (op.Div? ==> Divided(i, all, c)) && |all| >= 20
            && all[|all| - 12] == Bind(Local(i, 1)) && all[|all| - 11] == CmpType(b, TYPE_FLOAT)
            && all[|all| - 10] == Jcc(NE, Local(i, 0))
  {
  }

  lemma ModShape(i: nat, a: nat, b: nat, c: nat)
    ensures var all := LowerMod(i, a, b, c); Checked(i, all, Local(i, 0), b, c) && Divided(i, all, c)
  {
  }

  lemma NegShape(i: nat, a: nat, b: nat)
    ensures var all := LowerNeg(i, a, b);
            && |all| == 18 && all[13..] == Exit(i) && all[0] == CmpType(b, TYPE_INT) && all[1] == Jcc(NE, Local(i, 1))
            && all[7] == Bind(Local(i, 1)) && all[8] == CmpType(b, TYPE_FLOAT) && all[9] == Jcc(NE, Local(i, 0))
  {
  }

  // ---- labels are bound once ----

  predicate NoBinds(ms: seq<Mop>) {
    forall k | 0 <= k < |ms| :: !ms[k].Bind?
  }

  /** Every label bound in `ms` belongs to an instruction below `n`. */
  ghost predicate Below(ms: seq<Mop>, n: nat) {
    forall k | 0 <= k < |ms| && ms[k].Bind? :: (if ms[k].l.Target? then ms[k].l.loc else ms[k].l.at) < n
  }

  ghost predicate Apart(a: seq<Mop>, b: seq<Mop>) {
    forall j, k | 0 <= j < |a| && 0 <= k < |b| && a[j].Bind? && b[k].Bind? :: a[j].l != b[k].l
  }

  lemma BoundJoin(a: seq<Mop>, b: seq<Mop>)
    requires BoundOnce(a) && BoundOnce(b) && Apart(a, b)
    ensures BoundOnce(a + b)
  {
    forall i, j | 0 <= i < j < |a + b| && (a + b)[i].Bind? && (a + b)[j].Bind? ensures (a + b)[i].l != (a + b)[j].l {
      if i < |a| <= j { assert a[i].l != b[j - |a|].l; }
    }
  }

  /** The labels of one lowered instruction are its own, and each is bound once. */
  ghost predicate OwnLabels(i: nat, b: seq<Mop>) {
    BoundOnce(b) && forall k | 0 <= k < |b| && b[k].Bind? :: b[k].l.Local? && b[k].l.at == i
  }

  lemma OwnJoin(i: nat, a: seq<Mop>, b: seq<Mop>)
    requires OwnLabels(i, a) && OwnLabels(i, b) && Apart(a, b)
    ensures OwnLabels(i, a + b)
  {
    BoundJoin(a, b);
  }

  lemma OwnPlain(i: nat, a: seq<Mop>, b: seq<Mop>)
    requires NoBinds(a) && OwnLabels(i, b)
    ensures OwnLabels(i, a + b)
  {
    OwnJoin(i, a, b);
  }

  lemma BinaryLabels(i: nat, op: BinOp, a: nat, b: nat, c: nat)
    ensures OwnLabels(i, LowerBinary(i, op, a, b, c))
  {
    var checks := [CmpType(b, TYPE_INT), Jcc(NE, Local(i, 1)), CmpType(c, TYPE_INT), Jcc(NE, Local(i, 0)), LoadD(0, b)]
                  + Middle(op, a, c, Local(i, 0)) + [Jump(Local(i, 2))];
    var floats := [Bind(Local(i, 1)), CmpType(b, TYPE_FLOAT), Jcc(NE, Local(i, 0)), CmpType(c, TYPE_FLOAT),
        Jcc(NE, Local(i, 0)), Other, Jump(Local(i, 2))];
    MiddlePlain(op, a, c, Local(i, 0));
    OwnJoin(i, floats, Exit(i));
    OwnPlain(i, checks, floats + Exit(i));
    assert LowerBinary(i, op, a, b, c) == checks + (floats + Exit(i));
  }

  lemma MiddlePlain(op: BinOp, a: nat, c: nat, err: Label)
    ensures NoBinds(Middle(op, a, c, err))
  {
  }

  lemma ModLabels(i: nat, a: nat, b: nat, c: nat)
    ensures OwnLabels(i, LowerMod(i, a, b, c))
  {
    var front := [CmpType(b, TYPE_INT), Jcc(NE, Local(i, 0)), CmpType(c, TYPE_INT), Jcc(NE, Local(i, 0)), LoadD(0, b)]
                 + [CmpD(c, 0), Jcc(E, Local(i, 0)), Cdq(2, 0), Idiv(2, 0, c), MovTT(0, 2)]
                 + [StoreD(a, 0), StoreType(a, TYPE_INT), LoadQ(3, a), Jump(Local(i, 2))];
    OwnPlain(i, front, Exit(i));
  }

  lemma NegLabels(i: nat, a: nat, b: nat)
    ensures OwnLabels(i, LowerNeg(i, a, b))
  {
    var front := [CmpType(b, TYPE_INT), Jcc(NE, Local(i, 1)), LoadD(0, b), NegD(0), StoreD(a, 0),
        StoreType(a, TYPE_INT), Jump(Local(i, 2))];
    var floats := [Bind(Local(i, 1)), CmpType(b, TYPE_FLOAT), Jcc(NE, Local(i, 0)), Other, StoreType(a, TYPE_FLOAT),
        Jump(Local(i, 2))];
    OwnJoin(i, floats, Exit(i));
    OwnPlain(i, front, floats + Exit(i));
    assert LowerNeg(i, a, b) == front + (floats + Exit(i));
  }

  lemma JumpLabels(i: nat, taken: bool, a: nat, l: Label)
    ensures OwnLabels(i, LowerJump(i, taken, a, l))
  {
    var cc := if taken then NE else E;
    var ints := [CmpType(a, TYPE_INT), Jcc(NE, Local(i, 0)), CmpD(a, 0), Jcc(cc, l), Jump(Local(i, 2))];
    var floats := [Bind(Local(i, 0)), CmpType(a, TYPE_FLOAT), Jcc(NE, Local(i, 1)), CmpD(a, FLOAT_ZERO), Jcc(cc, l),
        Jump(Local(i, 2))];
    var objs := [Bind(Local(i, 1)), CmpType(a, TYPE_OBJ), Jcc(cc, l), Jump(Local(i, 2))];
    var end := [Bind(Local(i, 2))];
    OwnJoin(i, objs, end);
    OwnJoin(i, floats, objs + end);
    OwnPlain(i, ints, floats + (objs + end));
    assert LowerJump(i, taken, a, l) == ints + (floats + (objs + end));
  }

  lemma BlockLabels(p: Machine.Program, i: nat, ins: Instr)
    requires Lower(p, i, ins).Some?
    ensures OwnLabels(i, Lower(p, i, ins).value)
  {
    hide LowerBinary, LowerMod, LowerNeg, LowerJump;
    forall op, a, b, c ensures OwnLabels(i, LowerBinary(i, op, a, b, c)) { BinaryLabels(i, op, a, b, c); }
    forall a, b, c ensures OwnLabels(i, LowerMod(i, a, b, c)) { ModLabels(i, a, b, c); }
    forall a, b ensures OwnLabels(i, LowerNeg(i, a, b)) { NegLabels(i, a, b); }
    forall taken, a, l ensures OwnLabels(i, LowerJump(i, taken, a, l)) { JumpLabels(i, taken, a, l); }
  }

  lemma {:induction false} AssembledLabels(p: Machine.Program, code: seq<Instr>, n: nat)
    requires n <= |code| && Assembled(p, code, n).Some?
    ensures BoundOnce(Assembled(p, code, n).value) && Below(Assembled(p, code, n).value, n)
  {
    hide Lower, Targets;
    if n > 0 {
      AssembledLabels(p, code, n - 1);
      BlockLabels(p, n - 1, code[n - 1]);
      var before := Assembled(p, code, n - 1).value;
      var mark := if n - 1 in Targets(code) then [Bind(Target(n - 1))] else [];
      var block := Lower(p, n - 1, code[n - 1]).value;
      BoundJoin(before, mark);
      BoundJoin(before + mark, block);
      NowBelow(before, mark, block, n);
    }
  }

  lemma NowBelow(before: seq<Mop>, mark: seq<Mop>, block: seq<Mop>, n: nat)
    requires n > 0 && Below(before, n - 1) && OwnLabels(n - 1, block) && (mark == [] || mark == [Bind(Target(n - 1))])
    ensures Below(before + mark + block, n)
  {
  }

  // ---- where the code of an instruction is ----

  /** The place of instruction `n`, behind the label that may be bound there. */
  function PlaceOf(p: Machine.Program, code: seq<Instr>, n: nat): nat
    requires n <= |code|
  {
    match Assembled(p, code, n)
    case None => 0
    case Some(ms) => |ms| + if n in Targets(code) then 1 else 0
  }

  lemma {:induction false} AssembledPrefix(p: Machine.Program, code: seq<Instr>, n: nat, m: nat)
    requires n <= m <= |code| && Assembled(p, code, m).Some?
    ensures Assembled(p, code, n).Some? && Assembled(p, code, n).value <= Assembled(p, code, m).value
    decreases m
  {
    hide Lower, Targets;
    if n < m { AssembledPrefix(p, code, n, m - 1); }
  }

  /** The code of instruction `n` in the compiled function, the label in front of it, and
      what comes behind it. */
  lemma Layout(p: Machine.Program, code: seq<Instr>, n: nat)
    requires n < |code| && Compiled(p, code).Some?
    ensures Lower(p, n, code[n]).Some? && Here(Compiled(p, code).value, PlaceOf(p, code, n), Lower(p, n, code[n]).value)
    ensures n in Targets(code) ==>
              Find(Compiled(p, code).value, Target(n)) + 1 == PlaceOf(p, code, n) <= |Compiled(p, code).value|
    ensures Assembled(p, code, n + 1).Some?
            && |Assembled(p, code, n + 1).value| == PlaceOf(p, code, n) + |Lower(p, n, code[n]).value|
  {
    hide Lower, Targets;
    var ms := Compiled(p, code).value;
    AssembledPrefix(p, code, n + 1, |code|);
    AssembledPrefix(p, code, n, n + 1);
    AssembledLabels(p, code, |code|);
    var before := Assembled(p, code, n).value;
    var mark := if n in Targets(code) then [Bind(Target(n))] else [];
    var block := Lower(p, n, code[n]).value;
    assert Assembled(p, code, n + 1).value == before + mark + block;
    BlockInside(ms, before, mark, block);
    if n in Targets(code) { FindIs(ms, Target(n), |before|); }
  }

  lemma BlockInside(ms: seq<Mop>, before: seq<Mop>, mark: seq<Mop>, block: seq<Mop>)
    requires BoundOnce(ms) && before + mark + block <= ms
    ensures Here(ms, |before + mark|, block)
    ensures |mark| > 0 ==> ms[|before|] == mark[0]
  {
    var all := before + mark + block;
    forall k | 0 <= k < |block| ensures ms[|before + mark| + k] == block[k] {
      assert all[|before + mark| + k] == block[k];
    }
    if |mark| > 0 { assert all[|before|] == mark[0]; }
  }

  /** Control that falls out of instruction `n` gets to the code of the next one. */
  lemma FallsTo(p: Machine.Program, code: seq<Instr>, n: nat, s: Run, st: MState)
    requires n + 1 < |code| && Compiled(p, code).Some? && Lower(p, n, code[n]).Some?
    requires Reaches(Compiled(p, code).value, s, At(PlaceOf(p, code, n) + |Lower(p, n, code[n]).value|, st))
    ensures Reaches(Compiled(p, code).value, s, At(PlaceOf(p, code, n + 1), st))
  {
    hide Lower, Targets, Reaches, Assembled, Compiled;
    var ms := Compiled(p, code).value;
    Layout(p, code, n);
    Layout(p, code, n + 1);
    if n + 1 in Targets(code) {
      ReachesNext(ms, s, At(PlaceOf(p, code, n) + |Lower(p, n, code[n]).value|, st));
    }
  }

  // ---- the interpreter and the lowered code, step by step ----

  /** The instructions of the integer fragment. */
  predicate InFragment(ins: Instr) {
    && ins.known && ins.a < BYTE && ins.b < BYTE && ins.c < BYTE
    && (Machine.BinaryOf(ins.op).Some? || ins.op.NEG? || ins.op.LOADINT? || ins.op.LOADNIL? || ins.op.MOVE?
        || ins.op.JMP? || ins.op.JMPT? || ins.op.JMPF? || ins.op.RETURN? || ins.op.RETURNNIL?)
  }

  /** Its operands are integers, and its condition is one the compiled code judges as the
      interpreter does. */
  predicate GoodOperands(ins: Instr, vm: Machine.VM) {
    match ins.op
    case EQ => true
    case NEQ => true
    case NEG => vm.Reg(ins.b).Int?
    case JMPT => !vm.Reg(ins.a).Nil? && !(vm.Reg(ins.a).Arr? && vm.Reg(ins.a).len == 0)
    case JMPF => !vm.Reg(ins.a).Nil? && !(vm.Reg(ins.a).Arr? && vm.Reg(ins.a).len == 0)
    case _ => Machine.BinaryOf(ins.op).Some? ==> vm.Reg(ins.b).Int? && vm.Reg(ins.c).Int?
  }

  /** The interpreter refuses its operands. */
  predicate Refused(ins: Instr, vm: Machine.VM) {
    if ins.op.NEG? then !vm.Reg(ins.b).Int?
    else
      Machine.BinaryOf(ins.op).Some? &&
      Binary(Machine.BinaryOf(ins.op).value, vm.Reg(ins.b), vm.Reg(ins.c)).None?
  }

  /** The compiled code and the interpreter take its operands alike. */
  predicate Suited(ins: Instr, vm: Machine.VM) {
    GoodOperands(ins, vm) || Refused(ins, vm)
  }

  lemma NotRefused(p: Machine.Program, ins: Instr, vm: Machine.VM)
    requires Suited(ins, vm)
    ensures Machine.Execute(p, ins, vm.(ip := vm.ip + 1)).Next? ==> GoodOperands(ins, vm)
  {
    var vm1 := vm.(ip := vm.ip + 1);
    assert forall r: nat :: vm1.Reg(r) == vm.Reg(r);
  }

  /** Writing register `a` on both sides. */
  lemma ShownSet(vm: Machine.VM, mem: map<nat, Cell>, a: nat, v: Value, c: Cell)
    requires Shown(vm, mem) && Rep(v, c)
    ensures Shown(vm.SetReg(a, v), mem[a := c])
  {
    hide Rep;
    forall r: nat | r < BYTE ensures r in mem[a := c] && Rep(vm.SetReg(a, v).Reg(r), mem[a := c][r]) {
      assert r in mem && Rep(vm.Reg(r), mem[r]);
    }
  }

  lemma ShownAt(vm: Machine.VM, mem: map<nat, Cell>, r: nat)
    requires Shown(vm, mem) && r < BYTE
    ensures r in mem && Rep(vm.Reg(r), mem[r])
  {
    hide Rep;
  }

  /** An instruction that computes a register. */
  predicate Computes(ins: Instr) {
    Machine.BinaryOf(ins.op).Some? || ins.op.NEG? || ins.op.LOADINT? || ins.op.LOADNIL? || ins.op.MOVE?
  }

  lemma {:induction false} ComputeSim(p: Machine.Program, ms: seq<Mop>, s: Run, pos: nat, i: nat, ins: Instr,
      vm: Machine.VM, st: MState)
    returns (st1: MState)
    requires InFragment(ins) && Computes(ins) && GoodOperands(ins, vm) && Shown(vm, st.mem)
    requires Lower(p, i, ins).Some? && Here(ms, pos, Lower(p, i, ins).value) && Reaches(ms, s, At(pos, st))
    requires Machine.Execute(p, ins, vm).Next?
    ensures Reaches(ms, s, At(pos + |Lower(p, i, ins).value|, st1)) && Shown(Machine.Execute(p, ins, vm).vm, st1.mem)
  {
    hide Reaches, Here, Shown, LowerBinary, LowerMod, LowerNeg, LowerEq, IntOp, Rep;
    ShownAt(vm, st.mem, ins.a);
    ShownAt(vm, st.mem, ins.b);
    ShownAt(vm, st.mem, ins.c);
    if Machine.BinaryOf(ins.op).Some? {
      st1 := ArithmeticSim(p, ms, s, pos, i, ins, vm, st);
    } else if ins.op.NEG? {
      RepInt(vm.Reg(ins.b), st.mem[ins.b]);
      st1 := NegSim(ms, s, pos, i, ins.a, ins.b, st);
      RepOfInt(Wrap32(0 - st.mem[ins.b].lo));
      ShownSet(vm, st.mem, ins.a, Int(Wrap32(0 - st.mem[ins.b].lo)), Cell(Wrap32(0 - st.mem[ins.b].lo), TYPE_INT));
    } else {
      st1 := CopySim(p, ms, s, pos, i, ins, vm, st);
    }
  }

  lemma RepInt(v: Value, c: Cell)
    requires Rep(v, c)
    ensures v.Int? ==> c == Cell(v.i, TYPE_INT)
  {
  }

  lemma RepOfInt(i: int32)
    ensures Rep(Int(i), Cell(i, TYPE_INT))
    ensures Rep(Nil, NIL_CELL)
  {
  }

  lemma {:induction false} CopySim(p: Machine.Program, ms: seq<Mop>, s: Run, pos: nat, i: nat, ins: Instr,
      vm: Machine.VM, st: MState)
    returns (st1: MState)
    requires InFragment(ins) && Shown(vm, st.mem) && (ins.op.LOADINT? || ins.op.LOADNIL? || ins.op.MOVE?)
    requires Lower(p, i, ins).Some? && Here(ms, pos, Lower(p, i, ins).value) && Reaches(ms, s, At(pos, st))
    requires Machine.Execute(p, ins, vm).Next?
    ensures Reaches(ms, s, At(pos + |Lower(p, i, ins).value|, st1)) && Shown(Machine.Execute(p, ins, vm).vm, st1.mem)
  {
    hide Reaches, Here, Shown, Rep;
    ShownAt(vm, st.mem, ins.b);
    var b := Lower(p, i, ins).value;
    Walk(ms, s, pos, b, 0, st);
    st1 := Exec(b[0], st).st;
    var c := st1.temps[1].q;
    Walk(ms, s, pos, b, 1, st1);
    st1 := Exec(b[1], st1).st;
    var v := if ins.op.LOADINT? then Int(p.constants[ins.bx]) else if ins.op.LOADNIL? then Nil else vm.Reg(ins.b);
    if ins.op.LOADINT? { RepOfInt(p.constants[ins.bx]); }
    if ins.op.LOADNIL? { RepOfInt(0); }
    ShownSet(vm, st.mem, ins.a, v, c);
  }

  lemma {:induction false} ArithmeticSim(p: Machine.Program, ms: seq<Mop>, s: Run, pos: nat, i: nat, ins: Instr,
      vm: Machine.VM, st: MState)
    returns (st1: MState)
    requires InFragment(ins) && Machine.BinaryOf(ins.op).Some? && GoodOperands(ins, vm) && Shown(vm, st.mem)
    requires Lower(p, i, ins).Some? && Here(ms, pos, Lower(p, i, ins).value) && Reaches(ms, s, At(pos, st))
    requires Machine.Execute(p, ins, vm).Next?
    ensures Reaches(ms, s, At(pos + |Lower(p, i, ins).value|, st1)) && Shown(Machine.Execute(p, ins, vm).vm, st1.mem)
  {
    hide Reaches, Here, Shown, LowerBinary, LowerMod, LowerEq, IntOp, Rep, Wrap32, TruncDiv;
    var op := Machine.BinaryOf(ins.op).value;
    var v, w := vm.Reg(ins.b), vm.Reg(ins.c);
    ShownAt(vm, st.mem, ins.a);
    ShownAt(vm, st.mem, ins.b);
    ShownAt(vm, st.mem, ins.c);
    BinaryUnfolds(p, ins, vm, op);
    var r := Binary(op, v, w).value;
    if op.Eq? || op.Neq? {
      st1 := EqSim(ms, s, pos, op.Eq?, ins.a, ins.b, ins.c, v, w, st);
    } else {
      RepInt(v, st.mem[ins.b]);
      RepInt(w, st.mem[ins.c]);
      OnIntegers(op, v, w);
      if op.Mod? {
        st1 := ModSim(ms, s, pos, i, ins.a, ins.b, ins.c, st);
      } else {
        st1 := BinarySim(ms, s, pos, i, op, ins.a, ins.b, ins.c, st);
      }
    }
    RepOfInt(r.i);
    ShownSet(vm, st.mem, ins.a, r, Cell(r.i, TYPE_INT));
  }

  lemma OnIntegers(op: BinOp, v: Value, w: Value)
    requires v.Int? && w.Int? && Binary(op, v, w).Some?
    ensures Binary(op, v, w) == IntOp(op, v.i, w.i) && (op.Mod? || op.Div? ==> Divides(v.i, w.i))
  {
  }

  lemma BinaryUnfolds(p: Machine.Program, ins: Instr, vm: Machine.VM, op: BinOp)
    requires ins.known && Machine.BinaryOf(ins.op) == Some(op) && Machine.Execute(p, ins, vm).Next?
    ensures var r := Binary(op, vm.Reg(ins.b), vm.Reg(ins.c));
            && r.Some? && Machine.Execute(p, ins, vm) == Machine.Next(vm.SetReg(ins.a, r.value))
            && ((op.Eq? || op.Neq? || (vm.Reg(ins.b).Int? && vm.Reg(ins.c).Int?)) ==> r.value.Int?)
    ensures op.Eq? ==> Binary(op, vm.Reg(ins.b),
              vm.Reg(ins.c)) == Some(Int(if vm.Reg(ins.b) == vm.Reg(ins.c) then 1 else 0))
    ensures op.Neq? ==> Binary(op, vm.Reg(ins.b),
              vm.Reg(ins.c)) == Some(Int(if vm.Reg(ins.b) == vm.Reg(ins.c) then 0 else 1))
  {
  }

  /** A return: the compiled code leaves the value in slot 0 and in the return register. */
  lemma {:induction false} ReturnSim(p: Machine.Program, ms: seq<Mop>, s: Run, pos: nat, i: nat, ins: Instr,
      vm: Machine.VM, st: MState)
    returns (st1: MState)
    requires InFragment(ins) && (ins.op.RETURN? || ins.op.RETURNNIL?) && Shown(vm, st.mem) && vm.calls != []
    requires Lower(p, i, ins).Some? && Here(ms, pos, Lower(p, i, ins).value) && Reaches(ms, s, At(pos, st))
    ensures Machine.Execute(p, ins, vm).Leave? && 0 in st1.mem && Reaches(ms, s, Done(st1, st1.mem[0]))
    ensures Shown(Machine.Execute(p, ins, vm).vm.(fp := vm.fp), st1.mem)
  {
    hide Reaches, Here, Shown, Rep;
    ShownAt(vm, st.mem, ins.a);
    var b := Lower(p, i, ins).value;
    Walk(ms, s, pos, b, 0, st);
    st1 := Exec(b[0], st).st;
    var c := st1.temps[1].q;
    Walk(ms, s, pos, b, 1, st1);
    st1 := Exec(b[1], st1).st;
    LastStep(ms, s, pos, b, 2, st1);
    var v := if ins.op.RETURN? then vm.Reg(ins.a) else Nil;
    RepOfInt(0);
    ShownSet(vm, st.mem, 0, v, c);
    SameWindow(vm.SetReg(0, v), Machine.Execute(p, ins, vm).vm.(fp := vm.fp), st1.mem);
  }

  lemma SameWindow(vm: Machine.VM, vm1: Machine.VM, mem: map<nat, Cell>)
    requires Shown(vm, mem) && vm1.fp == vm.fp && vm1.stack == vm.stack
    ensures Shown(vm1, mem)
  {
    hide Rep;
    forall r: nat | r < BYTE ensures r in mem && Rep(vm1.Reg(r), mem[r]) {
      assert vm1.Reg(r) == vm.Reg(r);
    }
  }

  lemma LastStep(ms: seq<Mop>, s: Run, pos: nat, b: seq<Mop>, k: nat, st: MState)
    requires Here(ms, pos, b) && k < |b| && b[k] == Ret(1) && Reaches(ms, s, At(pos + k, st))
    requires 1 in st.temps && st.temps[1].T64?
    ensures Reaches(ms, s, Done(st, st.temps[1].q))
  {
    hide Reaches;
    ReachesNext(ms, s, At(pos + k, st));
  }

  /** The code of the function in the program, at `entry`. */
  ghost predicate CodeAt(p: Machine.Program, code: seq<Instr>, entry: nat) {
    && entry + |code| <= |p.code| && (forall k | 0 <= k < |code| :: p.code[entry + k] == code[k])
    && (forall k | 0 <= k < |code| :: InFragment(code[k]))
    && |code| > 0 && code[|code| - 1].op.RETURNNIL?
  }

  /** Every instruction of the run has operands that the compiled code is made for, or that
      the interpreter refuses. */
  ghost predicate IntegerRun(p: Machine.Program, vm: Machine.VM, fuel: nat)
    decreases fuel
  {
    fuel > 0 ==>
      && (vm.ip < |p.code| ==> Suited(p.code[vm.ip], vm))
      && match Machine.Dispatch(p, vm)
         case Next(vm1) => IntegerRun(p, vm1, fuel - 1)
         case _ => true
  }

  /** The interpreter is at instruction `i`, and so is the compiled code. */
  ghost predicate InStep(p: Machine.Program, code: seq<Instr>, entry: nat, i: nat, vm: Machine.VM, s: Run, st: MState) {
    && i < |code| && vm.ip == entry + i && vm.calls != [] && Shown(vm, st.mem)
    && Compiled(p, code).Some? && Reaches(Compiled(p, code).value, s, At(PlaceOf(p, code, i), st))
  }

  lemma {:induction false} StepSim(p: Machine.Program, code: seq<Instr>, entry: nat, i: nat, vm: Machine.VM, s: Run,
      st: MState)
    returns (j: nat, st1: MState)
    requires CodeAt(p, code, entry) && InStep(p, code, entry, i, vm, s, st) && GoodOperands(code[i], vm)
    requires Machine.Dispatch(p, vm).Next?
    ensures InStep(p, code, entry, j, Machine.Dispatch(p, vm).vm, s, st1)
  {
    hide Reaches, Here, Shown, Lower, Assembled, Compiled, PlaceOf, Machine.Execute;
    var ins, vm1 := code[i], vm.(ip := vm.ip + 1);
    var ms := Compiled(p, code).value;
    Layout(p, code, i);
    SameWindow(vm, vm1, st.mem);
    assert Machine.Dispatch(p, vm) == Machine.Execute(p, ins, vm1);
    GoodSame(ins, vm, vm1);
    ExecuteKeeps(p, ins, vm1);
    if Computes(ins) {
      st1 := ComputeSim(p, ms, s, PlaceOf(p, code, i), i, ins, vm1, st);
      j := i + 1;
      FallsTo(p, code, i, s, st1);
    } else {
      j, st1 := JumpStep(p, code, entry, i, vm1, s, st);
    }
  }

  lemma GoodSame(ins: Instr, vm: Machine.VM, vm1: Machine.VM)
    requires GoodOperands(ins, vm) && vm1.fp == vm.fp && vm1.stack == vm.stack
    ensures GoodOperands(ins, vm1)
  {
  }

  lemma ExecuteKeeps(p: Machine.Program, ins: Instr, vm: Machine.VM)
    ensures Machine.Execute(p, ins, vm).Next? ==>
              Machine.Execute(p, ins, vm).vm.calls == vm.calls && Machine.Execute(p, ins, vm).vm.fp == vm.fp
    ensures Machine.Execute(p, ins, vm).Next? && Computes(ins) ==> Machine.Execute(p, ins, vm).vm.ip == vm.ip
    ensures ins.op.RETURNNIL? ==> !Machine.Execute(p, ins, vm).Next? && !Computes(ins)
    ensures ins.op.RETURN? ==> !Machine.Execute(p, ins, vm).Next?
  {
  }

  lemma {:induction false} JumpStep(p: Machine.Program, code: seq<Instr>, entry: nat, i: nat, vm: Machine.VM, s: Run,
      st: MState)
    returns (j: nat, st1: MState)
    requires CodeAt(p, code, entry) && i < |code| && vm.ip == entry + i + 1 && vm.calls != [] && Shown(vm, st.mem)
    requires Compiled(p, code).Some? && Reaches(Compiled(p, code).value, s, At(PlaceOf(p, code, i), st))
    requires GoodOperands(code[i], vm) && !Computes(code[i]) && Machine.Execute(p, code[i], vm).Next?
    ensures InStep(p, code, entry, j, Machine.Execute(p, code[i], vm).vm, s, st1)
  {
    hide Reaches, Here, Shown, Lower, Assembled, Compiled, PlaceOf, LowerJump, Rep;
    var ins := code[i];
    var ms := Compiled(p, code).value;
    var vm1 := Machine.Execute(p, ins, vm).vm;
    Layout(p, code, i);
    JumpUnfolds(p, i, ins);
    JumpTarget(p, code, i);
    var l := TargetOf(i, ins);
    Layout(p, code, l);
    SameWindow(vm, vm1, st.mem);
    if ins.op.JMP? {
      st1, j := st, l;
      PlainJump(ms, s, PlaceOf(p, code, i), Target(l), st);
    } else {
      ShownAt(vm, st.mem, ins.a);
      ConditionAgrees(vm.Reg(ins.a), st.mem[ins.a]);
      EmptyHeader(vm.Reg(ins.a), st.mem[ins.a]);
      st1 := JumpSim(ms, s, PlaceOf(p, code, i), i, ins.op.JMPT?, ins.a, Target(l), st);
      if vm.Reg(ins.a).Truthy() == ins.op.JMPT? {
        j := l;
      } else {
        j := i + 1;
        FallsTo(p, code, i, s, st1);
      }
    }
  }

  /** An array whose type word is that of an empty one is empty. */
  lemma EmptyHeader(v: Value, c: Cell)
    requires Rep(v, c)
    ensures v.Arr? && c.hi == TYPE_OBJ ==> v.len == 0
  {
  }

  lemma PlainJump(ms: seq<Mop>, s: Run, pos: nat, l: Label, st: MState)
    requires Here(ms, pos, [Jump(l)]) && Reaches(ms, s, At(pos, st)) && Find(ms, l) < |ms|
    ensures Reaches(ms, s, At(Find(ms, l) + 1, st))
  {
    hide Reaches;
    var b, k := [Jump(l)], 0;
    assert ms[pos + k] == b[k];
    Leap(ms, s, pos, st, l, Find(ms, l));
  }

  lemma JumpUnfolds(p: Machine.Program, i: nat, ins: Instr)
    requires Lower(p, i, ins).Some? && InFragment(ins) && !Computes(ins)
    ensures ins.op.JMP? ==> TargetOf(i, ins) >= 0 && Lower(p, i, ins).value == [Jump(Target(TargetOf(i, ins)))]
    ensures ins.op.JMPT? ==>
              TargetOf(i, ins) >= 0 && Lower(p, i, ins).value == LowerJump(i, true, ins.a, Target(TargetOf(i, ins)))
    ensures ins.op.JMPF? ==>
              TargetOf(i, ins) >= 0 && Lower(p, i, ins).value == LowerJump(i, false, ins.a, Target(TargetOf(i, ins)))
  {
    hide LowerJump;
  }

  /** Jumps stay inside the function, and their targets are labelled. */
  lemma JumpTarget(p: Machine.Program, code: seq<Instr>, i: nat)
    requires i < |code| && Compiled(p, code).Some? && IsJump(code[i])
    ensures 0 <= TargetOf(i, code[i]) < |code| && TargetOf(i, code[i]) in Targets(code)
  {
    hide Assembled, TargetOf;
    assert TargetOf(i, code[i]) in Targets(code);
  }

  /** The JIT simulates the interpreter: whenever the interpreter returns from the
      function, the compiled code reaches its `ret` with the same window, the result in
      slot 0 included. */
  lemma {:induction false} RunSim(p: Machine.Program, code: seq<Instr>, entry: nat, i: nat, vm: Machine.VM, s: Run,
      st: MState, fuel: nat)
    returns (st1: MState)
    requires CodeAt(p, code, entry) && InStep(p, code, entry, i, vm, s, st) && IntegerRun(p, vm, fuel)
    requires Machine.Run(p, vm, fuel).Back?
    ensures 0 in st1.mem && Reaches(Compiled(p, code).value, s, Done(st1, st1.mem[0]))
    ensures Shown(Machine.Run(p, vm, fuel).vm.(fp := vm.fp), st1.mem)
    ensures OutsideKept(vm.fp, vm, Machine.Run(p, vm, fuel).vm)
    decreases fuel
  {
    hide Reaches, Shown, Compiled, PlaceOf, Machine.Execute, GoodOperands, Suited, OutsideKept;
    FragmentEvents(p, code[i], vm.(ip := vm.ip + 1));
    WritesInside(p, code[i], vm);
    assert Machine.Dispatch(p, vm) == Machine.Execute(p, code[i], vm.(ip := vm.ip + 1));
    match Machine.Dispatch(p, vm)
    case Next(vm1) =>
      NotRefused(p, code[i], vm);
      var j, st2 := StepSim(p, code, entry, i, vm, s, st);
      ExecuteKeeps(p, code[i], vm.(ip := vm.ip + 1));
      st1 := RunSim(p, code, entry, j, vm1, s, st2, fuel - 1);
      OutsideThen(vm.fp, vm, vm1, Machine.Run(p, vm, fuel).vm);
    case Leave(vm1) =>
      Layout(p, code, i);
      SameWindow(vm, vm.(ip := vm.ip + 1), st.mem);
      st1 := ReturnSim(p, Compiled(p, code).value, s, PlaceOf(p, code, i), i, code[i], vm.(ip := vm.ip + 1), st);
  }

  lemma FragmentEvents(p: Machine.Program, ins: Instr, vm: Machine.VM)
    requires InFragment(ins) && vm.calls != []
    ensures var e := Machine.Execute(p, ins, vm);
            !e.Enter? && !e.Stop? && (e.Leave? ==> ins.op.RETURN? || ins.op.RETURNNIL?)
  {
  }

  /** The heap and every slot outside the window at `fp` are as before. */
  ghost predicate OutsideKept(fp: nat, vm: Machine.VM, vm1: Machine.VM) {
    vm1.heap == vm.heap && forall i: nat | i < fp || fp + BYTE <= i :: vm1.Get(i) == vm.Get(i)
  }

  lemma OutsideSame(fp: nat, vm: Machine.VM)
    ensures OutsideKept(fp, vm, vm)
  {
  }

  lemma OutsideThen(fp: nat, vm: Machine.VM, vm1: Machine.VM, vm2: Machine.VM)
    requires OutsideKept(fp, vm, vm1) && OutsideKept(fp, vm1, vm2)
    ensures OutsideKept(fp, vm, vm2)
  {
  }

  lemma WritesInside(p: Machine.Program, ins: Instr, vm: Machine.VM)
    requires InFragment(ins) && vm.calls != []
    ensures match Machine.Execute(p, ins, vm.(ip := vm.ip + 1))
            case Next(vm1) => OutsideKept(vm.fp, vm, vm1)
            case Leave(vm1) => OutsideKept(vm.fp, vm, vm1)
            case _ => true
  {
    hide Binary, Negate;
  }

  lemma Entered(p: Machine.Program, code: seq<Instr>, entry: nat, vm: Machine.VM, st: MState)
    requires CodeAt(p, code, entry) && Compiled(p, code).Some?
    requires vm.ip == entry && vm.calls != [] && Shown(vm, st.mem)
    ensures InStep(p, code, entry, 0, vm, At(0, st), st)
  {
    hide Reaches, Shown, Targets, Lower;
    var ms := Compiled(p, code).value;
    var s := At(0, st);
    ReachesSelf(ms, s);
    Layout(p, code, 0);
    if 0 in Targets(code) {
      ReachesNext(ms, s, s);
      assert Find(ms, Target(0)) == 0;
    }
  }

  /** The theorem from the first instruction on: `entry` is where `op_call` has sent the
      interpreter, and the compiled function starts at its beginning. */
  lemma JitSimulates(p: Machine.Program, code: seq<Instr>, entry: nat, vm: Machine.VM, st: MState,
      fuel: nat) returns (st1: MState)
    requires CodeAt(p, code, entry) && Compiled(p, code).Some?
    requires vm.ip == entry && vm.calls != [] && Shown(vm, st.mem) && IntegerRun(p, vm, fuel)
    requires Machine.Run(p, vm, fuel).Back?
    ensures 0 in st1.mem && Reaches(Compiled(p, code).value, At(0, st), Done(st1, st1.mem[0]))
    ensures Shown(Machine.Run(p, vm, fuel).vm.(fp := vm.fp), st1.mem)
    ensures OutsideKept(vm.fp, vm, Machine.Run(p, vm, fuel).vm)
  {
    hide Reaches, Shown, Machine.Execute, GoodOperands, Machine.Run, IntegerRun, Targets, Lower, OutsideKept;
    Entered(p, code, entry, vm, st);
    st1 := RunSim(p, code, entry, 0, vm, At(0, st), st, fuel);
  }

  // ---- failing runs ----

  /** The quotient that does not fit 32 bits. */
  predicate Overflows(ins: Instr, vm: Machine.VM) {
    (ins.op.DIV? || ins.op.MOD?) && vm.Reg(ins.b) == Int(-0x8000_0000) && vm.Reg(ins.c) == Int(-1)
  }

  lemma NotANumber(v: Value, c: Cell)
    requires Rep(v, c)
    ensures c.hi == TYPE_INT <==> v.Int?
    ensures !v.Int? ==> c.hi != TYPE_FLOAT
    ensures c != FAILED
  {
    if v.Arr? { HeaderBack(c.hi, v.len); }
  }

  /** An instruction whose operands the interpreter refuses: the compiled code returns the
      error word, or traps on the quotient that does not fit; the window is as before. */
  lemma RefusalSim(p: Machine.Program, ms: seq<Mop>, s: Run, pos: nat, i: nat, ins: Instr, vm: Machine.VM, st: MState)
    returns (st1: MState)
    requires InFragment(ins) && Refused(ins, vm) && Shown(vm, st.mem)
    requires Lower(p, i, ins).Some? && Here(ms, pos, Lower(p, i, ins).value) && Reaches(ms, s, At(pos, st))
    ensures st1.mem == st.mem
    ensures if Overflows(ins, vm) then Reaches(ms, s, Bad) else Reaches(ms, s, Done(st1, FAILED))
  {
    hide Reaches, Here, Shown, LowerBinary, LowerMod, LowerNeg, Checked, Divided, Exit, Rep, Wrap32, TruncDiv;
    ShownAt(vm, st.mem, ins.b);
    ShownAt(vm, st.mem, ins.c);
    NotANumber(vm.Reg(ins.b), st.mem[ins.b]);
    NotANumber(vm.Reg(ins.c), st.mem[ins.c]);
    RepInt(vm.Reg(ins.b), st.mem[ins.b]);
    RepInt(vm.Reg(ins.c), st.mem[ins.c]);
    var all := Lower(p, i, ins).value;
    st1 := st;
    if ins.op.NEG? {
      NegShape(i, ins.a, ins.b);
      st1 := NoNumber(ms, s, pos, i, all, ins.b, 7, st);
    } else {
      RefusedHow(ins, vm);
      var op := Machine.BinaryOf(ins.op).value;
      var l1 := if ins.op.MOD? then Local(i, 0) else Local(i, 1);
      if ins.op.MOD? { ModShape(i, ins.a, ins.b, ins.c); } else { BinaryShape(i, op, ins.a, ins.b, ins.c); }
      if Overflows(ins, vm) {
        Traps(ms, s, pos, i, all, l1, ins.b, ins.c, st);
      } else if vm.Reg(ins.b).Int? {
        st1 := CheckFails(ms, s, pos, i, all, l1, ins.b, ins.c, st);
      } else if ins.op.MOD? {
        st1 := FirstCheckFails(ms, s, pos, i, all, ins.b, ins.c, st);
      } else {
        st1 := NoNumber(ms, s, pos, i, all, ins.b, |all| - 12, st);
      }
    }
  }

  /** The first check of `modulo_operation`, which leads to the error exit at once. */
  lemma FirstCheckFails(ms: seq<Mop>, s: Run, pos: nat, i: nat, all: seq<Mop>, b: nat, c: nat, st: MState)
    returns (st1: MState)
    requires Here(ms, pos, all) && Checked(i, all, Local(i, 0), b, c) && Reaches(ms, s, At(pos, st))
    requires b in st.mem && st.mem[b].hi != TYPE_INT
    ensures st1.mem == st.mem && Reaches(ms, s, Done(st1, FAILED))
  {
    hide Reaches, Here, Exit;
    CheckedAt(i, all, Local(i, 0), b, c);
    Walk(ms, s, pos, all, 0, st);
    st1 := Exec(all[0], st).st;
    st1 := Fails(ms, s, pos, i, all, 1, NE, st1);
  }

  /** Why the interpreter refuses: an operand that is no integer, a division by zero, or
      the quotient that does not fit. */
  lemma RefusedHow(ins: Instr, vm: Machine.VM)
    requires Refused(ins, vm) && !ins.op.NEG?
    ensures !ins.op.EQ? && !ins.op.NEQ?
    ensures vm.Reg(ins.b).Int? && vm.Reg(ins.c).Int? ==>
              (ins.op.DIV? || ins.op.MOD?) && (vm.Reg(ins.c).i == 0 || Overflows(ins, vm))
  {
  }

  /** What is reached from `s` when the instruction at `vm.ip` has been refused there. */
  ghost predicate Refusal(p: Machine.Program, code: seq<Instr>, s: Run, vm: Machine.VM, st: MState) {
    && vm.ip < |p.code| && Refused(p.code[vm.ip], vm) && Shown(vm, st.mem) && Compiled(p, code).Some?
    && Reaches(Compiled(p, code).value, s, if Overflows(p.code[vm.ip], vm) then Bad else Done(st, FAILED))
  }

  lemma {:induction false} RunFails(p: Machine.Program, code: seq<Instr>, entry: nat, i: nat, vm: Machine.VM, s: Run,
      st: MState, fuel: nat)
    returns (n: nat, last: Machine.VM, st1: MState)
    requires CodeAt(p, code, entry) && InStep(p, code, entry, i, vm, s, st) && IntegerRun(p, vm, fuel)
    requires Machine.Run(p, vm, fuel).Threw?
    ensures Machine.Steps(p, Machine.Running(vm), n) == Machine.Running(last) && Refusal(p, code, s, last, st1)
    ensures last.fp == vm.fp && last.calls == vm.calls && OutsideKept(vm.fp, vm, last)
    decreases fuel
  {
    hide Reaches, Shown, Compiled, PlaceOf, Machine.Execute, GoodOperands, Suited, Refused, Overflows, Lower,
        OutsideKept;
    var ins := code[i];
    FragmentEvents(p, ins, vm.(ip := vm.ip + 1));
    WritesInside(p, ins, vm);
    assert Machine.Dispatch(p, vm) == Machine.Execute(p, ins, vm.(ip := vm.ip + 1));
    match Machine.Dispatch(p, vm)
    case Next(vm1) =>
      NotRefused(p, ins, vm);
      var j, st2 := StepSim(p, code, entry, i, vm, s, st);
      ExecuteKeeps(p, ins, vm.(ip := vm.ip + 1));
      var m;
      m, last, st1 := RunFails(p, code, entry, j, vm1, s, st2, fuel - 1);
      n := m + 1;
      OutsideThen(vm.fp, vm, vm1, last);
    case Throw =>
      n, last := 0, vm;
      OutsideSame(vm.fp, vm);
      Layout(p, code, i);
      if IsJump(ins) { JumpTarget(p, code, i); }
      ThrowsRefused(p, code, i, vm);
      st1 := RefusalSim(p, Compiled(p, code).value, s, PlaceOf(p, code, i), i, ins, vm, st);
  }

  /** In compiled code nothing but a refused operand makes the interpreter throw. */
  lemma ThrowsRefused(p: Machine.Program, code: seq<Instr>, i: nat, vm: Machine.VM)
    requires i < |code| && InFragment(code[i]) && Lower(p, i, code[i]).Some? && vm.calls != []
    requires Suited(code[i], vm) && Machine.Execute(p, code[i], vm.(ip := vm.ip + 1)).Throw?
    requires IsJump(code[i]) ==> vm.ip + 1 + code[i].Sbx() >= 0
    ensures Refused(code[i], vm)
  {
    hide Binary, LowerBinary, LowerMod, LowerNeg, LowerJump, LowerEq;
    var vm1 := vm.(ip := vm.ip + 1);
    assert forall r: nat :: vm1.Reg(r) == vm.Reg(r);
  }

  /** A run of the interpreter that throws: it throws at an instruction whose operands it
      refuses. There the compiled code shows the same window and returns the error word,
      or traps when the quotient does not fit. */
  lemma JitFails(p: Machine.Program, code: seq<Instr>, entry: nat, vm: Machine.VM, st: MState, fuel: nat)
    returns (n: nat, last: Machine.VM, st1: MState)
    requires CodeAt(p, code, entry) && Compiled(p, code).Some?
    requires vm.ip == entry && vm.calls != [] && Shown(vm, st.mem) && IntegerRun(p, vm, fuel)
    requires Machine.Run(p, vm, fuel).Threw?
    ensures Machine.Steps(p, Machine.Running(vm), n) == Machine.Running(last) && Refusal(p, code, At(0, st), last, st1)
    ensures last.fp == vm.fp && last.calls == vm.calls && OutsideKept(vm.fp, vm, last)
  {
    hide Reaches, Shown, Machine.Execute, GoodOperands, Machine.Run, IntegerRun, Targets, Lower, Refusal, OutsideKept;
    Entered(p, code, entry, vm, st);
    n, last, st1 := RunFails(p, code, entry, 0, vm, At(0, st), st, fuel);
  }

  /** The word in the return register tells the two apart: it is the error word, or the
      code traps, exactly when the interpreter throws. */
  lemma JitOutcome(p: Machine.Program, code: seq<Instr>, entry: nat, vm: Machine.VM, st: MState, fuel: nat)
    returns (end: Run)
    requires CodeAt(p, code, entry) && Compiled(p, code).Some?
    requires vm.ip == entry && vm.calls != [] && Shown(vm, st.mem) && IntegerRun(p, vm, fuel)
    requires Machine.Run(p, vm, fuel).Back? || Machine.Run(p, vm, fuel).Threw?
    ensures Reaches(Compiled(p, code).value, At(0, st), end) && !end.At?
    ensures Machine.Run(p, vm, fuel).Threw? <==> end.Bad? || end.word == FAILED
  {
    hide Reaches, Shown, Machine.Run, IntegerRun, CodeAt, Compiled, OutsideKept, Rep, Overflows, Refused;
    if Machine.Run(p, vm, fuel).Back? {
      var st1 := JitSimulates(p, code, entry, vm, st, fuel);
      var back := Machine.Run(p, vm, fuel).vm.(fp := vm.fp);
      ShownAt(back, st1.mem, 0);
      NotANumber(back.Reg(0), st1.mem[0]);
      end := Done(st1, st1.mem[0]);
    } else {
      var _, last, st1 := JitFails(p, code, entry, vm, st, fuel);
      end := if Overflows(p.code[last.ip], last) then Bad else Done(st1, FAILED);
    }
  }

  /** The value that a cell holds, its mark bit aside. */
  function Decoded(c: Cell): Value {
    var unsigned := if c.lo < 0 then c.lo + TWO_32 else c.lo;
    if c.hi % 2 == TYPE_OBJ then Arr(unsigned, c.hi / 4)
    else if c.hi == TYPE_INT then Int(c.lo)
    else if c.hi == TYPE_CALLABLE then Fun(unsigned)
    else Nil
  }

  lemma HeaderBack(hi: nat, len: nat)
    requires hi == 4 * len + 1 || hi == 4 * len + 3
    ensures hi / 4 == len && hi % 2 == 1
  {
    OddIs(hi, if hi == 4 * len + 1 then 2 * len else 2 * len + 1);
  }

  lemma OddIs(hi: nat, k: nat)
    requires hi == 2 * k + 1
    ensures hi % 2 == 1
  {
  }

  lemma DecodedIs(v: Value, c: Cell)
    requires Rep(v, c)
    ensures Decoded(c) == v
  {
    if v.Arr? {
      HeaderBack(c.hi, v.len);
    }
  }

  /** The machine behind `invoke_jit`: the window holds what the compiled code left in it,
      every other slot what the call left there, and the frame has been popped. */
  function AfterInvoke(callee: Machine.VM, mem: map<nat, Cell>): Machine.VM
    requires callee.calls != []
  {
    var n := |callee.calls| - 1;
    Machine.VM(callee.calls[n].retIp, callee.calls[n].basePtr, callee.stack + Window(callee.fp, mem), callee.calls[..n],
               callee.heap)
  }

  function Window(fp: nat, mem: map<nat, Cell>): map<nat, Value> {
    map i: nat | fp <= i < fp + BYTE && RegAt(fp, i) in mem :: Decoded(mem[RegAt(fp, i)])
  }

  /** The register that slot `i` is in the window at `fp`. */
  function RegAt(fp: nat, i: nat): int { i - fp }

  lemma SlotAfter(callee: Machine.VM, mem: map<nat, Cell>, i: nat)
    requires callee.calls != []
    ensures AfterInvoke(callee, mem).Get(i) ==
            if callee.fp <= i < callee.fp + BYTE && i - callee.fp in mem then Decoded(mem[i - callee.fp])
                else callee.Get(i)
  {
    hide Decoded;
    assert i in Window(callee.fp, mem) <==> callee.fp <= i < callee.fp + BYTE && RegAt(callee.fp, i) in mem;
  }

  lemma WindowBack(callee: Machine.VM, mem: map<nat, Cell>, back: Machine.VM)
    requires callee.calls != [] && Shown(back.(fp := callee.fp), mem) && OutsideKept(callee.fp, callee, back)
    ensures AfterInvoke(callee, mem).heap == back.heap
    ensures forall i: nat :: AfterInvoke(callee, mem).Get(i) == back.Get(i)
  {
    hide Rep, Decoded, Shown, Window;
    forall i: nat ensures AfterInvoke(callee, mem).Get(i) == back.Get(i) {
      SlotAfter(callee, mem, i);
      if callee.fp <= i < callee.fp + BYTE {
        var r: nat := i - callee.fp;
        ShownAt(back.(fp := callee.fp), mem, r);
        assert back.(fp := callee.fp).Reg(r) == back.Get(i);
        DecodedIs(back.Get(i), mem[r]);
      } else {
        assert back.Get(i) == callee.Get(i);
      }
    }
  }

  /** `invoke_jit` in place of the nested `run`: it leaves the machine in the state the
      interpreter leaves it in, slot by slot, inside the window and outside. */
  lemma InvokeJit(p: Machine.Program, code: seq<Instr>, vm: Machine.VM, fid: nat, first: nat, count: nat, st: MState,
      fuel: nat)
    returns (st1: MState)
    requires Machine.DoCall(p, vm, fid, first, count).Enter?
    requires var callee := Machine.DoCall(p, vm, fid, first, count).vm;
             && CodeAt(p, code, callee.ip) && Compiled(p, code).Some? && Shown(callee, st.mem)
             && IntegerRun(p, callee, fuel) && Machine.Run(p, callee, fuel).Back?
    ensures 0 in st1.mem && Reaches(Compiled(p, code).value, At(0, st), Done(st1, st1.mem[0]))
    ensures var callee := Machine.DoCall(p, vm, fid, first, count).vm;
            var after, back := AfterInvoke(callee, st1.mem), Machine.Run(p, callee, fuel).vm;
            && after.ip == back.ip && after.fp == back.fp && after.calls == back.calls && after.heap == back.heap
            && forall i: nat :: after.Get(i) == back.Get(i)
  {
    hide Reaches, Shown, Machine.Run, IntegerRun, CodeAt, Compiled, OutsideKept;
    var callee := Machine.DoCall(p, vm, fid, first, count).vm;
    Machine.RunBalanced(p, callee, fuel);
    st1 := JitSimulates(p, code, callee.ip, callee, st, fuel);
    WindowBack(callee, st1.mem, Machine.Run(p, callee, fuel).vm);
  }

  /** `invoke_jit` reads no word that comes back. When the interpreter would throw inside
      the call and the compiled code does not trap, the machine goes on behind the call, with
      the frame popped and every slot as it was at the instruction that failed. */
  lemma FailureGoesUnnoticed(p: Machine.Program, code: seq<Instr>, vm: Machine.VM, fid: nat, first: nat, count: nat,
      st: MState, fuel: nat)
    returns (n: nat, last: Machine.VM, st1: MState)
    requires Machine.DoCall(p, vm, fid, first, count).Enter?
    requires var callee := Machine.DoCall(p, vm, fid, first, count).vm;
             && CodeAt(p, code, callee.ip) && Compiled(p, code).Some? && Shown(callee, st.mem)
             && IntegerRun(p, callee, fuel) && Machine.Run(p, callee, fuel).Threw?
    ensures var callee := Machine.DoCall(p, vm, fid, first, count).vm;
            && Machine.Steps(p, Machine.Running(callee), n) == Machine.Running(last)
            && last.calls == callee.calls && last.ip < |p.code| && Refused(p.code[last.ip], last)
            && (!Overflows(p.code[last.ip], last) ==>
                  && Reaches(Compiled(p, code).value, At(0, st), Done(st1, FAILED))
                  && var after := AfterInvoke(callee, st1.mem);
                     && after.ip == vm.ip && after.fp == vm.fp && after.calls == vm.calls && after.heap == vm.heap
                     && forall i: nat :: after.Get(i) == last.Get(i))
  {
    hide Reaches, Shown, Machine.Run, IntegerRun, CodeAt, Compiled, OutsideKept, Refused, Overflows, Rep, Window;
    var callee := Machine.DoCall(p, vm, fid, first, count).vm;
    n, last, st1 := JitFails(p, code, callee.ip, callee, st, fuel);
    WindowBack(callee, st1.mem, last);
    HeapKept(callee, last);
  }

  lemma HeapKept(vm: Machine.VM, vm1: Machine.VM)
    requires OutsideKept(vm.fp, vm, vm1)
    ensures vm1.heap == vm.heap
  {
  }
}
