/** The machine code the JIT emits, as an abstract machine: virtual registers, the
    register window of the frame as 64-bit cells, the flags of the last comparison,
    and labels that are bound in the code (the x86 instructions used by
    src/jit_runtime.h and src/jit_runtime.cpp). */
module MicroMachine {
  import opened Values

  /** A stack slot: payload in the low word, type in the high word (src/value.h). */
  datatype Cell = Cell(lo: int32, hi: nat)

  const TYPE_OBJ: nat := 1
  const TYPE_INT: nat := 4
  const TYPE_FLOAT: nat := 8
  const TYPE_CALLABLE: nat := 12
  const TYPE_NIL: nat := 16

  /** Labels are identities: one per jump target, and those of one lowered instruction. */
  datatype Label = Target(loc: nat) | Local(at: nat, k: nat)

  datatype Cond = E | NE | L | LE

  datatype Temp = T8(b: bool) | T32(d: int32) | T64(q: Cell)

  /** `r` is a slot of the window, `t` and `d` are virtual registers. */
  datatype Mop =
    | MovAbs(t: nat, v: Cell)
    | LoadQ(t: nat, r: nat) | StoreQ(r: nat, t: nat)
    | LoadD(t: nat, r: nat) | StoreD(r: nat, t: nat)
    | StoreType(r: nat, ty: nat)
    | CmpType(r: nat, ty: nat) | CmpD(r: nat, n: int32) | CmpTD(t: nat, r: nat) | CmpTT(t: nat, d: nat)
    | SetMark(t: nat)
    | AddD(t: nat, r: nat) | SubD(t: nat, r: nat) | ImulD(t: nat, r: nat)
    | Cdq(d: nat, t: nat) | Idiv(d: nat, t: nat, r: nat) | NegD(t: nat)
    | MovTT(t: nat, d: nat) | Movzx(t: nat, d: nat) | Set(c: Cond, t: nat) | AddImm(t: nat, n: int32)
    | Jump(l: Label) | Jcc(c: Cond, l: Label) | Bind(l: Label) | Ret(t: nat)
    | Other  // float instructions and calls, which are not part of this model

  datatype MState = MState(temps: map<nat, Temp>, mem: map<nat, Cell>, eq: bool, lt: bool)

  datatype Effect = Fall(st: MState) | Goto(l: Label, st: MState) | Return(st: MState, word: Cell) | Stuck

  function Holds(c: Cond, st: MState): bool {
    match c
    case E => st.eq case NE => !st.eq case L => st.lt case LE => st.lt || st.eq
  }

  predicate Has32(st: MState, t: nat) { t in st.temps && st.temps[t].T32? }

  function SetT(st: MState, t: nat, v: Temp): Effect { Fall(st.(temps := st.temps[t := v])) }

  function SetM(st: MState, r: nat, c: Cell): Effect { Fall(st.(mem := st.mem[r := c])) }

  function Flags(st: MState, a: int, b: int): Effect { Fall(st.(eq := a == b, lt := a < b)) }

  /** `bts t, 33`: bit 1 of the high word is the mark bit. */
  function Marked(c: Cell): Cell {
    if c.hi / 2 % 2 == 1 then c else Cell(c.lo, c.hi + 2)
  }

  /** The 64-bit dividend of `idiv`, and whether its quotient fits 32 bits. */
  function Dividend(d: int32, t: int32): int { d * TWO_32 + t % TWO_32 }

  function Exec(m: Mop, st: MState): Effect {
    match m
    case MovAbs(t, v) => SetT(st, t, T64(v))
    case LoadQ(t, r) => if r in st.mem then SetT(st, t, T64(st.mem[r])) else Stuck
    case StoreQ(r, t) => if t in st.temps && st.temps[t].T64? then SetM(st, r, st.temps[t].q) else Stuck
    case LoadD(t, r) => if r in st.mem then SetT(st, t, T32(st.mem[r].lo)) else Stuck
    case StoreD(r, t) => if Has32(st, t) && r in st.mem then SetM(st, r, st.mem[r].(lo := st.temps[t].d)) else Stuck
    case StoreType(r, ty) => if r in st.mem then SetM(st, r, st.mem[r].(hi := ty)) else Stuck
    case CmpType(r, ty) => if r in st.mem then Flags(st, st.mem[r].hi, ty) else Stuck
    case CmpD(r, n) => if r in st.mem then Flags(st, st.mem[r].lo, n) else Stuck
    case CmpTD(t, r) => if Has32(st, t) && r in st.mem then Flags(st, st.temps[t].d, st.mem[r].lo) else Stuck
    case CmpTT(t, d) =>
      if t in st.temps && st.temps[t].T64? && d in st.temps && st.temps[d].T64? then
        Fall(st.(eq := st.temps[t].q == st.temps[d].q, lt := st.temps[t].q.hi < st.temps[d].q.hi))
      else Stuck
    case SetMark(t) => if t in st.temps && st.temps[t].T64? then SetT(st, t, T64(Marked(st.temps[t].q))) else Stuck
    case AddD(t, r) => if Has32(st, t) && r in st.mem then SetT(st, t, T32(Wrap32(st.temps[t].d + st.mem[r].lo)))
        else Stuck
    case SubD(t, r) => if Has32(st, t) && r in st.mem then SetT(st, t, T32(Wrap32(st.temps[t].d - st.mem[r].lo)))
        else Stuck
    case ImulD(t, r) => if Has32(st, t) && r in st.mem then SetT(st, t, T32(Wrap32(st.temps[t].d * st.mem[r].lo)))
        else Stuck
    case Cdq(d, t) => if Has32(st, t) then SetT(st, d, T32(if st.temps[t].d < 0 then -1 else 0)) else Stuck
    case Idiv(d, t, r) =>
      if Has32(st, t) && Has32(st, d) && r in st.mem && st.mem[r].lo != 0 && t != d then
        var n, m := Dividend(st.temps[d].d, st.temps[t].d), st.mem[r].lo;
        var q := TruncDiv(n, m);
        if -TWO_31 <= q < TWO_31 && -TWO_31 <= n - m * q < TWO_31 then
          Fall(st.(temps := st.temps[t := T32(q)][d := T32(n - m * q)]))
        else Stuck
      else Stuck
    case NegD(t) => if Has32(st, t) then SetT(st, t, T32(Wrap32(0 - st.temps[t].d))) else Stuck
    case MovTT(t, d) => if Has32(st, d) then SetT(st, t, st.temps[d]) else Stuck
    case Movzx(t, d) => if d in st.temps && st.temps[d].T8? then SetT(st, t, T32(if st.temps[d].b then 1 else 0))
        else Stuck
    case Set(c, t) => SetT(st, t, T8(Holds(c, st)))
    case AddImm(t, n) =>
      if t in st.temps && st.temps[t].T64? then SetT(st, t, T64(Cell(Wrap32(st.temps[t].q.lo + n), st.temps[t].q.hi)))
          else Stuck
    case Jump(l) => Goto(l, st)
    case Jcc(c, l) => if Holds(c, st) then Goto(l, st) else Fall(st)
    case Bind(_) => Fall(st)
    case Ret(t) => if t in st.temps && st.temps[t].T64? then Return(st, st.temps[t].q) else Stuck
    case Other => Stuck
  }

  /** Where a label is bound. */
  function Find(ms: seq<Mop>, l: Label): (k: nat)
    ensures k <= |ms|
    ensures k < |ms| ==> ms[k] == Bind(l)
    ensures forall j | 0 <= j < k :: ms[j] != Bind(l)
  {
    if ms == [] || ms[0] == Bind(l) then 0 else 1 + Find(ms[1..], l)
  }

  /** The code is running, has returned with a word in the return register, or is stuck. */
  datatype Run = At(pc: nat, st: MState) | Done(st: MState, word: Cell) | Bad

  function Next(ms: seq<Mop>, s: Run): Run {
    if !s.At? then s
    else if s.pc >= |ms| then Bad
    else
      match Exec(ms[s.pc], s.st)
      case Fall(st) => At(s.pc + 1, st)
      case Goto(l, st) => if Find(ms, l) < |ms| then At(Find(ms, l), st) else Bad
      case Return(st, word) => Done(st, word)
      case Stuck => Bad
  }

  function Go(ms: seq<Mop>, s: Run, n: nat): Run
    decreases n
  {
    if n == 0 then s else Go(ms, Next(ms, s), n - 1)
  }

  ghost predicate Reaches(ms: seq<Mop>, s: Run, s1: Run) {
    exists n: nat :: Go(ms, s, n) == s1
  }

  lemma ReachesSelf(ms: seq<Mop>, s: Run)
    ensures Reaches(ms, s, s)
  {
    assert Go(ms, s, 0) == s;
  }

  lemma {:induction false} GoAdd(ms: seq<Mop>, s: Run, m: nat, n: nat)
    ensures Go(ms, s, m + n) == Go(ms, Go(ms, s, m), n)
    decreases m
  {
    hide Next;
    if m > 0 { GoAdd(ms, Next(ms, s), m - 1, n); }
  }

  lemma ReachesThen(ms: seq<Mop>, s: Run, s1: Run, s2: Run)
    requires Reaches(ms, s, s1) && Reaches(ms, s1, s2)
    ensures Reaches(ms, s, s2)
  {
    hide Next, Go;
    var m :| Go(ms, s, m) == s1;
    var n :| Go(ms, s1, n) == s2;
    GoAdd(ms, s, m, n);
  }

  /** One step more. */
  lemma ReachesNext(ms: seq<Mop>, s: Run, s1: Run)
    requires Reaches(ms, s, s1)
    ensures Reaches(ms, s, Next(ms, s1))
  {
    hide Next;
    assert Go(ms, s1, 1) == Go(ms, Next(ms, s1), 0);
    ReachesThen(ms, s, s1, Next(ms, s1));
  }

  /** Each label is bound at one place only. */
  ghost predicate BoundOnce(ms: seq<Mop>) {
    forall i, j | 0 <= i < j < |ms| && ms[i].Bind? && ms[j].Bind? :: ms[i].l != ms[j].l
  }

  lemma FindIs(ms: seq<Mop>, l: Label, k: nat)
    requires BoundOnce(ms) && k < |ms| && ms[k] == Bind(l)
    ensures Find(ms, l) == k
  {
    assert Find(ms, l) <= k;
  }
}
