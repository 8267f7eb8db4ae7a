/** Linking: constants get pool indices, labels become offsets, functions are laid
    out one behind the other and the call of `main` behind them all
    (src/bytecode_emitter.cpp). */
module Linker {
  import opened Values
  import opened Ast
  import opened Codegen
  import opened CodegenFacts
  import opened SourceSemantics
  import opened Bytecode
  import M = Machine

  // ---- the constant pool ----

  /** `emit_loadi`: a literal seen before keeps its index. */
  function AddConstant(pool: seq<int32>, v: int32): seq<int32> {
    if v in pool then pool else pool + [v]
  }

  function PoolOfCode(pool: seq<int32>, code: Code): (r: seq<int32>)
    ensures pool <= r
  {
    if code == [] then pool
    else
      var before := PoolOfCode(pool, code[..|code| - 1]);
      var last := code[|code| - 1];
      if last.LoadI? then AddConstant(before, last.v) else before
  }

  function PoolOf(pool: seq<int32>, ems: seq<Emit>): (r: seq<int32>)
    ensures pool <= r
    decreases ems
  {
    if ems == [] then pool else PoolOf(PoolOfCode(pool, ems[0].code), ems[1..])
  }

  function IndexOf(pool: seq<int32>, v: int32): (i: nat)
    ensures v in pool ==> i < |pool| && pool[i] == v
  {
    if pool == [] || pool[0] == v then 0 else 1 + IndexOf(pool[1..], v)
  }

  // ---- instruction words ----

  const MAX_OFFSET: int := 10000

  function Offset(labels: map<nat, nat>, l: nat, pos: nat): int {
    if l in labels then labels[l] - pos - 1 else 0
  }

  /** `resolve` refuses longer jumps, and labels that were never placed. */
  predicate Resolvable(em: Emit) {
    forall i | 0 <= i < |em.code| && JumpLabel(em.code[i]).Some? ::
      && JumpLabel(em.code[i]).value in em.labels
      && -MAX_OFFSET <= Offset(em.labels, JumpLabel(em.code[i]).value, i) <= MAX_OFFSET
  }

  /** How far a jump may lead: 10000 instructions either way, counted from the next one. */
  lemma JumpReach(em: Emit)
    ensures Resolvable(em) <==>
              forall i | 0 <= i < |em.code| && JumpLabel(em.code[i]).Some? ::
                && JumpLabel(em.code[i]).value in em.labels
                && i + 1 - 10000 <= em.labels[JumpLabel(em.code[i]).value] <= i + 1 + 10000
  {
  }

  function BinaryOpcode(op: BinOp): Op {
    match op
    case Add => ADD case Sub => SUB case Mul => MUL case Div => DIV case Mod => MOD
    case Eq => EQ case Neq => NEQ case Lt => LT case Le => LE
  }

  /** A wide operand is cut to its field; `Limits` says when nothing is lost. */
  function Wide(bx: int): (r: nat)
    ensures r < BX_LIMIT
    ensures 0 <= bx < BX_LIMIT ==> r == bx
  {
    bx % BX_LIMIT
  }

  function WordOf(li: LInstr, pos: nat, labels: map<nat, nat>, pool: seq<int32>): Word {
    match li
    case LoadI(a, v) => EncodeABx(LOADINT, a, Wide(IndexOf(pool, v)))
    case LoadF(a, f) => EncodeABx(LOADFUNC, a, Wide(f))
    case LoadNil(a) => EncodeABC(LOADNIL, a, 0, 0)
    case Move(a, b) => EncodeABC(MOVE, a, b, 0)
    case NegI(a, b) => EncodeABC(NEG, a, b, 0)
    case BinI(op, a, b, c) => EncodeABC(BinaryOpcode(op), a, b, c)
    case AllocI(a, b) => EncodeABC(ALLOC, a, b, 0)
    case GetI(a, b, c) => EncodeABC(ARRGET, a, b, c)
    case SetI(a, b, c) => EncodeABC(ARRSET, a, b, c)
    case Invoke(a, b, c) => EncodeABC(INVOKEDYNAMIC, a, b, c)
    case Ret(a) => EncodeABC(RETURN, a, 0, 0)
    case RetNil => EncodeABx(RETURNNIL, 0, 0)
    case Jmp(l) => EncodeABx(JMP, 0, Wide(Offset(labels, l, pos) + J_ZERO))
    case JmpT(a, l) => EncodeABx(JMPT, a, Wide(Offset(labels, l, pos) + J_ZERO))
    case JmpF(a, l) => EncodeABx(JMPF, a, Wide(Offset(labels, l, pos) + J_ZERO))
  }

  function WordsOf(em: Emit, pool: seq<int32>): (w: seq<Word>)
    ensures |w| == |em.code|
    ensures forall i | 0 <= i < |w| :: w[i] == WordOf(em.code[i], i, em.labels, pool)
  {
    seq(|em.code|, i requires 0 <= i < |em.code| => WordOf(em.code[i], i, em.labels, pool))
  }

  // ---- whole programs ----

  predicate DistinctNames(src: Source) {
    forall i, j | 0 <= i < j < |src| :: src[i].name != src[j].name
  }

  /** All functions in order; label numbers run on from one to the next. */
  function CompileUpTo(src: Source, n: nat): (r: Option<(seq<Emit>, nat)>)
    requires n <= |src|
    ensures r.Some? ==> |r.value.0| == n
  {
    if n == 0 then Some(([], 0))
    else
      var (ems, uid) :- CompileUpTo(src, n - 1);
      var em :- CompileFunction(src[n - 1], FuncTable(src, n - 1), uid);
      Some((ems + [em], em.uid))
  }

  function Concat(ems: seq<Emit>, pool: seq<int32>): seq<Word> {
    if ems == [] then [] else Concat(ems[..|ems| - 1], pool) + WordsOf(ems[|ems| - 1], pool)
  }

  /** Where the code of function `k` starts. */
  function EntryOf(ems: seq<Emit>, k: nat): nat
    requires k <= |ems|
  {
    if k == 0 then 0 else EntryOf(ems, k - 1) + |ems[k - 1].code|
  }

  datatype Image = Image(words: seq<Word>, constants: seq<int32>, funcs: seq<M.FuncInfo>, start: nat)

  function FuncInfos(src: Source, ems: seq<Emit>): (r: seq<M.FuncInfo>)
    requires |src| == |ems|
    ensures |r| == |src|
    ensures forall k | 0 <= k < |r| :: r[k] == M.FuncInfo(EntryOf(ems, k), |src[k].params|, |ems[k].code|)
  {
    seq(|src|, k requires 0 <= k < |src| => M.FuncInfo(EntryOf(ems, k), |src[k].params|, |ems[k].code|))
  }

  /** The whole of `parse_program` and `initVM`; `None` where one of them throws. */
  function Link(src: Source): Option<Image> {
    var (ems, _) :- CompileUpTo(src, |src|);
    var main :- MainIndex(src);
    if !DistinctNames(src) || !(forall k | 0 <= k < |ems| :: Resolvable(ems[k])) then None
    else
      var pool := PoolOf([], ems);
      var body := Concat(ems, pool);
      Some(Image(body + [EncodeABC(CALL, main, 0, 0), EncodeABx(HALT, 0, 0)],
                 pool, FuncInfos(src, ems), |body|))
  }

  function Boot(image: Image): M.Program {
    M.Program(seq(|image.words|, i requires 0 <= i < |image.words| => Decode(image.words[i])),
              image.constants, image.funcs)
  }

  function Initial(image: Image): M.VM {
    M.VM(image.start, 0, map[], [], EMPTY_HEAP)
  }

  // ---- what fits into the instruction format ----

  predicate FieldsFit(li: LInstr) {
    match li
    case LoadI(a, _) => a < BYTE
    case LoadF(a, f) => a < BYTE && f < BYTE
    case LoadNil(a) => a < BYTE
    case Move(a, b) => a < BYTE && b < BYTE
    case NegI(a, b) => a < BYTE && b < BYTE
    case BinI(_, a, b, c) => a < BYTE && b < BYTE && c < BYTE
    case AllocI(a, b) => a < BYTE && b < BYTE
    case GetI(a, b, c) => a < BYTE && b < BYTE && c < BYTE
    case SetI(a, b, c) => a < BYTE && b < BYTE && c < BYTE
    case Invoke(a, b, c) => a < BYTE && b < BYTE && c < BYTE
    case Ret(a) => a < BYTE
    case RetNil => true
    case Jmp(_) => true
    case JmpT(a, _) => a < BYTE
    case JmpF(a, _) => a < BYTE
  }

  /** Registers and argument counts fit a byte, function numbers fit a byte and
      pool indices fit 18 bits: the compiler does not check any of this. */
  predicate Limits(src: Source) {
    && |src| <= BYTE
    && var r := CompileUpTo(src, |src|);
       r.Some? ==>
         && |PoolOf([], r.value.0)| < BX_LIMIT
         && forall k, i | 0 <= k < |r.value.0| && 0 <= i < |r.value.0[k].code| :: FieldsFit(r.value.0[k].code[i])
  }
}
