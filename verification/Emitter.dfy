/** The bytecode emitter (src/bytecode_emitter.h, src/bytecode_emitter.cpp): instruction
    words with jumps that are patched when their function ends, and the constant pool. */
module Emitter {
  import opened Values
  import opened Bytecode
  import opened Codegen
  import opened CodegenFacts
  import opened Linker
  import M = Machine

  datatype EmitFunc = EmitFunc(name: string, code: seq<Word>, arity: nat)

  function JumpOp(li: LInstr): (Op, nat)
    requires JumpLabel(li).Some?
  {
    match li
    case Jmp(_) => (JMP, 0)
    case JmpT(a, _) => (JMPT, a)
    case JmpF(a, _) => (JMPF, a)
  }

  /** The word stands for the instruction; a jump's operand is not filled in yet. */
  ghost predicate Stands(w: Word, li: LInstr, pool: seq<int32>) {
    if JumpLabel(li).Some? then
      Decode(w).known && Decode(w).op == JumpOp(li).0 && AField(w) == JumpOp(li).1 % BYTE
    else
      w == WordOf(li, 0, map[], pool) && (li.LoadI? ==> li.v in pool)
  }

  ghost predicate AllStand(ws: seq<Word>, code: Code, pool: seq<int32>) {
    |ws| == |code| && forall i | 0 <= i < |ws| :: Stands(ws[i], code[i], pool)
  }

  /** The jumps of a function, in order, with their labels. */
  function PendingOf(code: Code): seq<(nat, nat)> {
    if code == [] then []
    else
      var n := |code| - 1;
      PendingOf(code[..n]) + (if JumpLabel(code[n]).Some? then [(n, JumpLabel(code[n]).value)] else [])
  }

  lemma {:induction false} PendingAt(code: Code)
    ensures forall e | e in PendingOf(code) :: e.0 < |code| && JumpLabel(code[e.0]) == Some(e.1)
    ensures forall i | 0 <= i < |code| && JumpLabel(code[i]).Some? :: (i, JumpLabel(code[i]).value) in PendingOf(code)
  {
    if code != [] {
      var n := |code| - 1;
      PendingAt(code[..n]);
      forall e | e in PendingOf(code) ensures e.0 < |code| && JumpLabel(code[e.0]) == Some(e.1) {
        if e in PendingOf(code[..n]) { assert code[..n][e.0] == code[e.0]; }
      }
      forall i | 0 <= i < |code| && JumpLabel(code[i]).Some? ensures (i, JumpLabel(code[i]).value) in PendingOf(code) {
        if i < n { assert code[..n][i] == code[i]; }
      }
    }
  }

  lemma PendingMore(code: Code, li: LInstr)
    ensures PendingOf(code + [li]) == PendingOf(code) + (if JumpLabel(li).Some? then [(|code|, JumpLabel(li).value)]
              else [])
  {
    assert (code + [li])[..|code|] == code;
  }

  // ---- the constant pool ----

  /** The table of literals is the inverse of the pool. */
  ghost predicate Indexed(iconstants: map<int32, nat>, pool: seq<int32>) {
    && (forall v :: v in iconstants <==> v in pool)
    && forall i | 0 <= i < |pool| :: iconstants[pool[i]] == i + 1
  }

  lemma IndexIs(iconstants: map<int32, nat>, pool: seq<int32>, v: int32)
    requires Indexed(iconstants, pool) && v in pool
    ensures iconstants[v] > 0 && IndexOf(pool, v) == iconstants[v] - 1
  {
  }

  lemma {:induction false} IndexStable(pool: seq<int32>, pool1: seq<int32>, v: int32)
    requires pool <= pool1 && v in pool
    ensures IndexOf(pool1, v) == IndexOf(pool, v)
  {
    if pool[0] != v {
      assert pool1[1..][..|pool[1..]|] == pool[1..];
      IndexStable(pool[1..], pool1[1..], v);
    }
  }

  lemma StandsStable(w: Word, li: LInstr, pool: seq<int32>, pool1: seq<int32>)
    requires pool <= pool1 && Stands(w, li, pool)
    ensures Stands(w, li, pool1)
  {
    if li.LoadI? { IndexStable(pool, pool1, li.v); }
  }

  lemma AllStandStable(ws: seq<Word>, code: Code, pool: seq<int32>, pool1: seq<int32>)
    requires pool <= pool1 && AllStand(ws, code, pool)
    ensures AllStand(ws, code, pool1)
  {
    forall i | 0 <= i < |ws| ensures Stands(ws[i], code[i], pool1) {
      StandsStable(ws[i], code[i], pool, pool1);
    }
  }

  ghost predicate InPool(code: Code, pool: seq<int32>) {
    forall i | 0 <= i < |code| && code[i].LoadI? :: code[i].v in pool
  }

  lemma WordsStable(em: Emit, pool: seq<int32>, pool1: seq<int32>)
    requires pool <= pool1 && InPool(em.code, pool)
    ensures WordsOf(em, pool1) == WordsOf(em, pool)
  {
    forall i | 0 <= i < |em.code| ensures WordOf(em.code[i], i, em.labels, pool1) == WordOf(em.code[i], i, em.labels,
        pool) {
      if em.code[i].LoadI? { IndexStable(pool, pool1, em.code[i].v); }
    }
  }

  // ---- patching ----

  ghost predicate Jumps(em: Emit, l: nat, i: nat) {
    l in em.labels && -MAX_OFFSET <= Offset(em.labels, l, i) <= MAX_OFFSET
  }

  /** Words after the first `k` pending jumps have been patched. */
  ghost predicate Patched(ws: seq<Word>, em: Emit, pool: seq<int32>, k: nat) {
    var pending := PendingOf(em.code);
    && |ws| == |em.code| && k <= |pending|
    && (forall i | 0 <= i < |ws| :: Stands(ws[i], em.code[i], pool))
    && (forall j | 0 <= j < k :: Jumps(em, pending[j].1, pending[j].0) && pending[j].0 < |ws|
                                 && ws[pending[j].0] == WordOf(em.code[pending[j].0], pending[j].0, em.labels, pool))
  }

  lemma {:induction false} PatchOne(ws: seq<Word>, em: Emit, pool: seq<int32>, k: nat)
    requires Patched(ws, em, pool, k) && k < |PendingOf(em.code)|
    ensures var (i, l) := PendingOf(em.code)[k];
            && i < |ws| && Decode(ws[i]).known && JumpLabel(em.code[i]) == Some(l)
            && (Jumps(em, l, i) ==>
                  0 <= Offset(em.labels, l, i) + J_ZERO < BX_LIMIT &&
                  Patched(ws[i := EncodeABx(Decode(ws[i]).op, AField(ws[i]), Offset(em.labels, l, i) + J_ZERO)], em,
                      pool, k + 1))
            && (!Jumps(em, l, i) ==> !Resolvable(em))
  {
    hide Decode, EncodeABx, AField, PendingOf;
    var (i, l) := PendingOf(em.code)[k];
    PendingAt(em.code);
    assert PendingOf(em.code)[k] in PendingOf(em.code);
    assert Stands(ws[i], em.code[i], pool);
    if Jumps(em, l, i) {
      var w := EncodeABx(Decode(ws[i]).op, AField(ws[i]), Offset(em.labels, l, i) + J_ZERO);
      JumpWord(ws[i], em, i, l, pool);
    }
  }

  lemma JumpWordIs(li: LInstr, pos: nat, labels: map<nat, nat>, pool: seq<int32>)
    requires JumpLabel(li).Some?
    ensures var bx := Wide(Offset(labels, JumpLabel(li).value, pos) + J_ZERO);
            WordOf(li, pos, labels, pool) == EncodeABx(JumpOp(li).0, JumpOp(li).1 % BYTE, bx)
  {
  }

  /** A patched jump is the word the linker asks for. */
  lemma JumpWord(w: Word, em: Emit, i: nat, l: nat, pool: seq<int32>)
    requires i < |em.code| && JumpLabel(em.code[i]) == Some(l) && Jumps(em, l, i) && Stands(w, em.code[i], pool)
    ensures var w1 := EncodeABx(Decode(w).op, AField(w), Offset(em.labels, l, i) + J_ZERO);
            w1 == WordOf(em.code[i], i, em.labels, pool) && Stands(w1, em.code[i], pool)
  {
    hide EncodeABx, WordOf, OpField, AField;
    PatchKeepsOpAndA(w, Offset(em.labels, l, i) + J_ZERO);
    JumpWordIs(em.code[i], i, em.labels, pool);
  }

  lemma PatchedAll(ws: seq<Word>, em: Emit, pool: seq<int32>)
    requires Patched(ws, em, pool, |PendingOf(em.code)|)
    ensures Resolvable(em) && ws == WordsOf(em, pool)
  {
    hide PendingOf, WordsOf;
    PendingAt(em.code);
    var pending := PendingOf(em.code);
    forall i | 0 <= i < |em.code|
      ensures ws[i] == WordOf(em.code[i], i, em.labels, pool)
      ensures JumpLabel(em.code[i]).Some? ==> Jumps(em, JumpLabel(em.code[i]).value, i)
    {
      if JumpLabel(em.code[i]).Some? {
        var j :| 0 <= j < |pending| && pending[j] == (i, JumpLabel(em.code[i]).value);
      }
    }
  }

  // ---- the emitter's state ----

  /** The words of the current function, its pending jumps and the constants. */
  ghost predicate Current(ws: seq<Word>, pending: seq<(nat, nat)>, iconstants: map<int32, nat>, count: nat,
      code: Code, pool: seq<int32>) {
    AllStand(ws, code, pool) && pending == PendingOf(code) && Indexed(iconstants, pool) && count == |pool|
  }

  /** The functions that are finished: their words are final. */
  ghost predicate Finished(funcs: seq<EmitFunc>, ems: seq<Emit>, pool: seq<int32>) {
    |ems| == |funcs| && forall k | 0 <= k < |ems| :: InPool(ems[k].code, pool) && funcs[k].code == WordsOf(ems[k], pool)
  }

  ghost predicate Pooled(pool: seq<int32>, ems: seq<Emit>, code: Code) {
    pool == PoolOfCode(PoolOf([], ems), code)
  }

  lemma PooledMore(pool: seq<int32>, ems: seq<Emit>, code: Code, li: LInstr)
    requires Pooled(pool, ems, code)
    ensures Pooled(if li.LoadI? then AddConstant(pool, li.v) else pool, ems, code + [li])
  {
    assert (code + [li])[..|code|] == code;
  }

  lemma CurrentMore(ws: seq<Word>, pending: seq<(nat, nat)>, iconstants: map<int32, nat>, count: nat, code: Code,
      pool: seq<int32>, w: Word, li: LInstr)
    requires Current(ws, pending, iconstants, count, code, pool) && Stands(w, li, pool)
    ensures Current(ws + [w], pending + (if JumpLabel(li).Some? then [(|ws|, JumpLabel(li).value)] else []),
              iconstants, count, code + [li], pool)
  {
    hide PendingOf, Stands, Indexed;
    PendingMore(code, li);
  }

  lemma FinishedMore(funcs: seq<EmitFunc>, ems: seq<Emit>, pool: seq<int32>, pool1: seq<int32>)
    requires Finished(funcs, ems, pool) && pool <= pool1
    ensures Finished(funcs, ems, pool1)
  {
    forall k | 0 <= k < |ems| ensures InPool(ems[k].code, pool1) && funcs[k].code == WordsOf(ems[k], pool1) {
      WordsStable(ems[k], pool, pool1);
    }
  }

  /** A literal that has not been seen before gets the next index. */
  lemma NewConstant(ws: seq<Word>, pending: seq<(nat, nat)>, iconstants: map<int32, nat>, count: nat, code: Code,
      pool: seq<int32>, v: int32)
    requires Current(ws, pending, iconstants, count, code, pool) && v !in iconstants
    ensures Current(ws, pending, iconstants[v := count + 1], count + 1, code, pool + [v])
    ensures AddConstant(pool, v) == pool + [v]
  {
    hide PendingOf, Stands;
    AllStandStable(ws, code, pool, pool + [v]);
  }

  lemma {:induction false} PoolOfSnoc(pool: seq<int32>, ems: seq<Emit>, em: Emit)
    ensures PoolOf(pool, ems + [em]) == PoolOfCode(PoolOf(pool, ems), em.code)
    decreases ems
  {
    hide PoolOfCode;
    if ems != [] {
      PoolOfSnoc(PoolOfCode(pool, ems[0].code), ems[1..], em);
      assert (ems + [em])[1..] == ems[1..] + [em];
    } else {
      assert (ems + [em])[1..] == [];
    }
  }

  class BytecodeEmitter {
    var labelPos: map<nat, nat>
    var pending: seq<(nat, nat)>
    var iconstants: map<int32, nat>
    var iconstantCount: nat
    var isInFunc: bool
    var funcs: seq<EmitFunc>
    var cur: EmitFunc
    var global: seq<Word>
    /** The instructions of the current function, and the functions before it, as the
        code generator sees them. */
    ghost var code: Code
    ghost var ems: seq<Emit>
    ghost var pool: seq<int32>

    ghost predicate Valid()
      reads this
    {
      && Current(if isInFunc then cur.code else [], pending, iconstants, iconstantCount, code, pool)
      && Finished(funcs, ems, pool) && Pooled(pool, ems, code)
      && (!isInFunc ==> code == [] && labelPos == map[]) && global == []
    }

    constructor ()
      ensures Valid() && !isInFunc && ems == [] && funcs == [] && code == []
    {
      labelPos, pending, iconstants, iconstantCount, isInFunc := map[], [], map[], 0, false;
      funcs, cur, global := [], EmitFunc("", [], 0), [];
      code, ems, pool := [], [], [];
    }

    /** `add`. */
    method Add(w: Word, ghost li: LInstr)
      requires Valid() && isInFunc && JumpLabel(li).None? && !li.LoadI? && w == WordOf(li, 0, map[], pool)
      modifies this`cur, this`code
      ensures Valid() && code == old(code) + [li] && cur.name == old(cur).name && cur.arity == old(cur).arity
    {
      hide Current, Finished, Pooled, WordOf;
      StandsPlain(w, li, pool);
      CurrentMore(cur.code, pending, iconstants, iconstantCount, code, pool, w, li);
      PooledMore(pool, ems, code, li);
      assert pending + [] == pending;
      cur := cur.(code := cur.code + [w]);
      code := code + [li];
    }

    method EmitBinary(op: BinOp, a: nat, b: nat, c: nat)
      requires Valid() && isInFunc
      modifies this`cur, this`code
      ensures Valid() && code == old(code) + [BinI(op, a, b, c)] && cur.name == old(cur).name
      ensures cur.arity == old(cur).arity
    {
      hide Current, Finished, Pooled, EncodeABC;
      Add(EncodeABC(BinaryOpcode(op), a, b, c), BinI(op, a, b, c));
    }

    /** `emit_move`: nothing is emitted for a move to the same register. */
    method Move(a: nat, b: nat)
      requires Valid() && isInFunc
      modifies this`cur, this`code
      ensures Valid() && code == EmitMove(old(code), a, b) && cur.name == old(cur).name && cur.arity == old(cur).arity
    {
      hide Current, Finished, Pooled, EncodeABC;
      if a == b { return; }
      Add(EncodeABC(MOVE, a, b, 0), LInstr.Move(a, b));
    }

    method EmitNeg(a: nat, b: nat)
      requires Valid() && isInFunc
      modifies this`cur, this`code
      ensures Valid() && code == old(code) + [NegI(a, b)] && cur.name == old(cur).name && cur.arity == old(cur).arity
    {
      hide Current, Finished, Pooled, EncodeABC;
      Add(EncodeABC(NEG, a, b, 0), NegI(a, b));
    }

    method EmitLoadNil(a: nat)
      requires Valid() && isInFunc
      modifies this`cur, this`code
      ensures Valid() && code == old(code) + [LoadNil(a)] && cur.name == old(cur).name && cur.arity == old(cur).arity
    {
      hide Current, Finished, Pooled, EncodeABC;
      Add(EncodeABC(LOADNIL, a, 0, 0), LoadNil(a));
    }

    method EmitLoadFunc(a: nat, fid: nat)
      requires Valid() && isInFunc
      modifies this`cur, this`code
      ensures Valid() && code == old(code) + [LoadF(a, fid)] && cur.name == old(cur).name && cur.arity == old(cur).arity
    {
      hide Current, Finished, Pooled, EncodeABx;
      Add(EncodeABx(LOADFUNC, a, Wide(fid)), LoadF(a, fid));
    }

    method EmitArrayGet(a: nat, b: nat, c: nat)
      requires Valid() && isInFunc
      modifies this`cur, this`code
      ensures Valid() && code == old(code) + [GetI(a, b, c)] && cur.name == old(cur).name && cur.arity == old(cur).arity
    {
      hide Current, Finished, Pooled, EncodeABC;
      Add(EncodeABC(ARRGET, a, b, c), GetI(a, b, c));
    }

    method EmitArraySet(a: nat, b: nat, c: nat)
      requires Valid() && isInFunc
      modifies this`cur, this`code
      ensures Valid() && code == old(code) + [SetI(a, b, c)] && cur.name == old(cur).name && cur.arity == old(cur).arity
    {
      hide Current, Finished, Pooled, EncodeABC;
      Add(EncodeABC(ARRSET, a, b, c), SetI(a, b, c));
    }

    method EmitAlloc(a: nat, b: nat)
      requires Valid() && isInFunc
      modifies this`cur, this`code
      ensures Valid() && code == old(code) + [AllocI(a, b)] && cur.name == old(cur).name && cur.arity == old(cur).arity
    {
      hide Current, Finished, Pooled, EncodeABC;
      Add(EncodeABC(ALLOC, a, b, 0), AllocI(a, b));
    }

    method EmitCall(a: nat, b: nat, c: nat)
      requires Valid() && isInFunc
      modifies this`cur, this`code
      ensures Valid() && code == old(code) + [Invoke(a, b, c)] && cur.name == old(cur).name
      ensures cur.arity == old(cur).arity
    {
      hide Current, Finished, Pooled, EncodeABC;
      Add(EncodeABC(INVOKEDYNAMIC, a, b, c), Invoke(a, b, c));
    }

    method EmitReturn(a: nat)
      requires Valid() && isInFunc
      modifies this`cur, this`code
      ensures Valid() && code == old(code) + [Ret(a)] && cur.name == old(cur).name && cur.arity == old(cur).arity
    {
      hide Current, Finished, Pooled, EncodeABC;
      Add(EncodeABC(RETURN, a, 0, 0), Ret(a));
    }

    method EmitRetNil()
      requires Valid() && isInFunc
      modifies this`cur, this`code
      ensures Valid() && code == old(code) + [RetNil] && cur.name == old(cur).name && cur.arity == old(cur).arity
    {
      hide Current, Finished, Pooled, EncodeABx;
      Add(EncodeABx(RETURNNIL, 0, 0), RetNil);
    }

    /** `emit_loadi`: a literal keeps the index it was first given. */
    method EmitLoadI(a: nat, v: int32)
      requires Valid() && isInFunc
      modifies this`cur, this`code, this`iconstants, this`iconstantCount, this`pool
      ensures Valid() && code == old(code) + [LoadI(a, v)] && cur.name == old(cur).name && cur.arity == old(cur).arity
      ensures old(pool) <= pool
    {
      hide Current, Finished, Pooled, EncodeABx, AddConstant, PoolOfCode;
      ghost var pool1 := AddConstant(pool, v);
      PooledMore(pool, ems, code, LoadI(a, v));
      ConstantKnown(cur.code, pending, iconstants, iconstantCount, code, pool, v);
      if v !in iconstants {
        NewConstant(cur.code, pending, iconstants, iconstantCount, code, pool, v);
        FinishedMore(funcs, ems, pool, pool1);
        iconstantCount := iconstantCount + 1;
        iconstants := iconstants[v := iconstantCount];
        pool := pool1;
        ConstantKnown(cur.code, pending, iconstants, iconstantCount, code, pool, v);
      }
      var w := EncodeABx(LOADINT, a, Wide(iconstants[v] - 1));
      CurrentMore(cur.code, pending, iconstants, iconstantCount, code, pool, w, LoadI(a, v));
      assert pending + [] == pending;
      cur := cur.(code := cur.code + [w]);
      code := code + [LoadI(a, v)];
    }

    /** `jmp_label`, `jmpt_label` and `jmpf_label`: the operand is patched later. */
    method Jump(w: Word, l: nat, ghost li: LInstr)
      requires Valid() && isInFunc && JumpLabel(li) == Some(l) && Stands(w, li, pool)
      modifies this`cur, this`code, this`pending
      ensures Valid() && code == old(code) + [li] && cur.name == old(cur).name && cur.arity == old(cur).arity
    {
      hide Current, Finished, Pooled, Stands;
      CurrentMore(cur.code, pending, iconstants, iconstantCount, code, pool, w, li);
      PooledMore(pool, ems, code, li);
      pending := pending + [(|cur.code|, l)];
      cur := cur.(code := cur.code + [w]);
      code := code + [li];
    }

    method JmpLabel(l: nat)
      requires Valid() && isInFunc
      modifies this`cur, this`code, this`pending
      ensures Valid() && code == old(code) + [Jmp(l)] && cur.name == old(cur).name && cur.arity == old(cur).arity
    {
      hide Current, Finished, Pooled, EncodeABx;
      DecodeABx(JMP, 0, Wide(l));
      Jump(EncodeABx(JMP, 0, Wide(l)), l, Jmp(l));
    }

    method JmptLabel(a: nat, l: nat)
      requires Valid() && isInFunc
      modifies this`cur, this`code, this`pending
      ensures Valid() && code == old(code) + [JmpT(a, l)] && cur.name == old(cur).name && cur.arity == old(cur).arity
    {
      hide Current, Finished, Pooled, EncodeABx;
      DecodeABx(JMPT, a, 0);
      Jump(EncodeABx(JMPT, a, 0), l, JmpT(a, l));
    }

    method JmpfLabel(a: nat, l: nat)
      requires Valid() && isInFunc
      modifies this`cur, this`code, this`pending
      ensures Valid() && code == old(code) + [JmpF(a, l)] && cur.name == old(cur).name && cur.arity == old(cur).arity
    {
      hide Current, Finished, Pooled, EncodeABx;
      DecodeABx(JMPF, a, 0);
      Jump(EncodeABx(JMPF, a, 0), l, JmpF(a, l));
    }

    /** `label`. */
    method Label(l: nat)
      requires Valid() && isInFunc
      modifies this`labelPos
      ensures Valid() && labelPos == old(labelPos)[l := |code|]
    {
      hide Finished, Pooled, PendingOf, Indexed;
      labelPos := labelPos[l := |cur.code|];
    }

    /** `resolve`: every jump gets the offset of its label; fails exactly for a jump
        whose label was never placed or is too far away. */
    method Resolve(ghost uid: nat) returns (ok: bool)
      requires Valid() && isInFunc
      modifies this`cur, this`pending, this`labelPos
      ensures ok == Resolvable(Emit(code, old(labelPos), uid))
      ensures cur.name == old(cur).name && cur.arity == old(cur).arity
      ensures ok ==> cur.code == WordsOf(Emit(code, old(labelPos), uid), pool) && pending == [] && labelPos == map[]
    {
      hide Finished, Pooled, PendingOf, Indexed, WordsOf, Resolvable, Stands, Decode, AField, EncodeABx;
      ghost var em := Emit(code, labelPos, uid);
      for k := 0 to |pending|
        invariant Patched(cur.code, em, pool, k) && cur.name == old(cur).name && cur.arity == old(cur).arity
        modifies this`cur
      {
        var i: int := pending[k].0;
        var l := pending[k].1;
        PatchOne(cur.code, em, pool, k);
        if l !in labelPos { return false; }
        var instr := cur.code[i];
        var target: int := labelPos[l];
        var bx := target - i - 1;
        if bx > MAX_OFFSET || -bx > MAX_OFFSET { return false; }
        cur := cur.(code := cur.code[i := EncodeABx(Decode(instr).op, AField(instr), bx + J_ZERO)]);
      }
      PatchedAll(cur.code, em, pool);
      pending := [];
      labelPos := map[];
      ok := true;
    }

    /** `begin_func`: the number of the new function. */
    method BeginFunc(args: nat, name: string) returns (fid: nat)
      requires Valid() && !isInFunc
      modifies this`cur, this`isInFunc
      ensures Valid() && isInFunc && fid == |funcs| && cur.name == name && cur.arity == args && code == []
      ensures labelPos == map[]
    {
      hide Finished, Pooled, Indexed;
      cur := EmitFunc(name, [], args);
      isInFunc := true;
      fid := |funcs|;
    }

    /** `end_func`. */
    method EndFunc(ghost uid: nat) returns (ok: bool)
      requires Valid() && isInFunc
      modifies this
      ensures ok == Resolvable(Emit(old(code), old(labelPos), uid))
      ensures ok ==> Valid() && !isInFunc && ems == old(ems) + [Emit(old(code), old(labelPos), uid)]
      ensures ok ==> pool == old(pool)
      ensures ok ==> |funcs| == |old(funcs)| + 1 && funcs[..|old(funcs)|] == old(funcs)
                     && funcs[|old(funcs)|].name == old(cur).name && funcs[|old(funcs)|].arity == old(cur).arity
    {
      hide Pooled, PendingOf, Indexed, WordsOf, Resolvable, Stands;
      ghost var em := Emit(code, labelPos, uid);
      StandInPool(cur.code, code, pool);
      FinishPool(pool, ems, em);
      ok := Resolve(uid);
      if !ok { return; }
      isInFunc := false;
      funcs := funcs + [cur];
      ems := ems + [em];
      code := [];
      EmptyCurrent(iconstants, iconstantCount, pool);
    }

    /** The search for `main` in `initVM`. */
    method FindMain() returns (m: Option<nat>)
      ensures m == LastNamed(funcs, "main")
    {
      m := None;
      for i := 0 to |funcs|
        invariant m == LastNamed(funcs[..i], "main")
      {
        assert funcs[..i + 1][..i] == funcs[..i];
        if funcs[i].name == "main" { m := Some(i); }
      }
      assert funcs[..|funcs|] == funcs;
    }

    /** The constants in the order of their indices. */
    method Constants() returns (constants: seq<int32>)
      requires Valid()
      ensures constants == pool
    {
      hide Finished, Pooled, AllStand, PendingOf;
      constants := seq(iconstantCount, _ => 0);
      var keys := iconstants.Keys;
      while keys != {}
        invariant |constants| == |pool| && keys <= iconstants.Keys
        invariant forall i | 0 <= i < |pool| :: pool[i] !in keys ==> constants[i] == pool[i]
        decreases keys
      {
        var v :| v in keys;
        constants := constants[iconstants[v] - 1 := v];
        keys := keys - {v};
      }
    }

    /** `initVM`: the linked program. */
    method InitVM() returns (r: Option<Image>)
      requires Valid() && !isInFunc
      ensures r == match LastNamed(funcs, "main")
                   case None => None
                   case Some(m) =>
                     Some(Image(Concat(ems, pool) + [EncodeABC(CALL, m, 0, 0), EncodeABx(HALT, 0, 0)], pool,
                                Infos(ems, funcs), |Concat(ems, pool)|))
    {
      hide Pooled, Current, EncodeABC, EncodeABx, WordsOf;
      var main := FindMain();
      if main.None? { return None; }
      var constants := Constants();
      var words, infos := [], [];
      for i := 0 to |funcs|
        invariant words == Concat(ems[..i], pool) && |words| == EntryOf(ems, i)
        invariant infos == Infos(ems, funcs)[..i]
      {
        ConcatMore(ems, pool, i);
        infos := infos + [M.FuncInfo(|words|, funcs[i].arity, |funcs[i].code|)];
        words := words + funcs[i].code;
      }
      assert ems[..|funcs|] == ems && Infos(ems, funcs)[..|funcs|] == Infos(ems, funcs);
      var start := |words|;
      r := Some(Image(words + [EncodeABC(CALL, main.value, 0, 0), EncodeABx(HALT, 0, 0)], constants, infos, start));
    }
  }

  function LastNamed(funcs: seq<EmitFunc>, name: string): Option<nat> {
    if funcs == [] then None
    else if funcs[|funcs| - 1].name == name then Some(|funcs| - 1)
    else LastNamed(funcs[..|funcs| - 1], name)
  }

  function Infos(ems: seq<Emit>, funcs: seq<EmitFunc>): (r: seq<M.FuncInfo>)
    requires |ems| == |funcs|
    ensures |r| == |funcs|
  {
    seq(|funcs|, k requires 0 <= k < |funcs| => M.FuncInfo(EntryOf(ems, k), funcs[k].arity, |ems[k].code|))
  }

  lemma ConcatMore(ems: seq<Emit>, pool: seq<int32>, i: nat)
    requires i < |ems|
    ensures Concat(ems[..i + 1], pool) == Concat(ems[..i], pool) + WordsOf(ems[i], pool)
    ensures EntryOf(ems, i + 1) == EntryOf(ems, i) + |ems[i].code|
  {
    assert ems[..i + 1][..i] == ems[..i];
  }

  lemma StandInPool(ws: seq<Word>, code: Code, pool: seq<int32>)
    requires AllStand(ws, code, pool)
    ensures InPool(code, pool)
  {
    forall i | 0 <= i < |code| && code[i].LoadI? ensures code[i].v in pool {
      assert Stands(ws[i], code[i], pool);
    }
  }

  lemma FinishPool(pool: seq<int32>, ems: seq<Emit>, em: Emit)
    requires Pooled(pool, ems, em.code)
    ensures Pooled(pool, ems + [em], [])
  {
    PoolOfSnoc([], ems, em);
  }

  lemma EmptyCurrent(iconstants: map<int32, nat>, count: nat, pool: seq<int32>)
    requires Indexed(iconstants, pool) && count == |pool|
    ensures Current([], [], iconstants, count, [], pool)
  {
  }

  lemma StandsPlain(w: Word, li: LInstr, pool: seq<int32>)
    requires JumpLabel(li).None? && !li.LoadI? && w == WordOf(li, 0, map[], pool)
    ensures Stands(w, li, pool)
  {
    hide WordOf;
  }

  lemma ConstantKnown(ws: seq<Word>, pending: seq<(nat, nat)>, iconstants: map<int32, nat>, count: nat, code: Code,
      pool: seq<int32>, v: int32)
    requires Current(ws, pending, iconstants, count, code, pool)
    ensures v in iconstants <==> v in pool
    ensures v in pool ==> AddConstant(pool, v) == pool
    ensures v in iconstants ==>
              iconstants[v] > 0 && forall a: nat ::
                  Stands(EncodeABx(LOADINT, a, Wide(iconstants[v] - 1)), LoadI(a, v), pool)
  {
    hide AllStand, PendingOf;
    if v in iconstants {
      IndexIs(iconstants, pool, v);
    }
  }
}
