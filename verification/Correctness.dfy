/** The compiler is correct: a linked program behaves, from the first instruction
    to the halt, as the source says. */
module Correctness {
  import opened Values
  import opened Ast
  import opened Codegen
  import opened CodegenFacts
  import opened SourceSemantics
  import opened Bytecode
  import opened Machine
  import opened Linker
  import opened Simulation

  // ---- linking is faithful ----

  lemma {:induction false} PoolHolds(pool: seq<int32>, code: Code, i: nat)
    requires i < |code| && code[i].LoadI?
    ensures code[i].v in PoolOfCode(pool, code)
    decreases |code|
  {
    if i < |code| - 1 {
      PoolHolds(pool, code[..|code| - 1], i);
    }
  }

  /** Every literal is in the final pool. */
  lemma {:induction false} PoolHoldsAll(pool: seq<int32>, ems: seq<Emit>, k: nat, i: nat)
    requires k < |ems| && i < |ems[k].code| && ems[k].code[i].LoadI?
    ensures ems[k].code[i].v in PoolOf(pool, ems)
    decreases |ems|
  {
    var pool1 := PoolOfCode(pool, ems[0].code);
    if k == 0 {
      PoolHolds(pool, ems[0].code, i);
      assert pool1 <= PoolOf(pool1, ems[1..]);
    } else {
      PoolHoldsAll(pool1, ems[1..], k - 1, i);
    }
  }

  lemma RegistersRealize(p: Program, li: LInstr, pos: nat, labels: map<nat, nat>)
    requires FieldsFit(li) && JumpLabel(li).None? && !li.BinI? && !li.LoadI? && !li.LoadF? && !li.RetNil?
    ensures Realizes(p, Decode(WordOf(li, pos, labels, p.constants)), li, pos, labels)
  {
    if li.GetI? || li.SetI? || li.Invoke? || li.Ret? {
      WiderRealize(p, li, pos, labels);
    } else {
      NarrowRealize(p, li, pos, labels);
    }
  }

  lemma NarrowRealize(p: Program, li: LInstr, pos: nat, labels: map<nat, nat>)
    requires FieldsFit(li) && (li.LoadNil? || li.Move? || li.NegI? || li.AllocI?)
    ensures Realizes(p, Decode(WordOf(li, pos, labels, p.constants)), li, pos, labels)
  {
    hide Decode, EncodeABC, IndexOf;
    match li
    case LoadNil(a) => DecodeABC(LOADNIL, a, 0, 0);
    case Move(a, b) => DecodeABC(MOVE, a, b, 0);
    case NegI(a, b) => DecodeABC(NEG, a, b, 0);
    case AllocI(a, b) => DecodeABC(ALLOC, a, b, 0);
  }

  lemma WiderRealize(p: Program, li: LInstr, pos: nat, labels: map<nat, nat>)
    requires FieldsFit(li) && (li.GetI? || li.SetI? || li.Invoke? || li.Ret?)
    ensures Realizes(p, Decode(WordOf(li, pos, labels, p.constants)), li, pos, labels)
  {
    hide Decode, EncodeABC, IndexOf;
    match li
    case GetI(a, b, c) => DecodeABC(ARRGET, a, b, c);
    case SetI(a, b, c) => DecodeABC(ARRSET, a, b, c);
    case Invoke(a, b, c) => DecodeABC(INVOKEDYNAMIC, a, b, c);
    case Ret(a) => DecodeABC(RETURN, a, 0, 0);
  }

  lemma BinaryRealizes(p: Program, li: LInstr, pos: nat, labels: map<nat, nat>)
    requires FieldsFit(li) && li.BinI?
    ensures Realizes(p, Decode(WordOf(li, pos, labels, p.constants)), li, pos, labels)
  {
    hide Decode, EncodeABC, IndexOf;
    DecodeABC(BinaryOpcode(li.op), li.a, li.b, li.c);
  }

  lemma WidesRealize(p: Program, li: LInstr, pos: nat, labels: map<nat, nat>)
    requires FieldsFit(li) && (li.LoadI? || li.LoadF? || li.RetNil?) && |p.constants| < BX_LIMIT && |p.funcs| <= BYTE
    requires li.LoadI? ==> li.v in p.constants
    requires li.LoadF? ==> li.fid < |p.funcs|
    ensures Realizes(p, Decode(WordOf(li, pos, labels, p.constants)), li, pos, labels)
  {
    hide Decode, EncodeABx, IndexOf;
    match li
    case LoadI(a, v) => DecodeABx(LOADINT, a, Wide(IndexOf(p.constants, v)));
    case LoadF(a, f) => DecodeABx(LOADFUNC, a, Wide(f));
    case RetNil => DecodeABx(RETURNNIL, 0, 0);
  }

  lemma JumpsRealize(p: Program, li: LInstr, pos: nat, labels: map<nat, nat>)
    requires FieldsFit(li) && JumpLabel(li).Some? && JumpLabel(li).value in labels
    requires -MAX_OFFSET <= Offset(labels, JumpLabel(li).value, pos) <= MAX_OFFSET
    ensures Realizes(p, Decode(WordOf(li, pos, labels, p.constants)), li, pos, labels)
  {
    hide Decode, EncodeABx, IndexOf;
    match li
    case Jmp(l) => DecodeABx(JMP, 0, Wide(Offset(labels, l, pos) + J_ZERO));
    case JmpT(a, l) => DecodeABx(JMPT, a, Wide(Offset(labels, l, pos) + J_ZERO));
    case JmpF(a, l) => DecodeABx(JMPF, a, Wide(Offset(labels, l, pos) + J_ZERO));
  }

  /** A linked word is the emitted instruction: operands, literal and jump target. */
  lemma WordRealizes(p: Program, li: LInstr, pos: nat, labels: map<nat, nat>)
    requires FieldsFit(li) && |p.constants| < BX_LIMIT && |p.funcs| <= BYTE
    requires li.LoadI? ==> li.v in p.constants
    requires li.LoadF? ==> li.fid < |p.funcs|
    requires JumpLabel(li).Some? ==>
               && JumpLabel(li).value in labels
               && -MAX_OFFSET <= Offset(labels, JumpLabel(li).value, pos) <= MAX_OFFSET
    ensures Realizes(p, Decode(WordOf(li, pos, labels, p.constants)), li, pos, labels)
  {
    hide Decode, WordOf, FieldsFit, Realizes;
    if JumpLabel(li).Some? {
      JumpsRealize(p, li, pos, labels);
    } else if li.LoadI? || li.LoadF? || li.RetNil? {
      WidesRealize(p, li, pos, labels);
    } else if li.BinI? {
      BinaryRealizes(p, li, pos, labels);
    } else {
      RegistersRealize(p, li, pos, labels);
    }
  }

  lemma {:induction false} EntryLength(ems: seq<Emit>, pool: seq<int32>)
    ensures |Concat(ems, pool)| == EntryOf(ems, |ems|)
    decreases |ems|
  {
    if ems != [] {
      var n := |ems| - 1;
      EntryLength(ems[..n], pool);
      EntryPrefix(ems, n, n);
    }
  }

  lemma {:induction false} EntryPrefix(ems: seq<Emit>, n: nat, k: nat)
    requires k <= n <= |ems|
    ensures EntryOf(ems[..n], k) == EntryOf(ems, k)
  {
    if k > 0 { EntryPrefix(ems, n, k - 1); }
  }

  /** The words of function `k` stand at its entry point. */
  lemma {:induction false} ConcatAt(ems: seq<Emit>, pool: seq<int32>, k: nat, i: nat)
    requires k < |ems| && i < |ems[k].code|
    ensures EntryOf(ems, k) + i < |Concat(ems, pool)|
    ensures Concat(ems, pool)[EntryOf(ems, k) + i] == WordOf(ems[k].code[i], i, ems[k].labels, pool)
    decreases |ems|
  {
    hide WordOf, PoolOf;
    var n := |ems| - 1;
    EntryLength(ems[..n], pool);
    EntryPrefix(ems, n, n);
    EntryPrefix(ems, n, k);
    if k < n { ConcatAt(ems[..n], pool, k, i); }
  }

  lemma {:induction false} CompiledAt(src: Source, n: nat, k: nat) returns (uid: nat)
    requires k < n <= |src| && CompileUpTo(src, n).Some?
    ensures CompileFunction(src[k], FuncTable(src, k), uid) == Some(CompileUpTo(src, n).value.0[k])
    decreases n
  {
    hide CompileFunction, FuncTable;
    if k == n - 1 {
      uid := CompileUpTo(src, n - 1).value.1;
    } else {
      uid := CompiledAt(src, n - 1, k);
    }
  }

  /** Linking keeps every function: what stands at its entry point realizes what
      was emitted for it, with every jump inside the function. */
  lemma LinkedImage(src: Source, image: Image)
    requires Link(src) == Some(image) && Limits(src)
    ensures Linked(Boot(image), src)
  {
    hide CompileFunction, FuncTable, CompileUpTo, Concat, PoolOf, WordOf, Realizes, EntryOf, Decode, FieldsFit,
        EncodeABC, EncodeABx;
    var p := Boot(image);
    var ems := CompileUpTo(src, |src|).value.0;
    forall k: nat | k < |src| ensures LinkedFunction(p, src, k) {
      var uid := CompiledAt(src, |src|, k);
      FunctionFacts(src[k], FuncTable(src, k), uid);
      assert Resolvable(ems[k]);
      EntryLength(ems, p.constants);
      forall i | 0 <= i < |ems[k].code|
        ensures EntryOf(ems, k) + i < |p.code|
        ensures Realizes(p, p.code[EntryOf(ems, k) + i], ems[k].code[i], i, ems[k].labels)
      {
        var li := ems[k].code[i];
        ConcatAt(ems, p.constants, k, i);
        if li.LoadI? { PoolHoldsAll([], ems, k, i); }
        assert Known(li, FuncTable(src, k));
        WordRealizes(p, li, i, ems[k].labels);
      }
      assert LinkedAt(p, src, k, uid, ems[k]);
    }
  }

  // ---- the whole program ----

  /** `Link` in one piece. */
  lemma LinkParts(src: Source, image: Image)
    requires Link(src) == Some(image)
    ensures MainIndex(src).Some? && image.start == |image.words| - 2 && |image.words| >= 2
    ensures image.words[image.start] == EncodeABC(CALL, MainIndex(src).value, 0, 0)
    ensures image.words[image.start + 1] == EncodeABx(HALT, 0, 0)
    ensures |image.funcs| == |src|
  {
    hide CompileUpTo, EncodeABC, EncodeABx, Resolvable, PoolOf, Concat, MainIndex;
  }

  /** Start-up: one step calls `main`. */
  lemma StartsMain(src: Source, image: Image)
    requires Link(src) == Some(image) && |src| <= BYTE
    ensures var p, vm := Boot(image), Initial(image);
            Steps(p, Running(vm), 1) == Entered(p, vm.(ip := vm.ip + 1), Fun(MainIndex(src).value), 0, 0)
    ensures var p, vm := Boot(image), Initial(image);
            forall vm1: VM :: vm1.ip == vm.ip + 1 && vm1.calls == [] ==>
              Steps(p, Running(vm1), 1) == Halted(vm1.(ip := CODE_MAX_SIZE - 1))
  {
    hide MainIndex, Decode, EncodeABC, EncodeABx, Link, DoCall;
    LinkParts(src, image);
    var p, vm := Boot(image), Initial(image);
    DecodeABC(CALL, MainIndex(src).value, 0, 0);
    DecodeABx(HALT, 0, 0);
    assert p.code[vm.ip] == Decode(image.words[image.start]);
    assert p.code[vm.ip + 1] == Decode(image.words[image.start + 1]);
    assert Steps(p, Running(vm), 1) == Steps(p, Step(p, vm), 0);
    forall vm1: VM | vm1.ip == vm.ip + 1 && vm1.calls == []
      ensures Steps(p, Running(vm1), 1) == Halted(vm1.(ip := CODE_MAX_SIZE - 1))
    {
      assert Steps(p, Running(vm1), 1) == Steps(p, Step(p, vm1), 0);
    }
  }

  /** What the machine does with a program whose source evaluates to `r`. */
  ghost predicate Matches(p: Program, vm: VM, r: ExprResult, n: nat, fuel: nat) {
    var st := Steps(p, Running(vm), n);
    match r
    case Val(v, h) => st.Halted? && st.vm.Get(0) == v && st.vm.heap == h && st.vm.calls == []
    case ExprErr => st == Fault
    case ExprOut => n >= fuel && st.Running?
  }

  /** Compiler correctness, forwards: when the source evaluates to a value, the
      machine halts with that value in the first register and the same heap; when
      it fails, the machine faults; when it runs out of fuel, the machine is still
      running after at least as many steps. */
  lemma CompilerForward(src: Source, image: Image, fuel: nat) returns (n: nat)
    requires Link(src) == Some(image) && Limits(src) && WellScoped(src)
    ensures Matches(Boot(image), Initial(image), RunSource(src, fuel), n, fuel)
  {
    hide Link, Limits, MainIndex, CallFunction, DoCall, Linked, WellScoped, Boot, Steps, Decode;
    LinkedImage(src, image);
    LinkParts(src, image);
    SmallSource(src);
    StartsMain(src, image);
    var p, vm := Boot(image), Initial(image);
    var main := MainIndex(src).value;
    var next := vm.(ip := vm.ip + 1);
    var c := Ctx(p, src, 0, 0, Emit([], map[], 0));
    FuncCount(src, image);
    var m := SimCall(c, Fun(main), [], 0, next, fuel);
    StepsAdd(p, Running(vm), 1, m);
    n := 1 + m;
    var r := CallFunction(src, Fun(main), [], EMPTY_HEAP, 0, fuel);
    if r.Val? {
      var vm1 := Steps(p, Entered(p, next, Fun(main), 0, 0), m).vm;
      StepsAdd(p, Running(vm), n, 1);
      n := n + 1;
    }
  }

  lemma SmallSource(src: Source)
    requires Limits(src)
    ensures |src| <= BYTE
  {
  }

  lemma FuncCount(src: Source, image: Image)
    requires Link(src) == Some(image)
    ensures Boot(image).funcs == image.funcs && |src| > 0
    ensures Loaded(Boot(image), 0, Emit([], map[], 0))
  {
    hide CompileUpTo, Resolvable, PoolOf, Concat;
  }

  /** Some amount of fuel makes the source end with `r`. */
  ghost predicate Evaluates(src: Source, r: ExprResult) {
    exists fuel: nat :: RunSource(src, fuel) == r
  }

  /** `run` halts with `v` in the first register and heap `h`. */
  ghost predicate HaltsWith(p: Program, vm: VM, v: Value, h: Heap) {
    exists vm1 :: Ends(p, vm, Stopped(vm1)) && vm1.Get(0) == v && vm1.heap == h
  }

  /** Compiler correctness, both ways: `run` halts with a value and a heap exactly
      when the source evaluates to them, and throws exactly when the source fails.
      Hence it runs forever exactly when the source does. */
  lemma CompilerCorrect(src: Source, image: Image, v: Value, h: Heap)
    requires Link(src) == Some(image) && Limits(src) && WellScoped(src)
    ensures HaltsWith(Boot(image), Initial(image), v, h) <==> Evaluates(src, Val(v, h))
    ensures Ends(Boot(image), Initial(image), Threw) <==> Evaluates(src, ExprErr)
  {
    hide Link, Limits, WellScoped, RunSource, Boot, Steps, Initial, Run;
    var p, vm := Boot(image), Initial(image);
    InitialCalls(image);
    forall fuel: nat | RunSource(src, fuel) == Val(v, h) ensures HaltsWith(p, vm, v, h) {
      var n := CompilerForward(src, image, fuel);
      var vm1 := Steps(p, Running(vm), n).vm;
      assert Reaches(p, vm, Halted(vm1));
      TopLevelRun(p, vm, vm1);
    }
    forall fuel: nat | RunSource(src, fuel) == ExprErr ensures Ends(p, vm, Threw) {
      var n := CompilerForward(src, image, fuel);
      assert Reaches(p, vm, Fault);
      TopLevelRun(p, vm, vm);
    }
    forall vm1 | Ends(p, vm, Stopped(vm1)) && vm1.Get(0) == v && vm1.heap == h ensures Evaluates(src, Val(v, h)) {
      TopLevelRun(p, vm, vm1);
      var n :| Steps(p, Running(vm), n) == Halted(vm1);
      var m := CompilerForward(src, image, n);
      SettledStays(p, Running(vm), m, n);
      assert RunSource(src, n) == Val(v, h);
    }
    if Ends(p, vm, Threw) {
      TopLevelRun(p, vm, vm);
      var n :| Steps(p, Running(vm), n) == Fault;
      var m := CompilerForward(src, image, n);
      SettledStays(p, Running(vm), m, n);
      assert RunSource(src, n) == ExprErr;
    }
  }

  lemma InitialCalls(image: Image)
    ensures Initial(image).calls == []
  {
  }
}
