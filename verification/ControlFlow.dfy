/** Control stays inside the linked functions: over the whole run the instruction
    pointer is in the function whose frame is on top, whatever the program does. */
module ControlFlow {
  import opened Values
  import opened Ast
  import opened Codegen
  import opened CodegenFacts
  import opened SourceSemantics
  import opened Bytecode
  import opened Machine
  import opened Linker
  import opened Simulation
  import opened Correctness

  /** `ip` is at an instruction of function `k`. */
  ghost predicate InFunction(p: Program, k: nat, ip: nat) {
    k < |p.funcs| && p.funcs[k].entry <= ip < p.funcs[k].entry + p.funcs[k].size
  }

  /** Every frame returns into the function of the frame below it, and the first one to
      the instruction behind the call of `main`. */
  ghost predicate ReturnsInside(p: Program, start: nat, calls: seq<Frame>) {
    forall j | 0 <= j < |calls| :: ReturnsTo(p, start, calls, j)
  }

  ghost predicate ReturnsTo(p: Program, start: nat, calls: seq<Frame>, j: nat)
    requires j < |calls|
  {
    if j == 0 then calls[0].retIp == start + 1 else InFunction(p, calls[j - 1].fid, calls[j].retIp)
  }

  /** A running machine is at one of the two start-up instructions, or in the function
      that was called last. */
  ghost predicate Placed(p: Program, start: nat, vm: VM) {
    && ReturnsInside(p, start, vm.calls)
    && if vm.calls == [] then vm.ip == start || vm.ip == start + 1
       else InFunction(p, vm.calls[|vm.calls| - 1].fid, vm.ip)
  }

  /** Where the emitted code may go on to from position `pos`. */
  lemma EmittedStays(p: Program, i: Instr, em: Emit, pos: nat, vm: VM, base: nat)
    requires pos < |em.code| && vm.ip == base + pos && vm.calls != []
    requires Realizes(p, i, em.code[pos], pos, em.labels)
    requires forall l | l in em.labels :: em.labels[l] < |em.code|
    requires pos == |em.code| - 1 ==> em.code[pos] == RetNil
    ensures match Execute(p, i, vm.(ip := vm.ip + 1))
            case Next(vm1) => vm1.calls == vm.calls && base <= vm1.ip < base + |em.code|
            case Enter(vm1) =>
              && pos + 1 < |em.code| && |vm1.calls| == |vm.calls| + 1 && vm1.calls[..|vm.calls|] == vm.calls
              && var f := vm1.calls[|vm.calls|];
                 f.retIp == vm.ip + 1 && f.fid < |p.funcs| && vm1.ip == p.funcs[f.fid].entry
            case Leave(vm1) => vm1.ip == vm.calls[|vm.calls| - 1].retIp && vm1.calls == vm.calls[..|vm.calls| - 1]
            case Stop(_) => false
            case Throw => true
  {
    hide Binary, Negate, Alloc, ArrGet, ArrSet, NilFill;
  }

  /** What is known about function `k` of a linked program. */
  lemma FunctionAt(p: Program, src: Source, k: nat) returns (em: Emit)
    requires Linked(p, src) && k < |p.funcs|
    ensures p.funcs[k].size == |em.code| > 0 && Loaded(p, p.funcs[k].entry, em)
    ensures em.code[|em.code| - 1] == RetNil && forall l | l in em.labels :: em.labels[l] < |em.code|
  {
    hide CompileFunction, FuncTable, Loaded;
    assert LinkedFunction(p, src, k);
    var uid, em1 :| LinkedAt(p, src, k, uid, em1);
    FunctionFacts(src[k], FuncTable(src, k), uid);
    em := em1;
  }

  lemma FramePushed(p: Program, start: nat, calls: seq<Frame>, calls1: seq<Frame>)
    requires ReturnsInside(p, start, calls) && calls != [] && |calls1| == |calls| + 1 && calls1[..|calls|] == calls
    requires InFunction(p, calls[|calls| - 1].fid, calls1[|calls|].retIp)
    ensures ReturnsInside(p, start, calls1)
  {
    forall j | 0 <= j < |calls1| ensures ReturnsTo(p, start, calls1, j) {
      assert forall i | 0 <= i < |calls| :: calls1[i] == calls[i];
      if j < |calls| { assert ReturnsTo(p, start, calls, j); }
    }
  }

  lemma FramePopped(p: Program, start: nat, calls: seq<Frame>)
    requires ReturnsInside(p, start, calls) && calls != []
    ensures var n := |calls| - 1;
            && ReturnsInside(p, start, calls[..n])
            && if n == 0 then calls[n].retIp == start + 1 else InFunction(p, calls[..n][n - 1].fid, calls[n].retIp)
  {
    var n := |calls| - 1;
    assert ReturnsTo(p, start, calls, n);
    forall j | 0 <= j < n ensures ReturnsTo(p, start, calls[..n], j) {
      assert ReturnsTo(p, start, calls, j);
    }
  }

  /** One dispatch inside a function. */
  lemma DispatchStays(p: Program, src: Source, start: nat, vm: VM)
    requires Linked(p, src) && Placed(p, start, vm) && vm.calls != []
    ensures match Dispatch(p, vm)
            case Next(vm1) => vm1.calls != [] && Placed(p, start, vm1)
            case Enter(vm1) => vm1.calls != [] && Placed(p, start, vm1)
            case Leave(vm1) => Placed(p, start, vm1)
            case Stop(_) => false
            case Throw => true
  {
    hide Linked, Execute, Realizes;
    var k := vm.calls[|vm.calls| - 1].fid;
    var em := FunctionAt(p, src, k);
    var base := p.funcs[k].entry;
    var pos := vm.ip - base;
    assert p.code[base + pos] == p.code[vm.ip];
    EmittedStays(p, p.code[vm.ip], em, pos, vm, base);
    match Dispatch(p, vm)
    case Enter(vm1) =>
      var _ := FunctionAt(p, src, vm1.calls[|vm.calls|].fid);
      FramePushed(p, start, vm.calls, vm1.calls);
    case Leave(vm1) => FramePopped(p, start, vm.calls);
    case _ =>
  }

  /** A machine that stops is left at the last of 4096 places for code, with no call open. */
  lemma StopsAtTheEnd(p: Program, vm: VM)
    requires Dispatch(p, vm).Stop?
    ensures Dispatch(p, vm).vm.ip == 4095 && Dispatch(p, vm).vm.calls == [] && Dispatch(p, vm).vm.heap == vm.heap
  {
  }

  /** The two start-up instructions. */
  lemma StartCode(src: Source, image: Image)
    requires Link(src) == Some(image) && Limits(src)
    ensures MainIndex(src).Some?
    ensures var p := Boot(image);
            && image.start + 1 < |p.code|
            && p.code[image.start].known && p.code[image.start].op.CALL?
            && p.code[image.start].a == MainIndex(src).value
            && p.code[image.start].b == 0 && p.code[image.start].c == 0
            && p.code[image.start + 1].known && p.code[image.start + 1].op.HALT?
  {
    hide Decode, EncodeABC, EncodeABx, Link, MainIndex;
    SmallSource(src);
    LinkParts(src, image);
    DecodeABC(CALL, MainIndex(src).value, 0, 0);
    DecodeABx(HALT, 0, 0);
    var p := Boot(image);
    assert p.code[image.start] == Decode(image.words[image.start]);
    assert p.code[image.start + 1] == Decode(image.words[image.start + 1]);
  }

  /** At start-up: `main` is called, or the machine halts. */
  lemma StartStays(src: Source, image: Image, vm: VM)
    requires Link(src) == Some(image) && Limits(src) && vm.calls == [] && Placed(Boot(image), image.start, vm)
    ensures match Dispatch(Boot(image), vm)
            case Enter(vm1) => vm1.calls != [] && Placed(Boot(image), image.start, vm1)
            case Stop(vm1) => vm1.calls == []
            case Throw => true
            case _ => false
  {
    hide Linked, Link, MainIndex, NilFill, Boot, Limits;
    StartCode(src, image);
    LinkParts(src, image);
    LinkedImage(src, image);
    FuncCount(src, image);
    var _ := FunctionAt(Boot(image), src, MainIndex(src).value);
  }

  /** Control never leaves the program: at every step of every run the machine is in
      the function called last, where every frame will return to the function below it.
      It halts only at the top level, never runs off the end of a function, and no jump
      leads out of the function it stands in. */
  lemma {:induction false} ControlStaysInside(src: Source, image: Image, vm: VM, n: nat)
    requires Link(src) == Some(image) && Limits(src) && Placed(Boot(image), image.start, vm)
    ensures match Steps(Boot(image), Running(vm), n)
            case Running(vm1) => Placed(Boot(image), image.start, vm1)
            case Halted(vm1) => vm1.calls == []
            case Fault => true
    decreases n
  {
    hide Link, Limits, Placed, Boot, Dispatch;
    if n > 0 {
      var p := Boot(image);
      if vm.calls == [] {
        StartStays(src, image, vm);
      } else {
        LinkedImage(src, image);
        DispatchStays(p, src, image.start, vm);
      }
      match Step(p, vm)
      case Running(vm1) => ControlStaysInside(src, image, vm1, n - 1);
      case _ =>
    }
  }

  /** The whole run, from `initVM` on. */
  lemma WholeRunStaysInside(src: Source, image: Image, n: nat)
    requires Link(src) == Some(image) && Limits(src)
    ensures match Steps(Boot(image), Running(Initial(image)), n)
            case Running(vm) => Placed(Boot(image), image.start, vm)
            case Halted(vm) => vm.calls == []
            case Fault => true
  {
    hide Link, Limits, Boot, Steps;
    ControlStaysInside(src, image, Initial(image), n);
  }
}
