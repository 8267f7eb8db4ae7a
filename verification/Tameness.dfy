/** What is left to ask of a run once the program has been looked at: registers within
    the window are a property of the linked code, and the shape of the start-up code
    follows from linking. */
module Tameness {
  import opened Values
  import opened Ast
  import opened SourceSemantics
  import opened Bytecode
  import opened Linker
  import opened Machine
  import opened Correctness
  import opened ControlFlow
  import I = Interpreter

  /** Every instruction of the program keeps to the 120 registers of a window. */
  predicate Windowed(p: Program) {
    forall k | 0 <= k < |p.code| :: I.InWindow(p.code[k])
  }

  /** A call finds room on the stack, and no array is stored in an array. */
  ghost predicate RoomAt(p: Program, vm: VM) {
    vm.ip < |p.code| ==>
      var i := p.code[vm.ip];
      && (i.op.CALL? || i.op.INVOKEDYNAMIC? ==> vm.fp + i.b + MAX_STACK <= I.STACK_SIZE)
      && (i.op.ARRSET? ==> !vm.Reg(i.c).Arr?)
  }

  ghost predicate RoomThen(p: Program, st: State) {
    st.Running? ==> RoomAt(p, st.vm)
  }

  /** So it is at every state the machine reaches. */
  ghost predicate HasRoom(p: Program, vm: VM) {
    forall n: nat :: RoomThen(p, Steps(p, Running(vm), n))
  }

  lemma RoomLater(p: Program, vm: VM, n: nat, vm1: VM)
    requires HasRoom(p, vm) && Steps(p, Running(vm), n) == Running(vm1)
    ensures HasRoom(p, vm1)
  {
    hide Steps, RoomThen;
    forall m: nat ensures RoomThen(p, Steps(p, Running(vm1), m)) {
      StepsAdd(p, Running(vm), n, m);
    }
  }

  lemma RoomNow(p: Program, vm: VM)
    requires HasRoom(p, vm)
    ensures RoomAt(p, vm)
  {
    assert RoomThen(p, Steps(p, Running(vm), 0));
  }

  lemma RoomNext(p: Program, vm: VM, vm1: VM)
    requires HasRoom(p, vm) && Step(p, vm) == Running(vm1)
    ensures HasRoom(p, vm1)
  {
    hide HasRoom, Step;
    assert Steps(p, Running(vm), 1) == Steps(p, Step(p, vm), 0);
    RoomLater(p, vm, 1, vm1);
  }

  /** The next event of a placed machine, and the state behind it. */
  lemma StaysPlaced(src: Source, image: Image, vm: VM)
    requires Link(src) == Some(image) && Limits(src) && Placed(Boot(image), image.start, vm)
    ensures match Dispatch(Boot(image), vm)
            case Next(vm1) => Placed(Boot(image), image.start, vm1)
            case Enter(vm1) => Placed(Boot(image), image.start, vm1)
            case _ => true
  {
    hide Link, Limits, Placed, Boot, Dispatch;
    if vm.calls == [] {
      StartStays(src, image, vm);
    } else {
      LinkedImage(src, image);
      DispatchStays(Boot(image), src, image.start, vm);
    }
  }

  lemma InstrIsTame(src: Source, image: Image, vm: VM)
    requires Link(src) == Some(image) && Limits(src) && Placed(Boot(image), image.start, vm)
    requires Windowed(Boot(image)) && HasRoom(Boot(image), vm)
    ensures vm.ip < |Boot(image).code| ==> I.TameInstr(Boot(image).code[vm.ip], vm)
  {
    hide Link, Limits, Boot, HasRoom, I.InWindow;
    StartCode(src, image);
    RoomNow(Boot(image), vm);
  }

  /** For a linked program whose registers fit the window, every run that finds room on
      the stack and stores no array in an array is tame: nothing else has to be asked of
      the run. */
  lemma {:induction false} RunIsTame(src: Source, image: Image, vm: VM, fuel: nat)
    requires Link(src) == Some(image) && Limits(src) && Placed(Boot(image), image.start, vm)
    requires Windowed(Boot(image)) && HasRoom(Boot(image), vm)
    ensures I.Tame(Boot(image), vm, fuel)
    decreases fuel
  {
    hide Link, Limits, Boot, Placed, HasRoom, Windowed, Dispatch, I.TameInstr, Run;
    if fuel > 0 {
      var p := Boot(image);
      InstrIsTame(src, image, vm);
      StaysPlaced(src, image, vm);
      match Dispatch(p, vm)
      case Next(vm1) =>
        RoomNext(p, vm, vm1);
        RunIsTame(src, image, vm1, fuel - 1);
      case Enter(vm1) =>
        RoomNext(p, vm, vm1);
        RunIsTame(src, image, vm1, fuel - 1);
        if Run(p, vm1, fuel - 1).Back? {
          var vm2 := Run(p, vm1, fuel - 1).vm;
          var n := RunIsFlat(p, vm1, fuel - 1);
          ControlStaysInside(src, image, vm1, n);
          RoomLater(p, vm1, n, vm2);
          RunIsTame(src, image, vm2, fuel - 1);
        }
      case _ =>
    }
  }
}
