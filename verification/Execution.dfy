/** Source text to result: compile, link, and run on the collecting machine
    (bin/main.cpp drives the same steps). */
module Execution {
  import opened Values
  import opened Ast
  import opened SourceSemantics
  import opened Linker
  import opened Machine
  import opened Correctness
  import opened Tokens
  import opened Syntax
  import opened Compiler
  import opened Tameness
  import I = Interpreter

  ghost predicate EvaluatesTo(src: Source, v: Value) {
    exists h :: Evaluates(src, Val(v, h))
  }

  /** A linked program on the collecting machine: when it halts, its first register
      holds the value the source evaluates to; when it throws, the source fails.
      Collection settings and the collection interval do not matter. Of the run itself
      only room on the stack is asked, and that no array is stored in an array. */
  method RunProgram(src: Source, image: Image, fuel: nat,
                    interval: nat, youngThreshold: nat, majorThreshold: nat, largeThreshold: nat)
    returns (out: I.Outcome, v: Value)
    requires Link(src) == Some(image) && Limits(src) && WellScoped(src)
    requires Windowed(Boot(image)) && HasRoom(Boot(image), Initial(image))
    ensures out == I.Halted ==> EvaluatesTo(src, v)
    ensures out == I.Threw ==> Evaluates(src, ExprErr)
    ensures out != I.Done
    ensures out == I.OutOfFuel ==> Run(Boot(image), Initial(image), fuel) == OutOfFuel
  {
    hide Link, Limits, WellScoped, Boot, I.Tame, Run, I.Shows, RunSource, Windowed, HasRoom;
    ghost var p, vm0 := Boot(image), Initial(image);
    RunIsTame(src, image, vm0, fuel);
    var vm := new I.VMData(Boot(image), interval, image.start, youngThreshold, majorThreshold, largeThreshold);
    ghost var vm1;
    out, vm1 := vm.Run(vm0, fuel);
    NeverBack(p, vm0, fuel);
    v := Nil;
    if out == I.Halted {
      I.ShowsFirst(vm.stack[..], vm.gc.State(), vm.gc.youngThreshold, vm1);
      v := vm.stack[0];
      assert Ends(p, vm0, Stopped(vm1));
      CompilerCorrect(src, image, v, vm1.heap);
    } else if out == I.Threw {
      assert Ends(p, vm0, Threw);
      CompilerCorrect(src, image, v, vm1.heap);
    }
  }

  /** From tokens to the result. A text that does not parse, does not compile or does
      not link is refused; otherwise the run is that of the parsed program. */
  method RunText(input: seq<Token>, fuel: nat, interval: nat, youngThreshold: nat, majorThreshold: nat,
      largeThreshold: nat)
    returns (out: Option<I.Outcome>, v: Value)
    requires forall t | t in input :: !t.EOF?
    requires var p := ParseProgram(input);
             p.Some? && Link(p.value).Some? ==>
               var image := Link(p.value).value;
               && Limits(p.value) && WellScoped(p.value)
               && Windowed(Boot(image)) && HasRoom(Boot(image), Initial(image))
    ensures var p := ParseProgram(input);
            if p.None? || Link(p.value).None? then out.None?
            else
              && out.Some? && out.value != I.Done
              && (out.value == I.Halted ==> EvaluatesTo(p.value, v))
              && (out.value == I.Threw ==> Evaluates(p.value, ExprErr))
  {
    hide ParseProgram, Link, Limits, WellScoped, Windowed, HasRoom, Boot, Initial, RunSource;
    v := Nil;
    var image := Compile(input);
    if image.None? { return None, v; }
    var o;
    o, v := RunProgram(ParseProgram(input).value, image.value, fuel, interval, youngThreshold, majorThreshold,
        largeThreshold);
    out := Some(o);
  }
}
