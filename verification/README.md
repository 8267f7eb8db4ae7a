# cote-lang: a verified model

cote-lang is a small language with a one-pass compiler to register bytecode, a
recursive bytecode machine, a generational collector behind a handle table, and an
x86 compiler for hot functions. This project models these four parts and two
encoders of the AArch64 back end of the asmjit tree that comes with it, and proves
what the parts are for:

* **The compiler is correct, both ways.** For every program inside the limits of the
  instruction format whose unbraced branches declare no variable, or both the same one by
  a plain assignment, `run` on the linked bytecode halts with a value exactly when the
  source evaluates to that value, throws exactly when the source fails, and runs forever
  exactly when the source does (`Correctness.CompilerCorrect`). The compiler in the
  statement is the real one-pass emission: scopes and registers, overlapping call windows,
  rotated loops, back-patched labels, the shared constant pool and the start-up code. The
  condition on branches is sufficient; `ScopeFacts.ScopeMatters` gives a program outside
  it for which the equivalence fails, so it cannot simply be dropped.
* **The imperative compiler is that function.** `Compiler.Parser`, `Lexing.Lexer`,
  `Variables.VarManager` and `Emitter.BytecodeEmitter` are classes with the fields of the
  original, and `Compiler.Compile`, which advances the token, moves the register counter
  and patches words in place, returns exactly what parsing everything, compiling
  everything and linking gives, including when it is refused.
* **Control stays inside.** At every step of every run of a linked program the
  instruction pointer is in the function called last, and every frame returns into the
  function below it (`ControlFlow.WholeRunStaysInside`).
* **The parser is its grammar.** The accepted token lists are exactly the texts of the
  trees that fit the precedences the rule table really yields, of two operators the second
  one takes the operand between them iff its family is tighter, and every expression
  printed with the parentheses it needs is read back (`PrattTheorems.ParserIsGrammar`,
  `RoundTrip`, `Precedence.TighterFirst`). The same for statements and programs, with
  their own table of tokens: a text is accepted iff it is the text of trees for the
  result, and a program has a text iff its conditionals are matched
  (`StatementGrammar.ProgramIsGrammar`, `ProgramRoundTrip`).
* **What is written means arithmetic.** From the tokens of an operator, a sign or an
  assignment to the number that comes out, without the trees and instructions in between
  (`Meaning`), and arrays obey the laws of arrays on every run of any bytecode
  (`ArrayLaws`).
* **Collections change nothing a program can see.** Marking and sweeping are exact.
  Promotion keeps the object graph iff every young object the stack leads to is led to by
  one that the marking finds, which clean marks ensure and stale ones do not: three
  allocations and two promotions from the empty heap lose an object that is still
  referred to (`CollectorTheorems.PromotionKeepsGraph`, `StaleMarkLosesObject`). In heaps
  without nested arrays every collection frees exactly what the stack does not name, and
  collections run at exactly every n-th instruction and when a generation is full. In every
  run that stores no array in an array the collecting machine does what a machine that
  never collects does, wherever collections happen (`Interpreter.VMData.Run`). For a
  linked program whose instructions keep to the window, only room on the stack and flat
  arrays are asked of the run (`Tameness.RunIsTame`).
* **Compiled integer code simulates the interpreter**, the state after it is the
  interpreter's slot by slot, and the word it returns says whether the interpreter throws;
  the call that runs it does not read that word, so a failure goes unnoticed
  (`JitCorrect.InvokeJit`, `JitOutcome`, `FailureGoesUnnoticed`).
* **Epilog undoes prolog** for the stack pointer, the general registers and the lower 64
  bits of the vector registers, with x29 at the saved pair (x29, x30) in between, and goes
  back to the caller; whole vector registers come back iff their upper halves
  were zero, wide slots or not. The exact condition under which the instructions can be
  encoded is given (`ArmFrameTheorems.EpilogUndoesProlog`, `WholeVectorsIff`,
  `EncodableIff`).

## Layout

`Values`, `Ast` and `SourceSemantics` say what programs mean; `Bytecode` and `Machine`
what instructions do, once as a nested `run` and once as single steps. `Codegen` and
`Linker` are the compiler as functions on syntax trees, `Simulation` and `Correctness` the
proof. `ControlFlow` and `Tameness` are what holds of every run of a linked program,
`SourceFacts`, `ScopeFacts` and `Division` what the compiler's shortcuts mean for the
source, `ArrayLaws` and `CallDepth` what arrays and nested calls do. `Tokens`, `Pratt` and
`Syntax` are the parser as functions on token lists, `PrattTheorems`, `Precedence` and
`StatementGrammar` what it accepts, `Meaning` what the accepted text computes. `Lexer`,
`ExprParser`, `VarManager`, `Emitter`, `ExprSemantic` and `Compiler` hold the imperative
compiler, specified by those functions;
`OnePass` and `ProgramFacts` relate the order of emission to them. `HeapGraph`, `Collector`
and `CollectorTheorems` are the collector, `Interpreter` the imperative machine on top of
it, `Execution` the way from tokens to a result. `MicroMachine`, `Jit` and `JitCorrect` are
the compiler for hot functions, `ArmMov`, `ArmFrame` and `ArmFrameTheorems` the encoders.

Big-step evaluation and `run` carry an amount of fuel; running out is an outcome of its
own, and every theorem about whole programs quantifies over all amounts.

## Model

| member | source | states |
|---|---|---|
| Correctness.CompilerCorrect | src/vm.cpp:23-139 | `run` on the linked program halts with a value and heap iff the source evaluates to them, and throws iff the source fails; so it diverges iff the source does |
| Correctness.CompilerForward | src/parser.cpp:290-574 | for each amount of fuel a number of machine steps that ends as the source ends; out of fuel means still running after at least that many steps |
| Correctness.LinkedImage | src/bytecode_emitter.cpp:137-204 | every word of every linked function decodes to the instruction that was emitted there: same registers, the literal of a load, and a jump offset that leads to where its label was placed |
| Correctness.WordRealizes | src/bytecode_emitter.cpp:137-152 | encoding, patching and decoding one instruction loses nothing when its fields fit |
| Correctness.StartsMain | src/bytecode_emitter.cpp:173-204 | the first step enters the last function called `main` with an empty window; the instruction it returns to halts |
| ControlFlow.WholeRunStaysInside | src/bytecode_emitter.cpp:112-204 | at every step of the run of any linked program, diverging and failing ones included, the machine is in the function called last and all frames return inside; it halts only at top level |
| ControlFlow.ControlStaysInside | src/vm.cpp:23-139 | the same from any such state on, by one invariant |
| ControlFlow.DispatchStays | src/vm.cpp:585-599 | no jump leads out of its function, no function runs off its end, a call enters at an entry point, and no `HALT` is met below the top level |
| ControlFlow.StopsAtTheEnd | src/vm.cpp:396-398 | a machine that stops has no call open and is left at the last of 4096 places for code |
| ScopeFacts.ScopeMatters | src/parser.cpp:299-306 | `fn main() { if (0) x = 1; return x; }` compiles and links, the source fails, but the machine returns 0: an unbraced declaration is in scope even when skipped |
| Simulation.SimExpr | src/expr_semantic.cpp:45-175 | the code of any expression puts its value in the register `sp`, keeps every slot below it and the frame, and fails or runs on as the expression does |
| Simulation.SimArgs | src/expr_semantic.cpp:65-72 | arguments end up in consecutive registers, evaluated from left to right |
| Simulation.SimInvoke | src/expr_semantic.cpp:80-87 | call and move: the result replaces the callee in its register although the callee's window overlaps the caller's |
| Simulation.SimCall | src/vm.cpp:268-349 | entering a function with its arguments in place runs its body to the value the source gives, and returns with the caller's slots below the window unchanged |
| Simulation.SimStmt | src/parser.cpp:498-511 | the code of any statement takes a state that agrees with the environment to one that agrees with the environment after it, to the end label on `break`, or out of the function on `return` |
| Simulation.SimStmts | src/parser.cpp:271-287 | the same for statement lists, with the scope growing from one statement to the next |
| Simulation.SimIf | src/parser.cpp:290-322 | both forms of the conditional, with the jump over the second branch, also when both branches declare the same variable |
| Simulation.SimElse | src/parser.cpp:307-321 | the second branch, reached with the scope the first one has left |
| Simulation.SimDefine | src/parser.cpp:365-387 | a variable that the first branch has declared gets its value in the second one, in the same register, although the source has no value for it there yet |
| Simulation.SimIterate | src/parser.cpp:449-479 | one round of a rotated loop from its start label: body, increment, second test, and back or on to the end label; `break` leaves to the end label |
| Simulation.SimLoop | src/parser.cpp:336-360 | a rotated loop from its first test on does what the loop of the source does, divergence included |
| Simulation.SimAssignVar | src/parser.cpp:365-393 | plain and compound assignment to a variable; a new variable takes over the register of its value |
| Simulation.SimAssignElement | src/parser.cpp:394-420 | plain and compound assignment to an element, with its evaluation order and scratch register |
| Simulation.OneStep | src/vm.cpp:34-136 | one step on a linked instruction has the effect the emitted instruction stands for |
| CodegenFacts.StmtFacts | src/parser.cpp:498-511 | emission only appends, new labels are new, every jump goes to a placed label or to the enclosing loop's end, names stay injective and below the register counter, and exactly the declared names are added |
| CodegenFacts.FunctionFacts | src/parser.cpp:526-552 | a finished function has no jump without label and no label behind its last instruction, which is the trailing return |
| SourceFacts.RotationKeepsMeaning | src/parser.cpp:449-479 | a loop emitted with its condition and increment behind the body equals the textbook loop, for every amount of fuel, when the body declares no name they mention |
| SourceFacts.CaptureMatters | src/parser.cpp:345-358 | without that condition the two differ: a loop that ends after one round but should never end |
| SourceFacts.ElementUpdateAgrees | src/parser.cpp:399-417 | `a[i] op= v` computes what `x op= v` computes for all values of `+=`, `*=` and `=`; for `-=` iff the two integers differ by a multiple of 2^31, for `/=` iff they have the same magnitude |
| SourceFacts.StmtScope | src/parser.cpp:365-387 | every statement keeps the names in scope and adds at most those it declares |
| Division.QuotientsAgree | src/vm.cpp:445-461 | dividing either way round agrees, failures included, iff the numbers are equal up to sign |
| Values.BinaryOnInts | src/vm.cpp:400-461 | on integers an operation fails iff it is a division or remainder without 32-bit result; the exact condition of `Division.QuotientsAgree` rests on it |
| Meaning.LiteralMeans | src/parser.cpp:69-102 | from the token of a numeral, with or without a sign, to the number its digits denote in positional notation, cut to 32 bits |
| Meaning.NameMeans | src/expr_semantic.cpp:110-129 | from the token of a name to its value: nil, the variable, or else the last function of that name declared so far; anything else fails |
| Meaning.OperatorMeans | src/vm.cpp:170-260 | from the tokens `a op b`: the text is read, and its value is the sum, difference, product, truncated quotient, remainder or comparison of the integers its operands give, cut to 32 bits; it fails exactly for division by zero and for the quotient that does not fit |
| Meaning.IndexMeans | src/vm.cpp:510-539 | from the tokens `a[i]` to the element: array first, then index, then the access that `ArrayLaws` is about |
| Meaning.ArrayMeans | src/vm.cpp:498-508 | from the tokens `array(n)` to the new array that `ArrayLaws.NewReads` is about |
| Meaning.SignMeans | src/vm.cpp:208-219 | from the tokens of a sign and an operand that is no number literal to the negated number, cut to 32 bits |
| Meaning.AssignmentMeans | src/parser.cpp:365-393 | from the tokens `x op b ;` to the number in `x`, for each assignment operator; no other variable changes |
| Meaning.ElementMeans | src/parser.cpp:394-420 | from the tokens `a[i] op b ;` to the number the element then reads as, the assigned value on the left of the operator; every other element of every array reads as before |
| Meaning.ConditionalMeans | src/parser.cpp:290-322 | from the tokens of a conditional: nil and 0 run the second branch, every other value the first |
| Meaning.BreakMeans | src/parser.cpp:489-494 | from the tokens of `while (c) break;`: the condition is evaluated once and nothing else happens |
| Meaning.CallReads | src/parser.cpp:38-46 | a callee and arguments between commas are read as the call with these arguments in this order |
| Meaning.CallMeans | src/vm.cpp:268-313 | a function that returns its parameter number `i` gives argument number `i`, whatever follows the `return`; an empty body gives nil |
| ArrayLaws.ReadBack | src/vm.cpp:510-560 | what is written to an element and is no array is read back from that element, and reading it changes nothing |
| ArrayLaws.ReadBackArray | src/vm.cpp:530-538 | an array that is written is read back under its handle with the length it has itself; if it does not exist, reading fails |
| ArrayLaws.OthersRead | src/vm.cpp:541-560 | every other index of the array and every other array reads as before the write |
| ArrayLaws.ReadingKeeps | src/vm.cpp:530-538 | refreshing a nested header while reading changes no reading afterwards |
| ArrayLaws.NewReads | src/vm.cpp:498-508 | `array(n)` succeeds iff 0 <= n < 2^30; reading the new array succeeds iff the index is an integer from 0 to n - 1, and gives nil |
| ArrayLaws.NewIsNew | src/vm.cpp:498-508 | the new array is none of the others, and they read as before |
| ArrayLaws.RunStaysSound | src/vm.cpp:23-139 | on every run of any bytecode, every array value in a register or a cell names an existing array with its length |
| ArrayLaws.ReadBackAny | src/vm.cpp:510-560 | in such states every value is read back as it was written, arrays in arrays included |
| CallDepth.DeepestCall | src/vm.cpp:278-281 | `main` calling a function that calls itself n times evaluates iff n is at most 1998: exactly 2000 activations may be open |
| CallDepth.CallGoesThrough | src/vm.cpp:268-282 | a call goes through iff the function exists, the number of arguments is its own and fewer than 2000 frames are open |
| CallDepth.CallOpensWindow | src/vm.cpp:284-289 | the callee sees its arguments and nil in the other registers of its 120; what lies below is unchanged |
| CallDepth.FramesBounded | src/vm.cpp:278-281 | on no run of any bytecode are there more than 2000 frames |
| Machine.RunBalanced | src/vm.cpp:268-349 | for arbitrary bytecode: when a nested `run` comes back, one frame is gone, instruction and frame pointer are what it recorded, and nothing below the window has changed |
| Machine.CallBalanced | src/vm.cpp:268-313 | for arbitrary bytecode: after a call, frames and pointers are as before it and registers below the first argument are unchanged |
| Machine.DispatchFrames | src/vm.cpp:34-136 | no instruction writes below the frame pointer; only calls push and only returns pop |
| Machine.RunIsFlat | src/vm.cpp:23-139 | the nested machine equals the step machine: same result after some number of steps |
| Machine.TopLevelRun | src/vm.cpp:141-149 | at top level `run` stops or throws iff the step machine does, in the same state |
| Bytecode.DecodeABC | src/vm.cpp:576-578 | three-register words decode to their fields |
| Bytecode.DecodeABx | src/vm.cpp:572-574 | wide words decode to their fields |
| Bytecode.PatchKeepsOpAndA | src/bytecode_emitter.cpp:142-148 | patching a jump changes its offset and nothing else |
| Bytecode.WordLayout | src/vm.cpp:572-578 | opcode from bit 26, `a` from bit 18, `b` from bit 9, `c` from bit 0, wide operand in the low 18 bits, jump offsets with 131071 for zero |
| Linker.JumpReach | src/bytecode_emitter.cpp:137-152 | jumps resolve iff every label is placed at most 10000 instructions away from the next one |
| Variables.VarManager.constructor | src/var_manager.h:32 | one open scope without names |
| Variables.VarManager.NewScope | src/var_manager.cpp:7-9 | opening a scope keeps names and register counter and remembers the names |
| Variables.VarManager.CloseScope | src/var_manager.cpp:17-22 | erasing the names of the innermost scope restores exactly the name map, the registers and the outer scopes from when it was opened |
| Variables.VarManager.PushNamed | src/var_manager.cpp:11-15 | the first free register becomes the variable's; names stay injective and outer scopes untouched |
| Variables.VarManager.PushVar | src/var_manager.h:36 | a temporary gets a register no variable has |
| Variables.VarManager.PopVar | src/var_manager.h:38 | taking the top register off leaves every variable in scope below the counter |
| Variables.VarManager.Drop | src/var_manager.h:40 | the same for several registers |
| Variables.VarManager.GetVar | src/var_manager.cpp:25-30 | the register of a name that is in scope, and nothing for any other |
| Variables.VarManager.AddFunc | src/var_manager.cpp:32-35 | a taken name is refused and keeps its number |
| Emitter.BytecodeEmitter.constructor | src/bytecode_emitter.cpp:112-125 | an emitter with nothing emitted and nothing pending |
| Emitter.BytecodeEmitter.EmitLoadI | src/bytecode_emitter.cpp:55-59 | the word loads this literal; earlier literals keep their pool index |
| Emitter.BytecodeEmitter.JmpLabel | src/bytecode_emitter.cpp:154-158 | a pending jump, with the words before it and the pending list consistent |
| Emitter.BytecodeEmitter.JmptLabel | src/bytecode_emitter.cpp:160-164 | the same for a jump if true |
| Emitter.BytecodeEmitter.JmpfLabel | src/bytecode_emitter.cpp:166-170 | the same for a jump if false |
| Emitter.BytecodeEmitter.Label | src/bytecode_emitter.cpp:133-135 | the label names the place of the next instruction |
| Emitter.BytecodeEmitter.Resolve | src/bytecode_emitter.cpp:137-152 | afterwards every word of the function is final, each jump holding the offset of its own label; fails iff a label was never placed or is too far away |
| Emitter.BytecodeEmitter.BeginFunc | src/bytecode_emitter.cpp:112-119 | the number of the function is its place among the functions |
| Emitter.BytecodeEmitter.EndFunc | src/bytecode_emitter.cpp:121-125 | the function joins the finished ones with its final words; earlier ones are unchanged |
| Emitter.BytecodeEmitter.Constants | src/bytecode_emitter.cpp:183-186 | the constants stand at the indices their loads were given |
| Emitter.BytecodeEmitter.FindMain | src/bytecode_emitter.cpp:175-180 | the last function called `main` |
| Emitter.BytecodeEmitter.InitVM | src/bytecode_emitter.cpp:173-204 | functions laid out one behind the other, entry points, constants and the start-up code behind them |
| ExprSemantic.EvalExpr | src/expr_semantic.cpp:45-175 | appends the code whose correctness is `Simulation.SimExpr` and raises the register counter by exactly one; refused exactly for what has no code |
| ExprSemantic.EvalBinary | src/expr_semantic.cpp:36-42 | two operands and the operation on the two topmost registers; the counter ends one higher |
| ExprSemantic.EvalCall | src/expr_semantic.cpp:50-88 | callee, arguments and call with the window right behind the callee; the counter ends one higher |
| ExprSemantic.EvalArgs | src/expr_semantic.cpp:67-72 | the arguments in consecutive registers |
| ExprSemantic.GetFunc | src/expr_semantic.cpp:8-34 | the instruction of an operator; `>` and `>=` by exchanged operands |
| Compiler.Compile | src/parser.cpp:513-561 | the one-pass compiler returns exactly the image that parsing, compiling and linking as functions give, and is refused exactly when they fail; what parsing reads is `StatementGrammar.ProgramIsGrammar`, what the image does `Correctness.CompilerCorrect` |
| Compiler.Parser.ParseProgram | src/parser.cpp:513-522 | the same from a fresh parser: the interleaved parsing and emission loses and reorders nothing |
| Compiler.Parser.ParseOneFunction | src/parser.cpp:526-552 | one more function is accepted iff it parses, compiles, resolves and has a new name; all scopes are closed again |
| Compiler.Parser.PushParams | src/parser.cpp:541-546 | parameters get the first registers in order; refused iff a name occurs twice |
| Compiler.Parser.ParseStatement | src/parser.cpp:498-511 | tokens left, code, labels, pending jumps and scope are those of the statement read, which `StatementGrammar.StatementIsGrammar` characterises; enclosing scopes and loops are as before |
| Compiler.Parser.IfStatement | src/parser.cpp:290-322 | the same for the conditional, `else if` chains included |
| Compiler.Parser.ParseWhile | src/parser.cpp:336-360 | the same for `while`, its condition emitted twice |
| Compiler.Parser.ParseFor | src/parser.cpp:449-479 | the same for `for`, whose increment is kept back until the body has been emitted |
| Compiler.Parser.ParseBreak | src/parser.cpp:489-494 | a jump to the end label of the innermost loop; refused outside loops |
| Compiler.Parser.ParseReturn | src/parser.cpp:570-574 | the value of the expression is returned; its register is free again |
| Compiler.Parser.ParseBlock | src/parser.cpp:271-287 | statements up to the closing brace; a missing brace is refused |
| Compiler.Parser.PushAssign | src/parser.cpp:365-422 | the code whose correctness is `Simulation.SimAssignVar` and `SimAssignElement`; refused for compound assignment to an unknown variable |
| StatementGrammar.StatementIsGrammar | src/parser.cpp:498-511 | the statement parser accepts a statement and a rest iff the consumed tokens are the text of a tree for it; an `else` belongs to the nearest conditional |
| StatementGrammar.ProgramIsGrammar | src/parser.cpp:513-552 | a token list is accepted as a program iff it is the text of trees for it: parameters, braces, separators and assignment tokens by a table of its own |
| StatementGrammar.StatementRoundTrip | src/parser.cpp:271-511 | every matched statement is read back from its printed text, and what follows is left alone |
| StatementGrammar.ProgramRoundTrip | src/parser.cpp:513-552 | a program has a text at all iff its conditionals are matched, and then it is read back from the printed one |
| ProgramFacts.AcceptedNext | src/parser.cpp:526-552 | a program with one more function is acceptable iff that function compiles and resolves after the others and its name is new |
| ProgramFacts.RefusedEarly | src/parser.cpp:513-522 | giving up at the first bad function refuses nothing that the rest could have saved |
| ProgramFacts.Linked | src/bytecode_emitter.cpp:173-204 | the image assembled from the emitter's state is the linked program; a program that is not acceptable has none |
| Tokens.RuleInEffect | src/parser.cpp:139-180 | what the table yields when indexed by token number: the labels of rows 28 to 31 are exchanged, so `==` binds like `and` and `!=` like `or`; the order that results is `Precedence.TokenOrder` |
| Precedence.TokenOrder | src/parser.h:29-41 | the levels in effect: `!=` below `==` below the comparisons below `+` and `-` below `*`, `/` and `%` below a sign below calls and accesses |
| Precedence.FamilyOrder | src/parser.cpp:139-180 | one operator binds tighter than another iff it comes in a later one of the five listed families |
| Precedence.TighterFirst | src/parser.cpp:209-261 | `a o1 b o2 c` is read as `a o1 (b o2 c)` iff the family of `o2` is tighter, and as `(a o1 b) o2 c` otherwise, for all operands that bind tighter than both |
| Precedence.SignFirst | src/parser.cpp:94-102 | a sign belongs to the operand right behind it, whatever operator follows |
| PrattTheorems.ParserIsGrammar | src/parser.cpp:249-261 | `parse_precedence(p)` accepts with an expression and a rest iff the consumed tokens are the text of a tree for it that fits `p` and the rest does not go on with an operator of strength `p` |
| PrattTheorems.Accepted | src/parser.cpp:209-261 | flattening the tree of an accepted text gives back exactly its tokens; left operands bind at least as tightly as their operator, right operands strictly tighter |
| PrattTheorems.ReadsAll | src/parser.cpp:249-261 | the text of every fitting tree is read back and the tokens behind it are untouched |
| PrattTheorems.RoundTrip | src/parser.cpp:94-128 | every expression, printed with the parentheses it needs, is read back and the rest of the tokens is left alone |
| PrattTheorems.PrintFits | src/parser.cpp:139-180 | printing puts parentheses wherever precedence asks for them, and stands for the same expression |
| PrattTheorems.DigitsBack | src/parser.cpp:69-92 | decimal digits read back to the number |
| ExprParser.ParsePrecedence | src/parser.cpp:249-261 | the loop over the current token consumes and builds what the parsing function says; that function's meaning is `PrattTheorems.ParserIsGrammar` and `Precedence.TighterFirst` |
| ExprParser.PfnNumber | src/parser.cpp:69-92 | the digit loop computes the decimal value, negated behind a sign; a point or an empty text is refused |
| ExprParser.PfnGrouping | src/parser.cpp:184-207 | one token of lookahead and its return to the lexer do not change what is read |
| ExprParser.ParseParamList | src/parser.cpp:38-46 | comma-separated arguments up to the parenthesis |
| Lexing.Lexer.GetTok | src/lexer.cpp:166-185 | one token is consumed; after a token was put back, the list ahead is right up to the text of its first token |
| Lexing.Lexer.RollBack | src/lexer.cpp:160-164 | the last token is in front of the list again |
| Lexing.Lexer.Match | src/parser.cpp:26-30 | consumes the token iff it is the one asked for, and otherwise changes nothing |
| Lexing.TextDoesNotMatter | src/lexer.cpp:166-172 | behind an expression a name, number or string whose text got lost is an error whatever it said, so the loss cannot be noticed |
| Collector.GarbageCollector.MarkFrom | src/heap.h:167-180 | terminates because unmarked handles get fewer; what gets marked was reached without passing through a marked header, and all it names is marked |
| Collector.GarbageCollector.Mark | src/heap.h:187-201 | the same from every array value on the scanned stack, although each root is unmarked and marked again on the way |
| Collector.MarkIsExact | src/heap.h:167-201 | after marking, a header is marked iff it was before or a root leads to it without passing through a header that was marked before and is no root |
| Collector.CleanMarkIsExact | src/heap.h:167-201 | with no header marked on entry, exactly the handles reachable from the stack are marked |
| Collector.GarbageCollector.SweepOld | src/heap.h:284-295 | marked objects stay in their order and lose their mark, the others and only they are erased from the handle table |
| Collector.GarbageCollector.MajorGc | src/heap.h:273-296 | the listed objects found by a marking stay, in order and unmarked; exactly the others are erased; every other block keeps its place and contents |
| Collector.GarbageCollector.LargeGc | src/heap.h:256-271 | the same for large objects |
| Collector.GarbageCollector.Rebind | src/heap.h:205-231 | a block and everything it leads to moves to new old blocks with the header and cells it had, each handle once, cycles included; nothing else moves |
| Collector.GarbageCollector.MarkYoung | src/heap.h:233-238 | exactly the young objects found by the marking are marked; every other mark is given too: kept, or set because the marking came by |
| Collector.GarbageCollector.Promote | src/heap.h:233-249 | what the marked young objects lead to is in the old generation, the arena is empty, everything else is where it was; copies keep their marks, and no other mark changes |
| Collector.GarbageCollector.constructor | src/heap.h:298-299 | the empty heap is tidy |
| Collector.GarbageCollector.MinorGc | src/heap.h:233-254 | in a heap without nested arrays everything on the stack keeps its handle and contents and the arena is empty; exactly the young objects off the stack are gone, and the old ones off the stack iff the promoted objects fill the old list |
| Collector.GarbageCollector.MajorGcTidy | src/heap.h:273-296 | in such a heap exactly the old objects that are not on the stack are erased, in the list, the handle table and the blocks |
| Collector.GarbageCollector.LargeGcTidy | src/heap.h:256-271 | in such a heap exactly the large objects that are not on the stack are erased, in the list, the handle table and the blocks |
| Collector.GarbageCollector.Call | src/heap.h:327-332 | a full collection erases exactly the old and the large objects that are not on the stack; both lists keep their order, young objects and everything on the stack are untouched |
| Collector.GarbageCollector.AllocArray | src/heap.h:301-325 | a new handle with nils, young iff it fits the arena; before it exactly the collections that are due have freed exactly what the stack does not name; the arena never overflows, its blocks stay disjoint and the list of young objects fits its array |
| Collector.GarbageCollector.AllocYoung | src/heap.h:140-149 | the block starts where the last one ended, its header is born marked, its cells are arbitrary |
| Collector.GarbageCollector.AllocLarge | src/heap.h:152-160 | the same for a large block |
| Collector.GarbageCollector.GetCell | src/vm.cpp:530-538 | a nested header is refreshed in the cell and in the result from the block its handle names now |
| Collector.GarbageCollector.SetCell | src/vm.cpp:559 | one cell changes |
| CollectorTheorems.SurvivesPromotion | src/heap.h:233-249 | a handle still resolves after promotion iff it was not young or a marked young object leads to it; then with its old contents, outside the released arena |
| CollectorTheorems.RootsSurvivePromotion | src/heap.h:187-249 | what the stack names survives promotion whatever the marks were |
| CollectorTheorems.PromotionKeepsGraph | src/heap.h:205-249 | every handle reachable from the stack keeps length and cells iff each young one of them is led to by a young object the marking finds; then none points into the released arena and the same handles are reachable, sharing and cycles included |
| CollectorTheorems.CleanMarksLead | src/heap.h:187-249 | that condition holds when no old or large header the stack leads to, roots aside, is marked on entry |
| CollectorTheorems.StaleMarkLosesObject | src/heap.h:205-249 | a run from the empty heap: allocate 1 and 2, store 2 in 1, promote, allocate 3, store it in 2, promote; 3 is reachable from the root 1 and dangles, because 2 kept its mark when it moved |
| CollectorTheorems.OldListedAfterPromotion | src/heap.h:230 | the old list stays free of duplicates iff promotion reaches no object that was already old |
| CollectorTheorems.LargeListedAfterPromotion | src/heap.h:205-231 | the large list stays free of stale addresses iff promotion reaches no large object |
| CollectorTheorems.SweepKeepsGraph | src/heap.h:256-296 | with clean marks a sweep keeps exactly the listed objects the stack leads to and leaves the reachable graph unchanged |
| Interpreter.VMData.constructor | src/vm.cpp:141-149 | the machine starts in the abstract start state |
| Interpreter.VMData.Run | src/vm.cpp:23-139 | whole-run safety of the collector: with collections at exactly every `interval`-th instruction, counted over nested activations, and at allocation, the machine ends as one that never collects, with the same registers and the same contents behind every array on the stack |
| Tameness.RunIsTame | src/vm.cpp:23-139 | a linked program whose registers fit a window meets the hypotheses of `Interpreter.VMData.Run` at every step, if calls find room on the stack and no array is stored in an array |
| Interpreter.VMData.OpCall | src/vm.cpp:268-313 | a call with its nested `run`; nil-filling the exposed slots keeps the scanned stack free of dead handles |
| Interpreter.VMData.OpReturn | src/vm.cpp:315-349 | a return shows the caller's frame with the result in place |
| Interpreter.VMData.OpAlloc | src/vm.cpp:498-508 | allocation, collections included, gives a new array of nils and disturbs no other |
| Interpreter.VMData.OpArrGet | src/vm.cpp:510-539 | reading through the handle table gives the cell of the abstract array, with the same failures; which cell that is say `ArrayLaws.ReadBack` and `OthersRead` |
| Interpreter.VMData.OpArrSet | src/vm.cpp:541-560 | writing changes that cell for every alias and nothing else, with the same failures |
| Interpreter.VMData.Collect | src/vm.cpp:27-32 | a collection at an instruction boundary frees exactly the old and large objects off the scanned stack and cannot be noticed |
| Execution.RunProgram | src/vm.cpp:141-149 | compiler and collector together: the machine with any collection settings halts only with the value of the source, and throws only because the source fails |
| Execution.RunText | src/parser.cpp:513-522 | the same from the tokens: refused iff they do not parse, compile and link |
| JitCorrect.JitSimulates | src/jit_runtime.cpp:30-251 | for a function of the integer fragment, whenever the interpreter returns without throwing, the compiled code reaches its return with the same window, result in slot 0, and slots outside the window are as the interpreter leaves them |
| JitCorrect.InvokeJit | src/vm.cpp:261-266 | the machine after the call of compiled code, its window written back and its frame popped, is the machine after the nested `run`: pointers, frames, heap and every stack slot inside the window and outside |
| JitCorrect.JitFails | src/jit_runtime.cpp:30-251 | whenever the interpreter throws, the compiled code reaches the same instruction with the same window and returns the error word there, or traps on the quotient that does not fit |
| JitCorrect.JitOutcome | src/jit_runtime.cpp:30-251 | the word returned is the error word, or the code traps, iff the interpreter throws |
| JitCorrect.FailureGoesUnnoticed | src/vm.cpp:261-266 | `invoke_jit` does not read that word: after a failure that does not trap the machine goes on behind the call, frame popped and slots as they were, where the interpreter would throw |
| JitCorrect.RunSim | src/jit_runtime.cpp:70-243 | the same from any instruction of the function on |
| JitCorrect.StepSim | src/jit_runtime.cpp:82-241 | one interpreted instruction is one compiled block, jumps included |
| JitCorrect.Layout | src/jit_runtime.cpp:70-80 | every block stands where the emission put it, behind the label of its index if one jumps there |
| JitCorrect.AssembledLabels | src/jit_runtime.cpp:45-80 | every label is bound at most once |
| JitCorrect.BinarySim | src/jit_runtime.h:130-185 | arithmetic and comparison on integers compute what the interpreter computes, type in the upper word |
| JitCorrect.ModSim | src/jit_runtime.cpp:264-304 | remainder with the sign of the dividend |
| JitCorrect.NegSim | src/jit_runtime.cpp:306-339 | negation with wrap-around |
| JitCorrect.RefusalSim | src/jit_runtime.h:130-234 | operands that the interpreter refuses, by type or as divisor, lead to the error exit with the window as it was; the one quotient without result traps |
| JitCorrect.EqSim | src/jit_runtime.cpp:167-198 | equality of any two values despite collector marks |
| JitCorrect.JumpSim | src/jit_runtime.h:83-125 | a conditional jump reaches its label or falls through by the compiled condition |
| JitCorrect.TypeWords | src/value.h:12-92 | the type words of represented values: 16, 4, 12, or an odd one with the mark in bit 1 and the length above; bit 2 is the class that comparisons look at |
| JitCorrect.ConditionAgrees | src/jit_runtime.h:114-123 | the compiled condition judges a value as the interpreter does iff it is neither nil nor the unmarked header of an empty array |
| Jit.Compile | src/jit_runtime.cpp:30-251 | label discovery and lowering emit the code that `JitCorrect.JitSimulates` is about; refused for unsupported instructions and for jumps out of the function |
| Jit.FindLabels | src/jit_runtime.cpp:45-60 | a label exactly for every index that is jumped to |
| Jit.JitFuncInfo.BinaryOperation | src/jit_runtime.h:130-234 | appends the code whose effect is `JitCorrect.BinarySim` |
| Jit.JitFuncInfo.Cjmp | src/jit_runtime.h:83-125 | appends the code whose effect is `JitCorrect.JumpSim` |
| ArmFrame.PrologEpilogInfo.constructor | libs/asmjit/src/asmjit/arm/a64emithelper.cpp:257-308 | the bit loops give each group its registers in ascending pairs with consecutive slots |
| ArmFrame.PrologEpilogInfo.PairUp | libs/asmjit/src/asmjit/arm/a64emithelper.cpp:283-301 | every saved register once, two to a slot, an odd last one alone |
| ArmFrame.EmitProlog | libs/asmjit/src/asmjit/arm/a64emithelper.cpp:311-381 | emits the prolog the theorems are about; refused iff the adjustment exceeds 24 bits; what it does is `ArmFrameTheorems.AfterProlog` |
| ArmFrame.EmitEpilog | libs/asmjit/src/asmjit/arm/a64emithelper.cpp:384-448 | emits the epilog, in reverse order; refused under the same condition |
| ArmFrameTheorems.SlotsDisjoint | libs/asmjit/src/asmjit/arm/a64emithelper.cpp:257-308 | for every mask all slots are aligned, pairwise disjoint and inside the reserved area |
| ArmFrameTheorems.SavedHaveSlots | libs/asmjit/src/asmjit/arm/a64emithelper.cpp:257-308 | every register that must be saved has a slot |
| ArmFrameTheorems.AfterProlog | libs/asmjit/src/asmjit/arm/a64emithelper.cpp:311-381 | after the prolog the stack pointer is below save area and locals and every slot holds the entry value of its register, for a vector register its lower 64 bits; with a frame pointer x29 is the address of the saved pair (x29, x30); every other register and all memory outside the save area are as on entry |
| ArmFrameTheorems.AfterEpilog | libs/asmjit/src/asmjit/arm/a64emithelper.cpp:384-448 | from any state whose save area holds those entry values, the epilog restores them and the stack pointer, and returns to where x30 then says |
| ArmFrameTheorems.EpilogUndoesProlog | libs/asmjit/src/asmjit/arm/a64emithelper.cpp:311-448 | for every mask, frame-pointer flag and adjustment up to 0xFFFFFF: after prolog, any body that keeps stack pointer and save area, and epilog, the stack pointer, all saved general registers and the lower 64 bits of all saved vector registers have their entry values (AAPCS64 section 6.1.1), and control is back at the caller when x30 was saved |
| ArmFrameTheorems.OthersAfter | libs/asmjit/src/asmjit/arm/a64emithelper.cpp:384-448 | a register that the frame does not save is what the body left there; without x30 in the frame the epilog returns to where the body left x30 |
| ArmFrameTheorems.LandingPad | libs/asmjit/src/asmjit/arm/a64emithelper.cpp:323-326 | the landing pad is the first instruction iff it is asked for, and the only one |
| ArmFrameTheorems.VectorsAfter | libs/asmjit/src/asmjit/arm/a64emithelper.cpp:384-448 | every vector register in full: a saved one comes back with its upper half cleared by the 64-bit load, any other is what the body left there |
| ArmFrameTheorems.WholeVectorsIff | libs/asmjit/src/asmjit/arm/a64emithelper.cpp:311-448 | all saved vector registers come back in full iff their upper halves were zero on entry, also with the 16-byte slots that a64func.cpp:67-72 asks for |
| ArmFrameTheorems.WideFrameLosesUpperHalf | libs/asmjit/src/asmjit/arm/a64func.cpp:67-72 | a frame with 16-byte slots that meets the size condition, and an entry state, for which v8 does not come back although the body does nothing |
| ArmFrameTheorems.EncodableIff | libs/asmjit/src/asmjit/arm/a64emithelper.cpp:343-360 | the emitted instructions can be encoded iff the save area is at most 504 bytes, or at most 255 when it begins with a single register |
| ArmFrameTheorems.StandardFrameFits | libs/asmjit/src/asmjit/arm/a64func.cpp:47-74 | every set of AAPCS64 callee-saved registers meets that condition |
| ArmFrameTheorems.WideFrameDoesNotFit | libs/asmjit/src/asmjit/arm/a64emithelper.cpp:345-348 | a frame that saves x19 and, in 16-byte slots, the lower halves of v4 to v31 does not meet the size condition: the code cannot be encoded |
| ArmMov.EncodeMovSequence32 | libs/asmjit/src/asmjit/arm/a64assembler.cpp:329-359 | executing the words leaves exactly the 32-bit constant in the register, in one word iff a halfword is all zeros or all ones |
| ArmMov.EncodeMovSequence64 | libs/asmjit/src/asmjit/arm/a64assembler.cpp:361-415 | executing the words leaves exactly the constant; above 32 bits their number is max(1, 4 minus the larger of the zero and all-ones halfword counts), below it is one or two as for 32 bits |
| ArmMov.MaterialiseConstant | libs/asmjit/src/asmjit/arm/a64assembler.cpp:361-415 | the same for every 64-bit number by its value, with both length formulas |
| ArmMov.ExecEncoded | libs/asmjit/src/asmjit/arm/a64assembler.cpp:329-366 | each word is a move-wide word, bits 28:23 included, and is decoded to the instruction it was meant to be (Arm Architecture Reference Manual DDI 0487, section C6.2) |
| ArmMov.HalvesBack | libs/asmjit/src/asmjit/arm/a64assembler.cpp:322-327 | a 64-bit number is its four halfwords |

## Where code and documentation disagree

* The rule table's rows for `==`, `!=`, `and`, `or` are labelled in an order the token
  enumeration (src/lexer.h:9-51) does not have; the model indexes by the enumeration.
* `a[i] -= v` and `a[i] /= v` compute `v - a[i]` and `v / a[i]`; the source semantics
  follows the code, and `SourceFacts.ElementUpdateAgrees` says when it makes a difference.
* Conditions and increments of loops are evaluated in the scope of the body, because they
  are emitted behind it; see `SourceFacts.CaptureMatters`.
* New headers are born marked and promotion may list an object twice; the collector
  theorems carry the exact conditions.
* After a token has been put back, `get_tok` moves the current token away before it is
  read (src/lexer.cpp:168-169); the model leaves the text of the current token open there.

## Left out

- Correctness.CompilerCorrect: asks for the size limits the compiler does not check (at most 256 functions, registers and argument counts below 256, fewer than 2^18 constants) and for programs whose unbraced branches declare no variable, or both the same one by a plain assignment. That condition is sufficient, not necessary; `ScopeFacts.ScopeMatters` is a program outside it that is compiled wrongly.
- Correctness.CompilerForward: the same conditions; the machine's stack and code array are unbounded here.
- Correctness.LinkedImage: asks for the size limits; beyond them the compiler silently truncates register numbers and indices.
- ControlFlow.WholeRunStaysInside: the same size limits.
- Interpreter.VMData.Run: for runs in which no array is stored in an array, registers stay below 120 and the stack stays within 4096 slots, as the original assumes without checking; for arrays in arrays `CollectorTheorems.StaleMarkLosesObject` shows the claim to be false of the code. For linked programs `Tameness.RunIsTame` replaces the demands on registers and control by a look at the program.
- Interpreter.VMData.OpArrSet: for values that are no arrays, by the same restriction.
- Execution.RunProgram: asks for the conditions of `Correctness.CompilerCorrect`, instructions within the window, room on the stack at calls and runs that store no array in an array.
- Execution.RunText: the same.
- Simulation.SimAssignElement: states what the emitted operand order computes, which for `-=` and `/=` is not what the notation suggests.
- JitCorrect.JitSimulates: for runs whose operands are integers or refused by the interpreter too, and whose conditions are neither nil nor empty arrays. A comparison of an integer with a function or an array is refused by compiled code but not by the interpreter.
- JitCorrect.InvokeJit: the same, for calls that return; for calls that fail the claim is false of the code, and `JitCorrect.FailureGoesUnnoticed` says what happens.
- Collector.GarbageCollector.MajorGc: asks for an old list without duplicates and dead entries, without which the original follows an erased handle; `CollectorTheorems.OldListedAfterPromotion` says exactly when promotion keeps it so.
- Collector.GarbageCollector.LargeGc: asks for a large list without stale addresses; `CollectorTheorems.LargeListedAfterPromotion` says exactly when promotion keeps it so.
- Collector.GarbageCollector.MinorGc: for heaps without arrays inside arrays; with them the claim is false of the code, and `CollectorTheorems.PromotionKeepsGraph` says exactly when one promotion is harmless.
- Collector.GarbageCollector.MajorGcTidy: for the same heaps; `Collector.GarbageCollector.MajorGc` is about any heap.
- Collector.GarbageCollector.LargeGcTidy: for the same heaps; `Collector.GarbageCollector.LargeGc` is about any heap.
- Collector.GarbageCollector.Call: for the same heaps.
- Collector.GarbageCollector.AllocArray: for the same heaps.
- StatementGrammar.StatementRoundTrip: for matched statements only; one whose first branch ends in a conditional without `else` has no text, as in C. `StatementGrammar.ProgramRoundTrip` shows that the condition is exact.
- ExprParser.ParsePrecedence: numbers with a point, strings, member access, `and`, `or` and function signatures are refused here; the original parses them, and of these only numbers with a point get code.
- ExprParser.PfnNumber: a number with a point, a float in the original, is refused.
- ExprParser.PfnGrouping: a parenthesised name list, a signature in the original, is refused.
- Lexing.Lexer.GetTok: the current token after a roll-back is moved from in the original, so its text is not specified.
- Floats, and equality between integers and floats; strings, member access, `and` and `or`, which the code generator refuses.
- `continue`: the lexer maps the word to the token of `break`.
- Native functions and the standard library, printing, logging and the texts of exceptions.
- Character-level lexing and comments; the model starts from tokens.
- Parenthesised name lists, which `pfn_grouping` reads as a function signature and no later phase uses.
- Integer literals beyond 64 bits; literals are cut to 32 bits as the original does.
- Signed overflow is taken to wrap around, and the one quotient without a 32-bit result to trap.
- A `HALT` below the top level, which no compiled program contains: the model lets it throw.
- Overflow of the 32-bit handle counter and failure of the underlying allocators.
- Mark bits inside values on the stack, except where compiled code compares them.
- Hotness counters and the decision when to compile; float paths, calls, array helpers and error codes of compiled code, which appear as one opaque operation.
- Register allocation of the x86 back end: virtual registers are kept apart.
- The rest of asmjit.
