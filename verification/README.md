# Verification of Owi's core

A model in Dafny of the parts of Owi, a WebAssembly toolkit and symbolic-execution engine, whose correctness
does not show from reading one function, with proofs of what those parts are for. `dafny verify
dfyconfig.toml` checks all of it.

- `Wasm.dfy`, `Machine.dfy`: integer values and operators, and the interpreter's control machine: program
  counter, operand stack, stack of open blocks, chain of suspended callers, environment of the running module
  instance. `Division.dfy`, `Operators.dfy` and `Instructions.dfy` say what operators compute and what single
  instructions do to operands written out. `Structured.dfy` is a second, recursive semantics without any of
  these; `Refinement.dfy` proves the two equal on every program. `Typing.dfy` is section 3.3 of the
  WebAssembly Core Specification 2.0 for code and, beyond it, for machine states; `Soundness.dfy` proves
  preservation and progress, and `TypingExactly.dfy` that the rules for instructions without control flow are
  exact.
- `Weasel.dfy`, `WeaselBinders.dfy`, `WeaselProofs.dfy`, `WeaselQuantifier.dfy`, `WeaselLoop.dfy`,
  `WeaselForall.dfy`, `WeaselExists.dfy`, `WeaselNested.dfy`, `WeaselConnectives.dfy`, `WeaselTyped.dfy`,
  `WeaselMeaning.dfy`: the compiler from specifications to instructions, what terms and propositions mean, and
  for which of them the code, run by the semantics above, computes that meaning.
- `Synchronizer.dfy`, `WorkSharing.dfy`: the monitor by which workers share tasks, as an object, and any
  number of threads on it interleaved at their critical sections.
- `Leb128.dfy`, `Leb128Form.dfy`, `BinaryAst.dfy`, `BinaryParser.dfy`, `BinaryEncoder.dfy`, `CodecProofs.dfy`,
  `CodecExactly.dfy`, `CodeProofs.dfy`, `BinaryFormat.dfy`: the binary format. The writers append to a mutable
  buffer and are proved to append the byte string that a function gives; readers are functions, proved inverse
  to those byte strings, which are proved to be those of the specification's tables. Section 5 of the
  WebAssembly Core Specification 2.0 is the reference.
- `Elements.dfy`, `QSort.dfy`, `Strtol.dfy`, `Numerals.dfy`: the C library's sort on elements laid out in
  bytes, and its four integer parsers, for the word sizes of wasm32.
- `UnionFind.dfy`, `SkewHeap.dfy`, `ArrayHeap.dfy`, `Graph.dfy`: data structures.
- `ExplorationTree.dfy`, `ExplorationTrails.dfy`, `ConcolicTree.dfy`: the tree of paths of concolic execution,
  as a value and as objects assigned in place that stand for such values.
- `Rounding.dfy`: the integer-to-float conversions that must round once.
- `Prelude.dfy`, `Words.dfy`: options, reversal, powers of two; machine words.

Conventions. A host exception (an empty operand stack, an index out of range, a failed `assert`) is an
explicit result, `Fault`, `Raised` or `None`. Machine integers are integers with their range as a subset type
and the wrap-around written out. Running time is a budget of turns of the interpreter's loop; divergence is
that no budget is enough. Which waiting thread a signal wakes, which item the store hands out, and which of
several live branches is explored next are arbitrary.

Where the code and what it is meant to do part, the code is modelled, the difference is proved, and so is
exactly when there is none:
- the binary connectives of Weasel give their conditional a parameter nothing pushes (`EffectCorrect`,
  `AgreesOnlyOnTraps`), and their code is never valid (`ValidExactly`);
- a bounded `forall` tests its lower bound even on an empty range and does not end at the type's maximum
  (`ForallRightExactly`, `MaximumDiverges`);
- a bounded `exists` is left at the first 0, so its lower bound alone decides (`ExistsRightExactly`);
- the variable of a quantifier with others in its body is put in a local that not every place of the body
  reads (`VariableReadWhereSet`, `RightEverywhere`), and that a quantifier directly inside changes
  (`NestEndsExactly`, `NestRightExactly`);
- type indices in block types are written unsigned and read signed, so that some come back as the empty type,
  a value type or an error (`TypeIndexRead`, `TypeIndexExactly`);
- `select` with types is written without their number (`TypedSelectNotBack`, `ExprExactly`);
- a branch table of more than 2^31 targets is looked up by a signed index (`TableNeverFails`);
- `strtol` clears `errno` when the value is exactly the minimum (`Strtol`).

## Model

| member | source | states |
|---|---|---|
| `Refinement.MachineRefinesStructured` | src/interpret/interpret.ml:1603-1628 | for all linked module instances, typed or not, every function, arguments and budget of loop turns: entering the function on the pc / block-stack / return-state machine gives exactly the result of the recursive structured semantics, in the same number of turns |
| `Refinement.SeqSimulated` | src/interpret/interpret.ml:1509-1525 | the same inside any open blocks and suspended callers: running a state is evaluating its current sequence and going on from the outcome (normal end, branch outwards, return, stop) |
| `Refinement.InstrSimulated` | src/interpret/interpret.ml:805-925 | each instruction, control or not, does to the machine what its structured meaning says; what operators and operands are is shared by the two and stated by the rows on `Operators` and `Instructions` |
| `Refinement.BlockSimulated` | src/interpret/interpret.ml:695-714 | entering a block and running to where it is left is evaluating the block, below whatever was on the stack |
| `Refinement.LoopSimulated` | src/interpret/interpret.ml:695-714 | the same for a loop, through any number of back edges |
| `Refinement.LeavingSimulated` | src/interpret/interpret.ml:672-692 | ending the innermost block, or branching past it, is what the enclosing sequence sees: values kept, block stack cut, program counter restored |
| `Refinement.CallSimulated` | src/interpret/interpret.ml:716-749 | the callee runs in the environment of its own module instance; an ordinary call comes back to its caller, in the caller's environment, with the results on the caller's stack; a tail call returns for its caller |
| `Structured.SeqMonotone` | src/interpret/interpret.ml:1509-1525 | a result reached within a budget of turns is reached within any larger one, with the surplus left over, so the budget is only a bound on running time |
| `Structured.LoopMonotone` | src/interpret/interpret.ml:695-714 | the same through the iterations of a loop |
| `Operators.SignedDivision` | src/interpret/interpret.ml:155-182 | div_s and rem_s on every pair of operands: one quotient and one remainder with a = q b + r, r smaller than b in magnitude, and r zero or of the sign of a; both trap on a zero divisor, and div_s alone on the least integer and -1, the one pair whose quotient does not fit |
| `Operators.UnsignedDivision` | src/interpret/interpret.ml:155-182 | div_u and rem_u: the same equation of the non-negative readings, with 0 <= r < b; they trap on a zero divisor only |
| `Operators.SumsWrap` | src/interpret/interpret.ml:152-154 | sums, differences and products are the integer of the width congruent to the exact result |
| `Operators.BitwiseIsBitwise` | src/interpret/interpret.ml:183-185 | bit i of and, or and xor from bit i of the operands, for every i |
| `Operators.ShiftsMoveBits` | src/primitives/int32.ml:67-74 | bit i of shl, shr_s and shr_u is the operand's bit as many places below or above as the second operand says modulo the width; zeros come in, or copies of the sign for shr_s |
| `Operators.RotationsMoveBits` | src/primitives/int32.ml:76-82 | bit i of rotl and rotr is the operand's bit that many places below or above, modulo the width |
| `Operators.SameBits` | src/primitives/int32.ml:67-82 | the bits determine the integer, so the bitwise statements leave nothing open |
| `Operators.ComparisonsOrder` | src/primitives/int32.ml:29-50 | the signed comparisons order the integers, the unsigned ones their non-negative readings |
| `Instructions.BinaryOnTop` | src/data_structures/stack.ml:158-170 | of two operands the one on top is the second; the result, or a 32-bit 1 or 0, takes their place, or the operator's trap ends the run |
| `Instructions.EqzOnTop` | src/interpret/interpret.ml:280-289 | the test leaves 1 exactly on zero |
| `Instructions.SelectChooses` | src/interpret/interpret.ml:1018-1031 | of the two values below the condition the lower one is left when it is not zero, else the upper one |
| `Instructions.SetThenGet` | src/interpret/interpret.ml:902-906 | what a local was set or teed to is what it gives afterwards, and no other local changes; set takes the value, tee leaves it |
| `Instructions.TableTakes` | src/interpret/interpret.ml:1485-1493 | br_table does what br does to the label at its index if there is one, else to the last; with more than 2^31 targets it faults on the indices in range whose sign bit is set |
| `Instructions.TableTakesLabel` | src/interpret/interpret.ml:1485-1493 | with at most 2^31 targets it takes target n when 0 <= n < their number and the last label for every other n |
| `Instructions.ConditionTakes` | src/interpret/interpret.ml:907-923 | br_if and if go by whether the condition is zero: the branch or the next instruction, the first branch or the second |
| `Instructions.BranchPasses` | src/interpret/interpret.ml:672-683 | a branch past an open block is the branch one label lower without it, and the outermost label is a return |
| `Instructions.BlockLeaves` | src/interpret/interpret.ml:685-714 | a block left by its end or by its own label leaves its results above what was below its parameters, drops everything else, and goes on behind it |
| `Instructions.LoopLeaves` | src/interpret/interpret.ml:685-714 | a loop begins again on new parameters when its label is branched to, and is left like a block at its end |
| `Instructions.CallEnters` | src/interpret/interpret.ml:716-749 | the callee begins at its body, in its own instance, with no operands; its first locals are the arguments, the last one having been on top, and then zeros of the declared types; an ordinary call leaves its caller what was below the arguments, a tail call the caller's caller; the call faults exactly when the function or its instance does not exist |
| `Instructions.CallReturns` | src/interpret/interpret.ml:664-692 | a return, or the end of the body, puts the results, and nothing else, above what the caller had |
| `Soundness.StepTyped` | src/interpret/interpret.ml:1509-1525 | from any configuration typed as in section 3.3 of the WebAssembly Core Specification, with branch tables that fit, every step gives a typed configuration, the promised results, or a trap; never a host exception (empty stack, wrong operand kind, missing label, index out of range) |
| `TypingExactly.PlainTypedExactly` | src/data_structures/stack.ml:150-218 | of an instruction without control flow the typing rule holds if and only if on all operands and locals of the types the interpreter does not fault and leaves values of the other types: the rules are neither too weak nor too strong |
| `Soundness.TableNeverFails` | src/interpret/interpret.ml:1485-1493 | looking up the target of a br_table succeeds for every index if and only if the number of targets, modulo 2^32, is at most 2^31; which target it is, `TableTakes` says |
| `Soundness.RunTyped` | src/interpret/interpret.ml:1509-1525 | whole runs from a typed configuration never fault, and when they end the stack has the promised types |
| `Soundness.KeepsFindEnough` | src/data_structures/stack.ml:211-218 | in a typed configuration the values taken for a label, a return, a block or a call are all there, with the types expected, although keep silently takes fewer when there are fewer |
| `Soundness.CallsAreSafe` | src/interpret/interpret.ml:1603-1628 | where every function of every linked instance is typed in the instance it belongs to, calling a typed function on arguments of its parameter types never faults and gives its result types, calls across instances included |
| `Soundness.StructuredRunsAreSafe` | src/interpret/interpret.ml:1603-1628 | the structured semantics never faults there either: the refinement carries safety over |
| `Soundness.ReturnTyped` | src/interpret/interpret.ml:664-670 | a return from a stack with the result types on top leaves the suspended caller typed, or gives the final results |
| `Soundness.BranchTyped` | src/interpret/interpret.ml:672-683 | a branch to any label whose types are on the stack, the outermost one included, leaves a typed configuration |
| `Soundness.EndBlockTyped` | src/interpret/interpret.ml:685-692 | so does the end of a block or of a function body |
| `Soundness.ExecBlockTyped` | src/interpret/interpret.ml:695-714 | so does entering a block or a loop |
| `Soundness.CallTyped` | src/interpret/interpret.ml:716-749 | so do calls and tail calls, also of functions of other instances |
| `Soundness.ExecPlainTyped` | src/data_structures/stack.ml:150-170 | a typed instruction without control flow finds its operands, of the right kind, and pushes what its type says |
| `Weasel.BinderLocalIsFree` | src/ast/code_generator.ml:23-46 | the local given to the variable of one binder is none of those of the parameters, the temporary and the results |
| `WeaselMeaning.LocalsInOrder` | src/ast/code_generator.ml:23-46 | the locals of the checking function one after another: parameters, the temporary, results in order, and the variable of a quantifier, with the next one for each quantifier further in |
| `WeaselBinders.SetLocalIsSet` | src/ast/code_generator.ml:407-411 | the local a quantifier's code sets is the variable 0 of the environment that compiling its body returns, not of the one the body began in |
| `WeaselBinders.VariableReadWhereSet` | src/ast/code_generator.ml:398-411 | at any place of a quantifier's body its variable is read from the local it was put in if and only if the quantifiers begun there and those around that place together are as many as the body has |
| `WeaselBinders.RightEverywhere` | src/ast/code_generator.ml:398-411 | so it is read right everywhere in the body if and only if the body has no quantifier |
| `WeaselBinders.NestedCollide` | src/ast/code_generator.ml:398-411 | a quantifier directly inside another puts its variable in the same local as that one |
| `WeaselBinders.NestedVariable` | src/ast/code_generator.ml:398-411 | inside the innermost of quantifiers directly inside one another, the variable of one of them is read from the local it was put in if and only if it is the innermost |
| `WeaselProofs.ArithIsBinop` | src/ast/code_generator.ml:117-180 | the instruction chosen for an operator computes the operator modulo the width, and traps on the same divisions |
| `WeaselMeaning.ArithmeticMeans` | src/ast/code_generator.ml:117-180 | what the operators mean: sums, differences and products modulo the width; a quotient towards zero, or the trap of a zero divisor or of the one quotient that does not fit |
| `WeaselProofs.TermCorrect` | src/ast/code_generator.ml:182-231 | the code of an integer term, on any stack and before any further code, pushes exactly the term's value, or traps when a division in it does |
| `WeaselProofs.NegCorrect` | src/ast/code_generator.ml:85-115 | the case of unary minus, compiled as a subtraction from zero |
| `WeaselProofs.BinPredCorrect` | src/ast/code_generator.ml:233-301 | the code of a comparison of two terms leaves 1 or 0 as the comparison holds, or traps |
| `WeaselProofs.NotCorrect` | src/ast/code_generator.ml:303-306 | negation by exclusive or with 1 flips a truth value |
| `WeaselProofs.PropCorrect` | src/ast/code_generator.ml:371-383 | the code of a constant, comparison or negation leaves the proposition's truth on any stack |
| `WeaselTyped.TermTyped` | src/ast/code_generator.ml:182-231 | the code of a term is valid by section 3.3 of the WebAssembly Core Specification and pushes one value of the type the compiler gives |
| `WeaselTyped.PropTyped` | src/ast/code_generator.ml:233-306 | that of a comparison, a constant or a negation is valid and pushes one truth value |
| `WeaselTyped.ValidExactly` | src/ast/code_generator.ml:303-352 | the code of a proposition without quantifiers is valid if and only if it has no connective: with one, at any depth, it is typed from no operands to no others, because the branches of the conditional leave one value more than they may |
| `WeaselTyped.QuantifierTyped` | src/ast/code_generator.ml:389-531 | so is the block and loop of either quantifier over these, its branches finding the values of their labels |
| `WeaselTyped.ClauseTyped` | src/ast/code_generator.ml:639-706 | in the checking function of any contract, whose locals are the parameters, the temporary, the results and one for each quantifier of all its clauses, the code of every well-scoped quantifier clause over a comparison, a constant or a negation is valid, whatever clauses stand around it |
| `WeaselQuantifier.CompilesAlike` | src/ast/code_generator.ml:389-407 | the quantifiers of earlier clauses, which stay in the type environment, change neither whether a well-scoped quantifier compiles nor its code |
| `WeaselQuantifier.ClauseIsValid` | src/ast/code_generator.ml:688-697 | so what follows covers the quantifiers of every clause of a contract, whatever clauses stand before it |
| `WeaselLoop.Verdict` | src/ast/code_generator.ml:409-531 | of either quantifier, for every pair of bounds and every body: if nothing the loop visits stops it, the code leaves 1, or never ends when the upper bound is the type's maximum; otherwise the first index that stops it decides, by accumulating 0 or by trapping |
| `WeaselLoop.LeavesTrue` | src/ast/code_generator.ml:409-469 | where the next index is past the upper bound and nothing before stopped the loop, the code terminates and leaves 1, touching only the temporary and the binder |
| `WeaselLoop.LeavesFalse` | src/ast/code_generator.ml:447-450 | the exit with 0 at the first index tried whose accumulated truth is 0 |
| `WeaselLoop.TrapsInBody` | src/ast/code_generator.ml:443-450 | a trap of the body at the first index tried that stops the loop is the trap of the whole |
| `WeaselLoop.NeverStopped` | src/ast/code_generator.ml:413-450 | where every index is reached in turn no budget is enough |
| `WeaselLoop.LowerTraps` | src/ast/code_generator.ml:409-412 | a trap in the lower bound is the trap of the whole |
| `WeaselLoop.UpperTraps` | src/ast/code_generator.ml:430-450 | with an upper bound that traps the lower bound still decides if it stops the loop, else the bound's trap is that of the whole |
| `WeaselLoop.OnMachine` | src/ast/code_generator.ml:463-469 | the same on the control machine, inside any blocks and callers |
| `WeaselForall.ForallVerdict` | src/ast/code_generator.ml:409-469 | for every pair of bounds and every body: where the body holds at every index tried the code leaves 1, or never ends when the upper bound is the type's maximum; otherwise the first index tried at which it does not hold decides, 0 if it fails there, its trap if it traps |
| `WeaselForall.ForallRightExactly` | src/ast/code_generator.ml:409-469 | for every pair of bounds and every body that never traps, what the code leaves is right if and only if: on a non-empty range, it ends below the type's maximum or the body fails in it; on an empty one, the body holds at the lower bound, and from the type's minimum up to the upper bound when the lower one is the maximum |
| `WeaselForall.ForallCorrect` | src/ast/code_generator.ml:409-469 | with lower <= upper < the type's maximum and a body that never traps, the generated block and loop terminate and leave 1 if the body holds at every index, else 0, touching only the temporary and the binder |
| `WeaselForall.MaximumDiverges` | src/ast/code_generator.ml:413-450 | the code of forall never ends if and only if the upper bound is the type's maximum and the body holds at every index of the type |
| `WeaselForall.BoundsHandledExactly` | src/ast/code_generator.ml:409-469 | the code of forall decides every body exactly when lower <= upper < the type's maximum |
| `WeaselExists.ExistsVerdict` | src/ast/code_generator.ml:470-531 | for every pair of bounds and every body: the code of exists leaves 0 where the body fails at the lower bound, whatever it does elsewhere; where it holds there it leaves 1, or never ends when the upper bound is the type's maximum, unless the body traps at some index tried, and then it traps with the first of them |
| `WeaselExists.ExistsRightExactly` | src/ast/code_generator.ml:470-531 | for every pair of bounds and every body that never traps, what it leaves is right if and only if: where the body holds at the lower bound, the range is not empty and ends below the type's maximum; where it does not, it holds nowhere in the range |
| `WeaselExists.ExistsBoundsExactly` | src/ast/code_generator.ml:470-531 | the code of exists decides every body exactly when the range is one index, below the type's maximum |
| `WeaselNested.NestCompiles` | src/ast/code_generator.ml:389-469 | the code analysed is what the compiler gives for a forall directly inside a forall of the same type |
| `WeaselNested.NestVerdict` | src/ast/code_generator.ml:398-469 | for all four bounds and every inner body: an inner quantifier that is left with 0, traps or never ends decides alone; one that runs through leaves the shared index past its range, and the outer loop goes on from there, for ever or not at all |
| `WeaselNested.NestEndsExactly` | src/ast/code_generator.ml:398-469 | that code ends if and only if something stops the inner quantifier, or the inner range ends below the type's maximum and the second index past it is past the outer upper bound |
| `WeaselNested.NestRightExactly` | src/ast/code_generator.ml:398-469 | for inner bodies that never trap, when what it leaves is right: where the inner loop runs through, the two quantifiers are true and the code ends; where it does not, they are false |
| `WeaselConnectives.EffectCorrect` | src/ast/code_generator.ml:303-387 | for every proposition without quantifiers and every stack: which operands its code takes, what it leaves, and when it traps or faults; every connective takes an operand from below, and a negation over one flips by such an operand |
| `WeaselConnectives.DecidedAlone` | src/ast/code_generator.ml:308-352 | short-circuit evaluation loses nothing: the first side decides alone exactly when the result does not depend on the other |
| `WeaselConnectives.ConnectiveFaults` | src/ast/code_generator.ml:308-352 | a connective whose first side does not trap faults when no operand is left for it, whatever the second side: the conditional is given a parameter that nothing pushes |
| `WeaselConnectives.FirstSideTraps` | src/ast/code_generator.ml:308-352 | where the first side traps, the code traps the same way |
| `WeaselConnectives.ConnectiveTakesOperand` | src/ast/code_generator.ml:308-352 | connectives nested in any way over comparisons and their negations: with enough operands below, the code traps as is meant, or leaves the truth and loses one operand for each connective reached first; with fewer it faults |
| `WeaselConnectives.AgreesOnlyOnTraps` | src/ast/code_generator.ml:308-352 | without quantifiers the code agrees with its left-to-right, short-circuit meaning on a stack if and only if there is no connective, or a trap is reached and it is the one meant |
| `WeaselConnectives.PositiveRight` | src/ast/code_generator.ml:308-352 | for connectives over comparisons and their negations that is: a trap is meant, and the stack holds the operands needed to come to it |
| `WeaselConnectives.NegationMixes` | src/ast/code_generator.ml:303-306 | the negation of a connective flips its truth by an operand from below instead of by 1 |
| `Synchronizer.Synchronizer.constructor` | src/data_structures/synchronizer.ml:13-21 | a new monitor has no pledge, is open and its store is empty |
| `Synchronizer.Synchronizer.TryGet` | src/data_structures/synchronizer.ml:23-36 | one pass through get: an item and perhaps a pledge, or the end with a broadcast when no pledge is open or the monitor is closed, or a wait; nothing else changes |
| `Synchronizer.Synchronizer.Write` | src/data_structures/synchronizer.ml:38-39 | the item is appended to the store and one waiting thread is signalled; `WriteWakesOne` says what becomes of the threads |
| `Synchronizer.FirstInFirstOut` | src/data_structures/wq.ml:29-33 | after any critical sections the items taken, in order, and then those still in the store are those that were there and then those put, in order |
| `Synchronizer.Synchronizer.MakePledge` | src/data_structures/synchronizer.ml:41-44 | one more pledge |
| `Synchronizer.Synchronizer.EndPledge` | src/data_structures/synchronizer.ml:46-50 | one pledge less, with a broadcast exactly when none is left |
| `Synchronizer.Synchronizer.Fail` | src/data_structures/synchronizer.ml:52-56 | closed, with a broadcast |
| `WorkSharing.PerformKeepsInv` | src/data_structures/synchronizer.ml:23-64 | every interleaved step of any number of threads, spurious wake-ups and stolen items included, keeps the accounting of pledges, items and waiters |
| `WorkSharing.RunInv` | src/data_structures/synchronizer.ml:23-64 | so it holds in every reachable state |
| `WorkSharing.OthersWoken` | src/data_structures/synchronizer.ml:23-56 | by one step the threads other than the one acting change only in waking up: all that wait, at a get that returns nothing, at the end of the last pledge and at a failure; the one chosen, at a write; none otherwise |
| `WorkSharing.WriteWakesOne` | src/data_structures/wq.ml:29-31 | a write in a state with a waiter wakes exactly one waiting thread and touches no other, whichever it is |
| `WorkSharing.BroadcastWakesAll` | src/data_structures/synchronizer.ml:25-56 | after a failure, a get that returned nothing or the end of the last pledge nobody waits |
| `WorkSharing.GetDoes` | src/data_structures/synchronizer.ml:23-36 | a get takes the item at the position chosen and opens a pledge if asked to; on an empty store it returns nothing when no pledge is open or somebody failed, and waits otherwise |
| `WorkSharing.RunCovered` | src/data_structures/synchronizer.ml:25-39 | in every state of every run, while somebody waits there are no more items in the store than threads notified and about to try again |
| `WorkSharing.NoLostWakeUp` | src/data_structures/synchronizer.ml:25-39 | so no wake-up is lost: with a waiter and an item in the store some thread can take it now |
| `WorkSharing.EndIsFinal` | src/data_structures/synchronizer.ml:25-28 | termination detection: once a get has returned nothing, and as long as nobody fails, the store stays empty and no pledge is open, for ever |
| `WorkSharing.AllWorkDone` | src/data_structures/synchronizer.ml:58-64 | exactly once: when all threads have left and nobody failed, the multisets of items written, handed out and finished are equal |
| `WorkSharing.NothingInvented` | src/data_structures/synchronizer.ml:23-39 | at every moment what was finished was handed out, and what was handed out was written, with multiplicity |
| `WorkSharing.NoStuckState` | src/data_structures/synchronizer.ml:29-31 | a waiter not yet notified means that a pledge is open, the monitor is not closed, and the thread holding the pledge can step |
| `WorkSharing.AwakeCanStep` | src/data_structures/synchronizer.ml:23-50 | every thread that is running or has been woken can step |
| `WorkSharing.FailureWakesAll` | src/data_structures/synchronizer.ml:52-56 | after a failure nobody is left waiting, now or later |
| `Leb128.ReadUOfBytes` | src/parser/binary_parser.ml:76-97 | read_UN n over what write_u64 wrote gives every value below 2^n back and leaves any suffix, n up to 64 |
| `Leb128.ReadSOfBytes` | src/parser/binary_parser.ml:104-130 | read_SN n over what write_s64 wrote gives every signed n-bit value back and leaves any suffix |
| `Leb128.UBytesShortest` | src/ast/binary_encoder.ml:29-35 | the unsigned writer emits the shortest string the reader accepts for the value |
| `Leb128.SBytesShortest` | src/ast/binary_encoder.ml:49-55 | the signed writer emits the shortest string the reader accepts for the value |
| `Leb128.UBytesLength` | src/ast/binary_encoder.ml:29-35 | at most ceil(n/7) bytes for a value below 2^n |
| `Leb128.SBytesLength` | src/ast/binary_encoder.ml:49-55 | at most ceil(n/7) bytes for a signed n-bit value |
| `Leb128.ReadUBound` | src/parser/binary_parser.ml:76-97 | whatever read_UN n accepts is below 2^n |
| `Leb128.ReadSBound` | src/parser/binary_parser.ml:104-130 | whatever read_SN n accepts is a signed n-bit value |
| `Leb128.SignedReadOfUnsigned` | src/parser/binary_parser.ml:104-130 | reading unsigned bytes as signed gives the value back exactly when bit 6 of its top group is clear, and a negative number otherwise |
| `Leb128Form.ReadUExactly` | src/parser/binary_parser.ml:75-102 | read_UN n accepts exactly the encodings section 5.2.2 of the WebAssembly Core Specification allows for n bits, shortest or not, gives the sum of their seven-bit groups, and leaves the bytes behind them; everything else is an error |
| `Leb128Form.ReadSExactly` | src/parser/binary_parser.ml:103-130 | the same for read_SN n, with bit 6 of the last group as the sign |
| `Leb128Form.UBytesForm` | src/ast/binary_encoder.ml:29-35 | what write_u64 produces is such an encoding of the number written |
| `Leb128Form.SBytesForm` | src/ast/binary_encoder.ml:49-55 | what write_s64 produces is such an encoding of the number written |
| `BinaryEncoder.Buffer.WriteU64` | src/ast/binary_encoder.ml:29-35 | the writer's loop terminates and appends the unsigned encoding of the word |
| `BinaryEncoder.Buffer.WriteS64` | src/ast/binary_encoder.ml:49-55 | the writer's loop terminates and appends the signed encoding |
| `BinaryEncoder.Buffer.WriteBlockType` | src/ast/binary_encoder.ml:116-124 | appends the block type's bytes and nothing else |
| `BinaryEncoder.Buffer.WriteInstr` | src/ast/binary_encoder.ml:186-511 | appends the instruction's bytes, nested bodies included, and nothing else |
| `BinaryEncoder.Buffer.WriteExpr` | src/ast/binary_encoder.ml:513-516 | appends the instructions' bytes and the terminator |
| `BinaryEncoder.Buffer.WriteLocals` | src/ast/binary_encoder.ml:536-554 | appends the run-length coded locals |
| `BinaryEncoder.Buffer.WriteCode` | src/ast/binary_encoder.ml:711-717 | appends one code entry: its length, its locals, its body |
| `BinaryAst.NumericTable` | src/parser/binary_parser.ml:547-674 | the opcode table of numeric instructions is read back entry by entry; which opcode is whose, `NumericWritten` says |
| `BinaryFormat.NumericWritten` | src/ast/binary_encoder.ml:320-447 | the opcode of each of the 128 numeric instructions is the one section 5.4 of the WebAssembly Core Specification lists, one literal each |
| `BinaryFormat.FirstByteWritten` | src/ast/binary_encoder.ml:186-511 | every instruction written begins with the opcode or prefix that section lists for it |
| `BinaryFormat.FlatWritten` | src/ast/binary_encoder.ml:186-511 | and one that nests none is that byte and its immediates in the order of the format, numbers in LEB128 or, in float constants, byte by byte |
| `BinaryFormat.NestedWritten` | src/ast/binary_encoder.ml:191-208 | blocks, loops and conditionals are their opcode, block type and expressions, with 0x05 between the branches if the second is not empty and 0x0B at the end |
| `BinaryFormat.FlatRead` | src/parser/binary_parser.ml:372-684 | the parser reads these bytes, followed by anything, as that instruction and leaves what follows |
| `BinaryFormat.NumericRead` | src/parser/binary_parser.ml:547-674 | so it does the opcode of each numeric instruction |
| `BinaryFormat.CallsRead` | src/parser/binary_parser.ml:420-433 | 0x12 to 0x15, which are never written, are read as the tail calls and calls by reference; a type index out of range raises |
| `BinaryFormat.TypedSelectRead` | src/parser/binary_parser.ml:436-438 | a select with types is read with the number of types before them |
| `BinaryFormat.TypesRead` | src/parser/binary_parser.ml:220-254 | a value type is read from exactly one byte, one of the seven of the format, and a reference type from one of two; on every other input it is an error |
| `BinaryFormat.MemoryRead` | src/parser/binary_parser.ml:460-528 | a load or store is read with alignment and then offset, and refused exactly from the parser's bound for its opcode up, 32 or 64 |
| `BinaryFormat.OthersRefused` | src/parser/binary_parser.ml:399-684 | no byte but those opcodes and the prefixes begins an instruction, whatever follows |
| `CodecProofs.TargetsRoundTrip` | src/ast/binary_encoder.ml:92-103 | a vector of indices is read back by vector |
| `CodecProofs.BlockTypeRoundTrip` | src/parser/binary_parser.ml:358-370 | a block type is read back, a type index resolved, if and only if it is empty, one result, or an index whose top group has bit 6 clear or whose single byte reads as its own definition |
| `CodecProofs.TypeIndexRead` | src/parser/binary_parser.ml:358-370 | what read_block_type makes of the bytes of any type index: its definition, an exception when there is none, the empty type, a value type, or an error |
| `CodecProofs.TypeIndexExactly` | src/parser/binary_parser.ml:358-370 | a type index in a block type is read back as its definition if and only if bit 6 of its top group is clear, or it is one byte and the definition is the empty or value type of that byte |
| `CodecProofs.InstrRoundTrip` | src/parser/binary_parser.ml:372-684 | read_instr over what write_instr wrote, followed by anything, gives the instruction back and leaves what follows |
| `CodecProofs.SeqRoundTrip` | src/parser/binary_parser.ml:686-697 | the same for sequences, up to an else, an end or the end of the input |
| `CodecProofs.ExprRoundTrip` | src/parser/binary_parser.ml:686-697 | read_expr over what write_expr wrote, followed by anything, gives the nested expression back, labels dropped and type indices resolved, and leaves the terminator unread |
| `CodecExactly.ExprExactly` | src/parser/binary_parser.ml:686-697 | read_expr over what write_expr wrote, followed by anything, gives the whole expression back if and only if every instruction in it, at any depth, comes back by itself |
| `CodecExactly.SelectSwallows` | src/parser/binary_parser.ml:435-438 | a select with types that is read as itself all the same swallows at least one of the instructions behind it, whole ones of one byte |
| `CodecProofs.BulkRoundTrip` | src/ast/binary_encoder.ml:178-180 | the instructions behind the 0xFC prefix are read back |
| `CodecProofs.TypedSelectNotBack` | src/ast/binary_encoder.ml:223-225 | select with types, written without their number, never comes back with what follows left unread |
| `CodecProofs.FlatNotBack` | src/parser/binary_parser.ml:372-684 | of the other instructions without nested bodies the ones that do not come back are an indirect call of an unknown type, which raises, an alignment from the bound up, which is an error, and a table of 2^32 targets or more |
| `CodeProofs.RunsExpand` | src/ast/binary_encoder.ml:536-548 | the runs of equal neighbours expand to the locals they were made from |
| `CodeProofs.LocalsRoundTrip` | src/parser/binary_parser.ml:905-917 | read_locals over what write_locals wrote gives the locals back and leaves what follows |
| `BinaryFormat.LocalsWritten` | src/ast/binary_encoder.ml:536-554 | locals are written as the shortest list of runs that stands for them: their number, then the length and type of each |
| `BinaryFormat.LocalsRead` | src/parser/binary_parser.ml:905-917 | any list of runs is read as the locals it stands for, and refused exactly when these are 2^32 or more, modulo 2^64 |
| `BinaryFormat.CodeWritten` | src/ast/binary_encoder.ml:711-717 | a code entry is its size, its locals, its instructions and 0x0B |
| `BinaryFormat.CodeAccepted` | src/parser/binary_parser.ml:919-937 | and is accepted exactly when the bytes of its size are there and are locals, an expression and one 0x0B with nothing behind it; what follows the entry is left |
| `CodeProofs.CodeRoundTrip` | src/parser/binary_parser.ml:919-937 | read_code over one code entry gives its locals and body back and leaves what follows |
| `Elements.ExchBytes` | src/lang_c/libc/src/stdlib.c:349-359 | the byte loop exchanges two places that are equal or apart, and touches nothing else |
| `Elements.Exch` | src/lang_c/libc/src/stdlib.c:349-359 | two elements change places; every other element, and the memory around them, stays |
| `QSort.ScanUp` | src/lang_c/libc/src/stdlib.c:380-381 | stops at the first element not below the pivot, or at the pivot itself, never beyond |
| `QSort.ScanDown` | src/lang_c/libc/src/stdlib.c:382-384 | stops at the last element not above the pivot, or at the lower end, never below it |
| `QSort.Partition` | src/lang_c/libc/src/stdlib.c:379-392 | the main loop ends with everything up to i below the pivot or gathered as equal to it, and nothing from i up to q below it, by permuting the range only |
| `QSort.GatherLeft` | src/lang_c/libc/src/stdlib.c:394-397 | the equal elements are swapped next to the pivot's place, also when the two zones overlap and some are swapped twice |
| `QSort.GatheringStep` | src/lang_c/libc/src/stdlib.c:396-397 | one such swap keeps what the loop needs; with overlapping zones both elements swapped are equal to the pivot |
| `QSort.GatherRight` | src/lang_c/libc/src/stdlib.c:398-399 | the mirror image on the right |
| `QSort.BothSorted` | src/lang_c/libc/src/stdlib.c:400-401 | sorted parts on the two sides of the pivot's equals make a sorted range, for any total preorder |
| `QSort.Quicksort` | src/lang_c/libc/src/stdlib.c:365-402 | for any comparison that is a total preorder the range l..r ends sorted and permuted, nothing outside it changes, and the recursion ends |
| `QSort.Qsort` | src/lang_c/libc/src/stdlib.c:404-418 | the whole array ends sorted and permuted, except that a count or element size from 2^31 - 1 up leaves the memory as it was |
| `Strtol.CDigitIsDigit` | src/lang_c/libc/src/stdlib.c:254-260 | the branchless digit expression in an unsigned char gives the digit's value when it is a digit of the base, and something not below the base otherwise |
| `Strtol.SplitWord` | src/lang_c/libc/src/stdlib.c:261-267 | accumulating by way of the low byte and the rest is exact, and the rest outgrows its word exactly when the value outgrows the type |
| `Strtol.SignedStepAgrees` | src/lang_c/libc/src/stdlib.c:326-332 | the signed 64-bit accumulator takes on every word, also one whose top bit is set, the same step as an unsigned one |
| `Strtol.SignedStepFits` | src/lang_c/libc/src/stdlib.c:326-332 | its signed products and sums never overflow |
| `Strtol.Front` | src/lang_c/libc/src/stdlib.c:225-252 | spaces, sign, base and hexadecimal prefix are taken as the grammar of section 7.22.1.4 of ISO C11 says; a base other than 0 and 2 to 36 is refused |
| `Numerals.NumeralRead` | src/lang_c/libc/src/stdlib.c:219-252 | in characters: spaces, an optional minus or plus, "0x" or "0X" and a hexadecimal digit in bases 0 and 16, and digits '0' to '9' and letters of either case below the base, of any number, parse as the number they write in that base; in base 0 a "0" in front means 8 |
| `Numerals.UnsignedNumbers` | src/lang_c/libc/src/stdlib.c:270-282 | the limits and error numbers behind it in literals: 2^32 and 2^64, EINVAL 22, ERANGE 34 |
| `Numerals.SignedNumbers` | src/lang_c/libc/src/stdlib.c:181-191 | the same for the signed functions |
| `Strtol.Strtoul` | src/lang_c/libc/src/stdlib.c:219-282 | the numeral's exact value, negated modulo 2^32 after a minus; 2^32 - 1 and ERANGE exactly when the magnitude does not fit; 0, EINVAL and the start when there is no numeral; the end pointer at the first character that is no digit |
| `Strtol.Strtoull` | src/lang_c/libc/src/stdlib.c:284-347 | the same with 64 bits, although the accumulator is signed |
| `Strtol.ParsedFromStart` | src/lang_c/libc/src/stdlib.c:167-180 | dealing with spaces and a minus before the unsigned function is called parses the same numeral without its sign |
| `Strtol.Strtol` | src/lang_c/libc/src/stdlib.c:167-191 | the numeral's signed value clamped to 32 bits, ERANGE exactly when it was clamped, errno cleared when it is exactly the minimum, the end pointer or the original start; a bad base leaves the end pointer except where it already stood at the digits |
| `Strtol.Strtoll` | src/lang_c/libc/src/stdlib.c:193-214 | the same with 64 bits |
| `UnionFind.UnionInv` | src/data_structures/union_find.ml:144-176 | a union keeps the invariant: labels are canonical elements and never aliases, node and labels agree, the cardinal counts the aliases |
| `UnionFind.AddInv` | src/data_structures/union_find.ml:109-125 | so does add, which moves no key |
| `UnionFind.RunInv` | src/data_structures/union_find.ml:102-176 | so it holds after any operations |
| `UnionFind.UnionFinds` | src/data_structures/union_find.ml:139-176 | a union moves exactly the keys of the losing class to the winner |
| `UnionFind.CanonicalIffConnected` | src/data_structures/union_find.ml:104-107 | after any operations two keys have the same canonical element if and only if a path of unions connects them: the least equivalence containing the unions |
| `UnionFind.DatumIsTotal` | src/data_structures/union_find.ml:134-137 | for an associative and commutative merge find_opt gives the merge of all data added to keys of the class |
| `UnionFind.SizeCounts` | src/data_structures/union_find.ml:167-171 | the cardinal of the canonical node, plus one, is the number of keys in the class |
| `UnionFind.SizeDoubles` | src/data_structures/union_find.ml:151-160 | a key whose canonical element has changed k times is in a class of at least 2^k keys |
| `UnionFind.RelabelledAtMostLog` | src/data_structures/union_find.ml:139-176 | a key is relabelled at most log2 of the number of keys that occur in unions |
| `SkewHeap.MergeOrdered` | src/data_structures/priority_queue.ml:9-14 | merging keeps heap order |
| `SkewHeap.MergeEntries` | src/data_structures/priority_queue.ml:9-14 | merging keeps the multiset of entries |
| `SkewHeap.PopTakesMinimum` | src/data_structures/priority_queue.ml:16-17 | pop takes out one entry, of minimum priority, and leaves the others in order; it gives nothing exactly on the empty queue |
| `SkewHeap.PushAddsOne` | src/data_structures/priority_queue.ml:19-19 | push adds one entry of priority 1 and keeps the order |
| `SkewHeap.CallsAreAmortised` | src/data_structures/priority_queue.ml:9-14 | the calls of a merge plus the change in the number of left-heavy nodes are at most 1 plus twice the nodes on the two left spines that are not left-heavy |
| `SkewHeap.MergeIsLogarithmic` | src/data_structures/priority_queue.ml:9-14 | hence at most 1 + 2(floor log2(n1+1) + floor log2(n2+1)) |
| `SkewHeap.RunIsLogarithmic` | src/data_structures/priority_queue.ml:9-19 | a run of n pushes and pops from the empty queue makes at most n(1 + 4 log2(n+1)) calls |
| `SkewHeap.RunOrdered` | src/data_structures/priority_queue.ml:9-19 | every queue reached by a run is in order |
| `ArrayHeap.Heap.MoveUp` | src/data_structures/pq_imperative.ml:7-16 | an entry moving up into a hole ends with the array in order and the entries permuted; the recursion ends |
| `ArrayHeap.Heap.Push` | src/data_structures/pq_imperative.ml:18-21 | one entry more, still in order |
| `ArrayHeap.Heap.MoveDown` | src/data_structures/pq_imperative.ml:37-43 | an entry moving down into a hole ends with the array in order and the entries permuted; the recursion ends |
| `ArrayHeap.Heap.Pop` | src/data_structures/pq_imperative.ml:45-54 | takes out an entry of minimum priority, leaves the others in order, and gives nothing exactly when empty |
| `ArrayHeap.StepUp` | src/data_structures/pq_imperative.ml:11-15 | one step up keeps the array in order but for the entry held aside and its parent |
| `ArrayHeap.StepDown` | src/data_structures/pq_imperative.ml:28-42 | one step down keeps it in order but for the entry held aside and its children |
| `ArrayHeap.RootIsMinimum` | src/data_structures/pq_imperative.ml:49-50 | in an ordered array the first entry is a minimum |
| `ArrayHeap.RunContents` | src/data_structures/pq_imperative.ml:18-54 | at every moment of a run of pushes and pops on a new heap, what went in is what is in it and what came out, as multisets, and it is in order |
| `ArrayHeap.RunTakesMinimum` | src/data_structures/pq_imperative.ml:45-54 | what comes out is a minimum of all that went in and did not come out before |
| `ArrayHeap.RunGivesNothing` | src/data_structures/pq_imperative.ml:45-54 | a pop gives nothing exactly when all that went in has come out |
| `ArrayHeap.DrainsAscending` | src/data_structures/pq_imperative.ml:45-54 | while nothing goes in, entries come out in ascending order of priority |
| `Graph.VisitLists` | src/data_structures/graph.ml:22-32 | one call lists anew exactly the edges of the nodes it enters, each as often as its source lists it |
| `Graph.EnteredIffReachable` | src/data_structures/graph.ml:42-50 | the nodes entered from all entry points are exactly the reachable ones, on cyclic graphs too |
| `Graph.EdgesListed` | src/data_structures/graph.ml:42-50 | an in-range edge is listed as often as a reachable source lists its target, and never from an unreachable one |
| `Graph.EachReachableEdgeOnce` | src/data_structures/graph.ml:22-50 | when child lists have no duplicates every reachable in-range edge is listed exactly once and nothing else is |
| `ExplorationTree.AddTraceFits` | src/cmd/cmd_conc.ml:165-227 | adding a trace fails an assertion exactly when the trace does not fit, a predicate on the tree and the decisions alone: the same question at every node down to an undecided one or a new branch |
| `ExplorationTree.TracesFit` | src/cmd/cmd_conc.ml:165-227 | any traces can be added one after the other exactly when none stops explicitly and every two of them come to the same question after the same answers, and where one of them ends it fails, or the other ends there too and fails |
| `ExplorationTree.AddTraceCounts` | src/cmd/cmd_conc.ml:165-227 | adding a trace that fits keeps every node's counter equal to the number of unexplored leaves below it |
| `ExplorationTree.AddTracePlaces` | src/cmd/cmd_conc.ml:135-223 | and every node's path equal to the reversed path from the root, and the branches of one node for different integers |
| `ExplorationTree.AddTraceRecords` | src/cmd/cmd_conc.ml:165-180 | the node the trace ends in exists afterwards, has the end recorded, and is explored or unreachable as the end says |
| `ExplorationTrails.AddTracePasses` | src/cmd/cmd_conc.ml:165-223 | at every node along the trace: the end is recorded at the last one and nowhere else; one that fails leaves that node's form alone; of the assertions passed only the last step's, when it is the one that failed, becomes refuted, by the trace's assignments, and the others keep their status |
| `ExplorationTree.AddTraceKeepsOthers` | src/cmd/cmd_conc.ml:182-223 | nodes off the path of the trace are left as they were |
| `ExplorationTree.FindsIffUnexplored` | src/cmd/cmd_conc.ml:260-303 | with counters right, and whatever the random choices, a node to run is found if and only if the root count is not zero or an undecided assertion stands at the root behind nothing but assumptions and decided assertions |
| `ExplorationTree.FoundIsRunnable` | src/cmd/cmd_conc.ml:260-303 | the path found leads to an unexplored leaf, or is the failing side of an undecided assertion |
| `ExplorationTrails.RootTrail` | src/cmd/cmd_conc.ml:260-303 | and the nodes that come back with it, whose counters are to be refreshed, are those on the way from it back to the root, one for each step |
| `ExplorationTree.EveryTreeIsSound` | src/cmd/cmd_conc.ml:225-303 | all of this after any traces that fit, from the fresh tree on |
| `ConcolicTree.Tree.constructor` | src/cmd/cmd_conc.ml:135-136 | a fresh unexplored leaf |
| `ConcolicTree.Tree.CountUnexplored` | src/cmd/cmd_conc.ml:117-127 | the sum of the children's cached counters |
| `ConcolicTree.Tree.UpdateNode` | src/cmd/cmd_conc.ml:129-133 | the node is replaced in place and its counter refreshed |
| `ConcolicTree.Tree.EndTrace` | src/cmd/cmd_conc.ml:160-180 | the end is recorded in place; an end that explores fails where the node is neither unexplored nor being explored |
| `ConcolicTree.Tree.TryInitialize` | src/cmd/cmd_conc.ml:152-156 | an unexplored node takes in place the form of the decision made there |
| `ConcolicTree.Tree.Prepare` | src/cmd/cmd_conc.ml:184-220 | what is assigned at a node before descending: a missing branch, the status of a failed assertion; nothing where the trace does not fit |
| `ConcolicTree.Tree.AddTrace` | src/cmd/cmd_conc.ml:165-227 | the objects assigned in place stand afterwards for exactly the tree the function on values gives, and the call fails exactly when that does |
| `Rounding.RoundIsNearest` | src/primitives/convert.ml:204-230 | rounding as modelled is to the nearest: no number representable in p bits is nearer, and of two equally near ones the even significand is chosen |
| `Rounding.RoundIsRepresentable` | src/primitives/convert.ml:204-230 | and gives a representable number |
| `Rounding.RoundIsRounded` | src/primitives/convert.ml:204-230 | every integer, below zero as above, is rounded to nearest with ties to even, and its negation to the negation |
| `Rounding.RoundIsTheOne` | src/primitives/convert.ml:204-230 | there is one way only to round an integer like that, and it is the one modelled |
| `Rounding.StickyRounds` | src/primitives/convert.ml:223-230 | folding the lost bits into the last one kept does not change what rounding gives |
| `Rounding.F32OfU32RoundsOnce` | src/primitives/convert.ml:204-208 | convert_i32_u to f32 is the integer rounded once |
| `Rounding.F32OfI64RoundsOnce` | src/primitives/convert.ml:216-222 | convert_i64_s to f32 is the integer rounded once, the least integer included; `ConversionsRound` says what rounding is |
| `Rounding.F32OfU64RoundsOnce` | src/primitives/convert.ml:224-230 | convert_i64_u to f32 is the integer rounded once |
| `Rounding.F64OfU64RoundsOnce` | src/primitives/convert.ml:271-275 | convert_i64_u to f64 is the integer rounded once |
| `Rounding.ConversionsRound` | src/primitives/convert.ml:204-230 | each conversion gives the integer that 24 or 53 bits and a sign hold nearest to its operand, with an even significand if two are as near, and no other: stated without the rounding function |

## Left out

- Floating-point, memory, table, reference and SIMD instructions, `call_indirect`, `call_ref` and calls of
  external functions: they add cases to one step of the machine, not to its control.
- Globals are read-only in the machine: the code compiled from specifications only reads them.
- Stack overflow of the host, which the interpreter turns into a trap, and the heartbeat of the loop.
- Symbolic values: branching on a symbolic condition, the solver and models. The machine is that of concrete
  runs.
- Labels and parameter names, which the binary format drops; export order; sections other than code; element
  segments.
- BinaryEncoder.Buffer.WriteInstr: requires that there is no tail call and no call by reference, and a type
  index in indirect calls and in block types with parameters or several results: on the others the program
  fails an assertion.
- CodecProofs.InstrRoundTrip: requires of every instruction inside what ExprExactly shows to be needed.
- CodeProofs.CodeRoundTrip: is stated for entries of fewer than 2^32 locals and bytes, as the format demands.
- WeaselForall.ForallRightExactly: does not model connectives in the body; the body is a constant, a
  comparison or a negation. Quantifiers inside the body are modelled for one forall directly inside another.
- WeaselExists.ExistsRightExactly: takes a bounded exists to say that the body holds at some index of the
  range, although it is written with the implication a bounded forall is written with; the same bodies.
- WeaselNested.NestVerdict: does not model bounds that refer to a quantifier's variable, an inner body that
  refers to the outer one's, or two quantifiers of different types.
- WeaselConnectives.AgreesOnlyOnTraps: does not model sides that hold quantifiers.
- Soundness.StepTyped: typing refuses, beyond the specification, a branch table that TableNeverFails shows the
  interpreter can raise an exception on.
- Memory and floating-point terms of specifications; wrapping a function in its contract's checks and the
  re-indexing that goes with it.
- WorkSharing.AllWorkDone: assumes the discipline that only a thread with an open pledge writes or makes
  another; the monitor itself does not enforce it. Threads that fail keep their pledges open.
- WorkSharing.FailureWakesAll: does not say that a get after a failure returns nothing, because the store is
  tried first.
- Mutual exclusion itself: critical sections are atomic steps.
- QSort.Quicksort: the comparison is a function of the two elements' bytes; one that writes memory, or whose
  answers are no preorder, is not modelled.
- Strtol.Strtoull: negating the least signed word, which C leaves undefined, is taken to wrap as it does on
  WebAssembly.
- `strtod`, `malloc` and the string functions of the C library.
- UnionFind.CanonicalIffConnected: keys are compared by equality; an order on keys that disagrees with it is
  not modelled.
- Graph.EachReachableEdgeOnce: assumes that nodes stand at their own index, as they do once `init` has sorted
  indices 0 to n - 1; negative indices, on which the program raises an exception, are not modelled. Entry
  points and edges are not printed.
- ConcolicTree.Tree.AddTrace: refreshes the counters as the calls return, from the deepest node up, where the
  program collects the nodes in a list and refreshes them in that same order at the end; so after a failed
  assertion nothing is promised of the tree.
- Branches of an integer decision are a sequence with distinct keys, not a search tree: only lookup and the
  sum of counters depend on them.
- `find_model_to_run`, which asks a solver and marks nodes as being explored.
- Rounding: exponent range and the encoding of floats; all results are far below the largest finite float.
