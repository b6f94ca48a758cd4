# Stacky: a verified model of the compiler's core

Stacky is a small optimizing compiler for a stack language. Everything between its lexer and its assembler
works on one flat representation: a sequence of operations whose control words carry absolute jump targets.
This project models that operation machine once (`words.dfy`, `operations.dfy`, `machine.dfy`; its bitwise words and
its memory by their laws in `bits.dfy` and `memory.dfy`) and proves every stage against it.

| stage | files | main results |
|---|---|---|
| reading | `literals.dfy`, `notation.dfy`, `registration.dfy`, `parsing.dfy`, `forward_translation.dfy`, `recovered_source.dfy` | a token is read as a number exactly when it writes one; ids no two words share; reading tokens backwards is the direct translation of the nested source, and what is read is such a source |
| meaning | `source_meaning.dfy`, `front_end.dfy` | what source means, read off its tokens; the linked code of its bodies means the same |
| linking | `structured.dfy`, `crossreference.dfy`, `compilation.dfy` | `crossreference` accepts exactly the well-nested bodies, and their jump code means what the blocks mean |
| checking | `types.dfy`, `typecheck.dfy`, `type_rules.dfy`, `typesafety.dfy` | the rule of every operation, exactly; the worklist terminates and accepts exactly the well-typed bodies; accepted programs never underflow, at any length or recursion depth |
| folding | `simulation.dfy`, `fold_arithmetic.dfy`, `folding.dfy`, `fold_completeness.dfy`, `fold_correctness.dfy`, `fold_schedules.dfy` | a body is left alone exactly when there is nothing to fold; folds keep their landing invariant and every observation, wherever signed and unsigned arithmetic agree |
| constant conditions | `conditions.dfy`, `cuts.dfy`, `branches.dfy`, `loops.dfy`, `contexts.dfy`, `constant_conditions.dfy`, `undecided.dfy`, `condition_passes.dfy`, `counterexamples.dfy` | for each rewrite, anywhere in linked code, exactly when its jumps are right, and that it is unobservable then; whole passes of right rewrites; exactly when folding makes a condition constant |
| removal | `unused.dfy` | what stays, exactly when no word and no string dangles, and that runs do not change |
| optimizing | `optimizer.dfy`, `optimizer_runs.dfy`, `checked_runs.dfy` | the driver reaches a fixpoint; whole runs of removals, folds and right condition rewrites are unobservable; conditions on the program that make every run one of these |
| generating | `assembly.dfy`, `codegen.dfy`, `listing.dfy`, `processor.dfy`, `codegen_correctness.dfy` | the emitted lines simulate the machine; every return resumes behind its own call, up to 1024 calls deep |
| end to end | `pipeline.dfy`, `end_to_end.dfy` | from any tokens that register and read to a running process: it exits, or faults, exactly as the source means |
| library | `decimal.dfy`, `calendar.dfy`, `utf8.dfy`, `library_words.dfy`, `library_programs.dfy`, `library_date.dfy`, `library_optimized.dfy` | decimal output and input, calendar dates, UTF-8; the words themselves, run as blocks and put through the optimizer |

A state of the machine is a data stack of 64-bit words, the function and index being executed, the return
points of the active calls, and a world (memory and a log). Runs are functions of a step count, so diverging
programs are covered: two programs are equivalent when every observation of one, at any step, is an observation
of the other. System calls, random numbers, addresses and the process arguments are parameters (`Env`,
`Layout`); nothing is assumed about them beyond what a theorem's `requires` says.

Words wrap at 64 bits. Jump targets are natural numbers; the 32-bit wrap-around of a target that a pass moves
below zero is written out, including the value the source reserves for "no jump".

## Code that does not do what it is for

Some code is modelled as it is and shown to miss its purpose, with the condition under which it does not:

- The folder computes on signed values, the generated code on unsigned ones. `FoldArithmetic.FoldExact` gives
  the exact condition on the operands; `FoldArithmetic.FoldedDivisionDiffers` is an instance that fails.
- The infinite-loop rewrite is right exactly when the rest of the condition has no control word and every block
  around the loop is itself a loop's condition: `ConstantConditions.InfiniteLoopExact`. Inside a branch it cuts the
  `end` around it: `OptimizerCounterexamples.NestedLoopRewriteDiffers`.
- That rewrite removes a `while`, which can put the back edge inside a foldable run: exactly when literals before the
  `while` take in the operation that follows them then, `ConstantConditions.UnloopedFoldable`. Folding then leaves an
  `end` without a jump: `OptimizerCounterexamples.FoldAfterLoopRewriteDiffers`.
- A loop on zero is rewritten rightly exactly when its condition has no inner loop and nothing outside jumps to the
  loop or to one of the three operations behind it: `ConstantConditions.DeadLoopExact`. Otherwise a program that
  exits may never end: `OptimizerCounterexamples.DeadLoopRewriteDiffers`.
- A constant `if` is rewritten with fixed amounts that fit few cases: true with an `else` that is not empty and
  nothing jumping behind the `end`; true without `else` and an empty branch likewise; false with branches of just
  the right length: `ConstantConditions.TrueIfElseExact`, `FalseIfElseExact`, `TrueIfThenExact`, `FalseIfThenExact`.
  Runs that differ: `OptimizerCounterexamples.ConstantIfRewriteDiffers`, `EmptyIfRewriteDiffers`,
  `EmptyElseRewriteDiffers`.
- Unused-word removal looks words up by id, and every intrinsic shares id 0 with the first definition:
  `UnusedWords.FirstDefinitionDangles` for words, `FirstDefinitionLosesString` for strings. Nothing dangles exactly when
  the functions so hidden refer to no word and mention no string the walk has missed: `UnusedWords.NothingDangles`.
- The 1025th active call stores its return address over the call pointer; its callee runs, but neither returns nor
  calls on: `CodegenCorrectness.DeepCallCorrupts`, `DeepStepStrays`.
- A function defined twice gets the first body followed by the second one back to front:
  `ForwardTranslation.RedefinitionMixes`.
- `encode_rune` spends one byte too many on 0x7F, 0x7FF and 0xFFFF, and encodes surrogates: `Utf8.StandardExcept`.
- `date` adds to the month what it should add to the year: month and year are right exactly from March to December,
  `LibraryDate.DateRuns`; the first of January 1970 comes out as the first of February 1969,
  `LibraryDate.EpochMisdated`.
- Literals too large for 64 bits are not rejected in base 6, 8 and 10: up to the digits of the power table they wrap,
  `Notation.LexInteger` with the exact bound, `Notation.TooLargeWraps` for an instance.
- `and` and `or` look for a common bit and for any bit, which is what they say only on truth values:
  `BitLaws.BooleanWords`.
- The 19 bytes declared for printing hold every number below 10^19 and no larger one: `Decimal.BufferSuffices`.

## Model

| member | source | states |
|---|---|---|
| `Crossreferencing.StepAgrees` | src/parser.cc:222-289 | one iteration of the jump-resolving loop does to the operations what one token does to a stack-of-blocks parser, failures included |
| `Crossreferencing.AcceptedExactlyBlocks` | src/parser.cc:222-289 | the word sequences accepted are exactly those of nested blocks, and the block is unique |
| `Crossreferencing.Crossreference` | src/parser.cc:222-289 | in place: no flaw if and only if the words spell a block, and then every operation has the jump that block's code needs |
| `Compilation.CompilationCorrect` | src/parser.cc:222-289 | for every call graph, environment and stack, the jump code halts in a given way exactly when the index-free big-step meaning of the blocks ends that way; divergence included |
| `Parsing.CountingMatchesStack` | src/parser.cc:523-541 | counting `end`s backwards finds the openers a forward stack parser holds, innermost first, and none beyond |
| `Parsing.FindOpener` | src/parser.cc:523-541 | the search loop returns the top of the forward parser's stack, or nothing when that stack is empty |
| `Parsing.Parser.StackEffectBefore` | src/parser.cc:470-515 | the declared effect, read backwards, with its divider and its errors |
| `Parsing.Parser.CloseAt` | src/parser.cc:518-566 | an `end` either closes a block or splits out the function it closes |
| `Parsing.Parser.Read` | src/parser.cc:443-579 | the backward loop over one body, nested functions recursively, every failure included |
| `Parsing.Parser.IntoOperations` | src/parser.cc:581-655 | the same at the top level, where arrays and constants are skipped |
| `ForwardTranslation.BackwardIsForward` | src/parser.cc:443-655 | for every nested source without duplicate functions, reading its tokens backwards and reversing gives the direct translation: the body of main and every function, nested and anonymous, with its effect |
| `ForwardTranslation.RedefinitionMixes` | src/parser.cc:443-449 | for any two definitions of the same name, whatever their headers, the function ends up with the first body followed by the second reversed, dynamic if either was, with the first effect declared |
| `Literals.Pow` | src/utilities.cc:96-101 | the loop is the power modulo 2^64 |
| `Literals.PowersLookup` | src/lexer.cc:63-67 | the table holds the falling powers of the base modulo 2^64 |
| `Literals.SumDigits` | src/lexer.cc:85-101 | summing digits times powers is the Horner value modulo 2^64; bad digits are rejected, too many leave the table |
| `Literals.ParseInt` | src/lexer.cc:51-104 | one attempt in one base: prefix, leading zeros, underscores and type suffix, then the Horner value modulo 2^64 |
| `Literals.TableSuffices` | src/utilities.cc:82-94 | the digits allowed for each base are enough for every 64-bit word |
| `Notation.LexInteger` | src/lexer.cc:174-196 | a text is read as a value and a size if and only if it is the prefix of a base, digits of that base in either case with underscores anywhere, and a type suffix of that size, and the value is the number so written modulo 2^64, below the bound that base's digits allow |
| `Notation.LiteralRoundTrip` | src/lexer.cc:51-104 | every word, written in base 2, 6, 8, 10 or 16 with digits of either case, any leading zeros, underscores and suffix, is read back as that word; the text is spelled out |
| `Notation.EveryWordWritten` | src/lexer.cc:51-104 | every number has such digits in every base |
| `Notation.TooLargeWraps` | src/lexer.cc:86-101 | 99999999999999999999 is read as its remainder modulo 2^64; base 2 and 16 reach exactly up to 2^64 |
| `Registration.RegisterDefinitions` | src/parser.cc:116-220 | the pass over the tokens: every word is what its last definition makes it, other words are what they were, ids of definitions are apart, anonymous functions are numbered in order, and no other token changes |
| `Registration.RegisteredSource` | src/parser.cc:116-220 | in source that was registered every word that calls has a definition, and no function shares its id with another |
| `RecoveredSource.AcceptedIsSource` | src/parser.cc:443-655 | tokens on which reading backwards succeeds, with no block left open, are the print of a well-formed nested source: the converse of the row on direct translation |
| `RecoveredSource.NoStray` | src/parser.cc:523-541 | reading succeeds only if no `end` comes too early |
| `RecoveredSource.OpenBlocksShow` | src/parser.cc:443-655 | blocks that are never closed show in the operations that are left |
| `SourceMeaning.NestedExactly` | src/parser.cc:222-289 | `crossreference` accepts what the parser makes of a source if and only if each `if` has one `else` at most, each `while` one `do` exactly, and neither stands anywhere else |
| `SourceMeaning.BlocksSpell` | src/parser.cc:291-441 | the blocks of nested source have the words the parser leaves, in that order |
| `SourceMeaning.SourceMeans` | src/parser.cc:291-441 | run from its tokens (a number pushes its value, `true` 1 and `false` 0, a constant its value, arrays, strings and `&f` their address, a function's name calls it, an intrinsic's applies it, a type leaves the stack, `return` returns, blocks branch and repeat), source does exactly what its blocks do |
| `FrontEnd.FrontEndExact` | src/parser.cc:443-655 | reading well-formed source and crossreferencing its bodies succeeds only on well-nested source, and leaves the linked blocks of main and of every function |
| `FrontEnd.SourceIsBlocks` | src/parser.cc:443-655 | the source ends in a given way if and only if the program of its blocks does |
| `FrontEnd.CompleteIsReady` | src/parser.cc:443-655 | source that calls only what it defines leaves code the generator accepts |
| `FrontEnd.WordTyped` | src/parser.cc:291-441 | what the checker makes of each word, read off its token: numbers and constants are `u64`, truth values `bool`, strings, arrays and addresses `ptr`, a type says what the top is, names as they are used |
| `Types.TypecheckStackEffects` | src/types.cc:157-208 | the first alternative whose inputs match from the top down, type variables bound on first sight, is applied |
| `TypeRules.MatchExactly` | src/types.cc:157-208 | declared inputs match if and only if some choice for the type variables makes them the top of the stack, and the choice found is contained in every other |
| `TypeRules.RuleExact` | src/types.cc:378-585 | for every operation and every stack without `Any`, accepted or not and with which result: comparisons take two of one type and give `bool`; `+` takes no `bool` and at most one `ptr`, `-` two of a type other than `bool` or `ptr` and `u64`; `and`, `or` and `!` are on `bool`, other arithmetic on `u64`; loads and stores go through `ptr` |
| `TypeRules.CallExact` | src/types.cc:441-456 | a call is accepted with a stack if and only if some choice for the type variables makes the declared inputs the top and the declared outputs what replaces it |
| `TypeRules.BranchRule` | src/types.cc:398-439 | `if` and `do` take exactly a `bool` |
| `TypeRules.ExitRule` | src/types.cc:109-153 | an exit needs exactly the declared types |
| `TypeRules.FaultyExactly` | src/types.cc:355-600 | without `Any`, what the checker finds at fault is exactly what is ill-typed by these rules |
| `Types.CheckedHeight` | src/types.cc:457-585 | an operation is accepted only with its operands present, and moves the height by the same amount in every alternative |
| `Types.MachineHeight` | src/types.cc:457-585 | given the operands the checker asked for, the machine does not underflow, leaves the checked height, and touches nothing below them |
| `Types.ShuffleChecks` | src/types.cc:511-541 | the type rule of each stack word is that very word on the stack of types, underflow included |
| `Types.TypesFollowValues` | src/types.cc:511-541 | for every sequence of stack words, every stack and every typing of values, checking fails exactly when the machine underflows, and otherwise types the resulting values pointwise |
| `Typechecker.LinkRanked` | src/types.cc:363-439 | crossreferenced code has ranks that fall along every edge except out of an expanded `do` |
| `Typechecker.CheckProgresses` | src/types.cc:363-439 | each worklist iteration expands a new `do` or lowers the sum of powers of ranks, although `if` duplicates states and `end` jumps back |
| `Typechecker.Typecheck` | src/types.cc:355-440 | terminates on every crossreferenced body; accepted means the heights can be bounded so that every operation has its operands and every exit the declared height; rejected means a reachable state is stuck or two disagree at a `do`; without `Any` in literals, casts, declared outputs and the initial stack, accepted if and only if no reachable state is at fault |
| `TypeSafety.TypecheckProgram` | src/stacky.cc:258-273 | main and every function with a declared effect are checked; the verdict is one of the two above for the whole program |
| `TypeSafety.Preservation` | src/types.cc:355-600 | a step from a typed configuration leads to a typed one, an exit with an empty stack, or a division by zero |
| `TypeSafety.AcceptedProgramsAreSafe` | src/types.cc:355-600 | no run of an accepted program, however long or deeply recursive, underflows, leaves a body or calls a missing function |
| `TypeSafety.CallsLeaveDeclaredOutputs` | src/types.cc:441-456 | a call that comes back resumes behind itself with the caller's stack untouched below the inputs and exactly the declared outputs on top |
| `Simulation.RewriteUnobservable` | src/optimizer.cc:175-212 | a rewrite of one body that keeps the operations outside some segments in lock step, and replaces each segment by one with the same pushes, cannot be observed in any run |
| `FoldArithmetic.FoldExact` | src/optimizer.cc:247-275 | wherever the folder computes a value, it is the machine's if and only if the operands' signs allow it, operator by operator |
| `FoldArithmetic.FoldedDivisionDiffers` | src/optimizer.cc:308-330 | 18446744073709551615 2 div folds to a value the generated code never produces |
| `Folding.FoldShuffleIsShuffle` | src/optimizer.cc:287-375 | the in-place stack words of the folder are the machine's permutations; it stops exactly at missing operands and at `2drop`, `2over` and `2swap` |
| `Folding.FinishFolding` | src/optimizer.cc:175-212 | erase, insert the literals, shift the jumps behind the start |
| `Folding.ConstantFolding` | src/optimizer.cc:167-405 | the scanning loop finds and splices the first run worth folding, or reports none, or meets an undefined evaluation; exactly when each is in the next rows |
| `FoldCompleteness.FoldsWhen` | src/optimizer.cc:214-400 | an operation is taken into a run if and only if as many operands are there as it needs, and is undefined exactly for division by zero, the smallest number by minus one, and shift counts out of range |
| `FoldCompleteness.FoldsExactly` | src/optimizer.cc:167-405 | unchanged if and only if every run anywhere in the body, up to its end, consists of literals and none breaks; crashed if and only if a run breaks before one worth folding ends; changed if and only if one worth folding ends first |
| `FoldCompleteness.NothingLeft` | src/optimizer.cc:167-405 | in a body left alone no foldable operation stands behind as many literals as it needs |
| `FoldCorrectness.ScanFindsRun` | src/optimizer.cc:214-300 | what the scan finds starts with a literal, consists of foldable words only, evaluates to the stack it reports, and differs from it |
| `FoldCorrectness.LinkGuarded` | src/parser.cc:222-275 | in a crossreferenced body no jump lands strictly inside a foldable run |
| `FoldCorrectness.SpliceTargets` | src/optimizer.cc:175-212 | after a splice every jump designates the operation it designated before, or the start of the replaced run |
| `FoldCorrectness.SpliceGuarded` | src/optimizer.cc:175-212 | splicing keeps that no jump lands inside a run |
| `FoldCorrectness.RoundsGuarded` | src/optimizer.cc:167-405 | so does any number of folding rounds |
| `FoldCorrectness.RunGlides` | src/optimizer.cc:214-405 | the machine, run over a faithful foldable run on any stack, pushes exactly what the folder computed and changes nothing else |
| `FoldCorrectness.FoldingEquivalent` | src/optimizer.cc:167-405 | one round on a guarded body is unobservable from every starting stack, when signed and unsigned arithmetic agree on what it evaluates |
| `FoldCorrectness.FoldingProgresses` | src/optimizer.cc:184-202 | a round that reports a change leaves fewer operations that are not literals, although it can lengthen the body |
| `Conditions.OptimizeConditions` | src/optimizer.cc:71-165 | the constant-condition pass, with its remap amounts and its crashes, as one loop over the body |
| `Conditions.RemapJumps` | src/optimizer.cc:75-81 | shifts the jumps in a closed range, on 32 bits |
| `Conditions.ConditionsProgress` | src/optimizer.cc:71-165 | a pass that reports a change has shortened the body and added no operation that is not a literal |
| `LoopRewriting.InfiniteLoopResult` | src/optimizer.cc:93-121 | what the rewrite of `while … <literal> do … end` leaves: the last `while` before the `do`, the literal, the `do` and everything behind the loop are gone, jumps into the loop body lowered by three |
| `LoopRewriting.InfiniteLoopKept` | src/optimizer.cc:93-121 | every jump that stays designates what it designated if and only if the rest of the condition has no control word and nothing before the loop jumps across it |
| `LoopRewriting.InfiniteLoopEquivalent` | src/optimizer.cc:93-121 | then the rewrite is unobservable: same worlds in diverging runs, same exits by `return` or fault |
| `LoopRewriting.UnloopedGuarded` | src/optimizer.cc:106-121 | jumps of what is left keep out of foldable runs if and only if no literals before the `while` take in the operation behind it |
| `LoopRewriting.DeadLoopKept` | src/optimizer.cc:110-123 | for a loop on zero, every jump that stays designates what it designated if and only if the condition has no inner `while` and nothing outside jumps to the loop or to the three operations behind it |
| `Cuts.CutUnobservable` | src/optimizer.cc:71-165 | erasing parts of a body that control would only glide through, with every remaining jump designating what it designated, cannot be observed |
| `Cuts.CutGuarded` | src/optimizer.cc:71-165 | if no run of literals crosses a place where a part was erased, jumps keep out of foldable runs |
| `Contexts.AcrossExactly` | src/parser.cc:222-289 | in linked code nothing before a place jumps across it if and only if every block around it is a loop's condition |
| `ConstantConditions.InfiniteLoopExact` | src/optimizer.cc:93-121 | `while cond <nonzero> do … end` anywhere in linked code: what is left, exactly when it is right, and that it is unobservable then |
| `ConstantConditions.UnloopedFoldable` | src/optimizer.cc:106-121 | after a right rewrite anywhere in linked code folding may go on if and only if, seen before the rewrite, no literals in front of the `while` take in the operation that follows them then |
| `ConstantConditions.DeadLoopExact` | src/optimizer.cc:110-123 | `while cond 0 do … end` anywhere in linked code: what is left, exactly when it is right, and that it is unobservable then |
| `ConstantConditions.TrueIfElseExact` | src/optimizer.cc:126-143 | `<nonzero> if … else … end` anywhere: right if and only if the `else` is not empty and nothing outside jumps behind the `end`; unobservable then |
| `ConstantConditions.FalseIfElseExact` | src/optimizer.cc:144-153 | `0 if … else … end` anywhere: right if and only if the branch sizes fit the fixed amounts or have no jumps to move; unobservable then |
| `ConstantConditions.TrueIfThenExact` | src/optimizer.cc:126-143 | `<nonzero> if … end` anywhere: right if and only if the branch is empty and nothing outside jumps behind it; otherwise the branch loses its last operation |
| `ConstantConditions.FalseIfThenExact` | src/optimizer.cc:144-153 | `0 if … end` anywhere: right if and only if the branch is a single operation; unobservable then |
| `ConditionPasses.PassUnobservable` | src/optimizer.cc:71-165 | a whole pass over a body, any number of rewrites, each right on what the ones before it have left, cannot be observed |
| `ConditionPasses.PassReady` | src/optimizer.cc:71-165 | such a pass does not crash and leaves a body that can be folded and generated |
| `ConditionPasses.SourceLoopRight` | src/optimizer.cc:93-121 | an endless loop anywhere in linked code meets that condition when the rest of its condition has no control word, only loop conditions are around it, and no literals run into it |
| `UndecidedConditions.ConditionsFound` | src/optimizer.cc:71-165 | the condition pass leaves a body alone if and only if no `if` and no `do` stands right behind a literal |
| `UndecidedConditions.FoldUndecided` | src/optimizer.cc:167-405 | a folding round neither makes nor unmakes a condition that literals decide |
| `UndecidedConditions.UndecidedExactly` | src/optimizer.cc:71-92 | after any number of folding rounds, when nothing is left to fold, the condition pass finds nothing if and only if no condition of the first body was decided by literals |
| `UndecidedConditions.ComparisonDecided` | src/optimizer.cc:71-92 | a comparison with a literal is decided exactly when its other operand is |
| `UndecidedConditions.UnfedIsUndecided` | src/optimizer.cc:71-92 | nothing is decided when no operation before an `if` or a `do` is foldable |
| `OptimizerCounterexamples.LoopRewriteUnguards` | src/optimizer.cc:106-121 | after the rewrite of `5 while true do 1 + end` a jump lands inside the run `5 1 +` |
| `OptimizerCounterexamples.FoldAfterLoopRewriteDiffers` | src/optimizer.cc:175-212 | folding that body leaves an `end` without a jump, which the generator does not accept, and which is not the endless loop it was |
| `OptimizerCounterexamples.NestedLoopRewriteDiffers` | src/optimizer.cc:106-108 | cutting behind a nested endless loop cuts the `end` of the block around it, and a run differs |
| `OptimizerCounterexamples.ConstantIfRewriteDiffers` | src/optimizer.cc:126-156 | `1 if 7 end` loses its 7 |
| `OptimizerCounterexamples.EmptyIfRewriteDiffers` | src/optimizer.cc:144-153 | `0 if end`, which exits, becomes an `end` that jumps to itself |
| `OptimizerCounterexamples.EmptyElseRewriteDiffers` | src/optimizer.cc:126-153 | `0 if 7 else end` and `1 if 7 else end`, which exit, become an `end` that jumps out of the body |
| `OptimizerCounterexamples.DeadLoopRewriteDiffers` | src/optimizer.cc:110-123 | `argc if while 0 do end end`, which exits, underflows without arguments and never ends with them |
| `UnusedWords.Mark` | src/optimizer.cc:22-49 | the recursive walk, looking words up by the first entry with their id, terminates on recursive call graphs and adds exactly what a body reaches that way |
| `UnusedWords.MarksExact` | src/optimizer.cc:22-56 | from an empty start the marks are exactly the words the walk reaches from main through calls and symbols, and the strings these mention |
| `UnusedWords.NothingDangles` | src/optimizer.cc:22-69 | after the removal every reference still has its function, array or string if and only if functions hidden behind another word of their id refer to no word and mention no string the walk has missed |
| `UnusedWords.DefinedIsWalkable` | src/optimizer.cc:39-43 | a program without dangling references has every word the walk looks up |
| `UnusedWords.FirstDefinitionDangles` | src/optimizer.cc:39-45 | with an intrinsic of id 0 in front of the first definition, a word that definition calls is erased |
| `UnusedWords.FirstDefinitionLosesString` | src/optimizer.cc:57-63 | likewise a string that definition pushes is erased, although every word stays |
| `UnusedWords.ClosedMissesNothing` | src/optimizer.cc:39-45 | neither word nor string is missed when functions that share their id refer to nothing, in particular when none does |
| `UnusedWords.RemoveUnused` | src/optimizer.cc:51-69 | functions and arrays stay if and only if the walk reaches them, strings if and only if main or a body the walk follows mentions them, a change is reported if and only if something went, and the rest can be walked again |
| `UnusedWords.RemovalUnobservable` | src/optimizer.cc:51-69 | every run of main whose own indirect calls go to reachable functions is step for step what it was |
| `UnusedWords.CallFreeRemoval` | src/optimizer.cc:51-69 | programs without `call` are observed alike in every environment |
| `UnusedWords.ResolvedRemoval` | src/optimizer.cc:51-69 | so are programs with `call`, where every address that resolves is one of a function that is left |
| `Pipeline.RemovalInReducedLayout` | src/optimizer.cc:51-69 | which is so in the layout of the program that is left |
| `Optimizer.PassProgresses` | src/optimizer.cc:407-414 | folding that reports a change lowers the number of operations that are not literals; the condition pass lowers the length without raising that number |
| `Optimizer.SweepProgresses` | src/optimizer.cc:13-20 | so does a sweep over all functions, in total |
| `Optimizer.GenerationInfo.ForAllFunctions` | src/optimizer.cc:13-20 | applies a pass to main and every function and reports whether any changed |
| `Optimizer.GenerationInfo.Optimize` | src/optimizer.cc:407-414 | the fixpoint loop terminates for every program, is a sequence of removals and sweeps, and ends with no pass left that would change anything |
| `OptimizerRuns.SettledProgram` | src/optimizer.cc:407-414 | the passes have nothing left to do if and only if in main and every function no literal feeds a branch, every foldable run is of literals, and none breaks |
| `OptimizerRuns.RunReady` | src/optimizer.cc:407-414 | whatever sound removals and sweeps run, the result is ready for the generator and has no new function |
| `OptimizerRuns.RunUnobservable` | src/optimizer.cc:407-414 | and cannot be told from the program at the start: removals that miss no word, condition sweeps of right rewrites and faithful folds, in any order and number; with `call` where addresses are those of what is left, without it everywhere |
| `OptimizerRuns.RunDefined` | src/optimizer.cc:407-414 | no word and no string that something refers to is missing at the end, if none was at the start and no removal missed any |
| `CheckedRuns.CheckedRun` | src/optimizer.cc:407-414 | every run that folds faithfully is sound, if at the start no condition is decided by literals (or one pass of right rewrites leaves none) and functions that share their id refer to nothing |
| `CheckedRuns.SignBlindRun` | src/optimizer.cc:407-414 | without division, ordered comparison, min and max every run folds faithfully |
| `CheckedRuns.CalmRun` | src/optimizer.cc:407-414 | every run whatever is sound, if in addition literals alone never reach one of these words |
| `OptimizedLibrary.Digits10Calm` | std/io.stacky:18-27 | `digits10`, with its `while true do`, meets that condition, and the pass leaves exactly its loop without the test |
| `BitLaws.BitwiseByBit` | src/optimizer.cc:262-264 | bit k of `bit-and`, `bit-or` and `bit-xor`, for every k below 64, is both, either, exactly one of the operands' bits k |
| `BitLaws.BitwiseWords` | src/linux-x86_64.cc:115-117 | so it is for the words on the machine |
| `BitLaws.BooleanWords` | src/linux-x86_64.cc:124-133 | `and` gives 1 if and only if the operands have a common bit, `or` if and only if one is not zero |
| `BitLaws.BitwiseLaws` | src/optimizer.cc:262-264 | and plus or is the sum, xor is or minus and, a word xor itself is zero, xor undoes itself |
| `BitLaws.LeftShiftByBit` | src/linux-x86_64.cc:118 | bits move up by the count modulo 64, zeros come in |
| `BitLaws.RightShiftByBit` | src/linux-x86_64.cc:120 | bits move down, copies of the sign come in |
| `MemoryLaws.StoreWordByByte` | src/linux-x86_64.cc:245-260 | a store puts the low bytes of the value, least first, at consecutive addresses and changes no other address |
| `MemoryLaws.LoadWordByByte` | src/linux-x86_64.cc:227-243 | a load has exactly the bytes at those addresses, and zeros above |
| `MemoryLaws.StoreThenLoad` | src/linux-x86_64.cc:227-260 | what was stored is loaded again |
| `Codegen.IntrinsicBlock` | src/linux-x86_64.cc:77-276 | the block emitted for every intrinsic does to stack and world what the intrinsic means, faults included, and leaves the call stack alone |
| `Listing.GenerateJumpTargets` | src/stacky.cc:121-149 | the lookup is exactly the set of jump targets |
| `Listing.GenerateInstructions` | src/linux-x86_64.cc:278-336 | the listing, operation by operation, with labels only at jump targets and at the end |
| `Listing.LabelClosure` | src/linux-x86_64.cc:278-336 | every label a listing jumps to is defined in it exactly once, the end label of `return` included |
| `Listing.LabelPlaced` | src/linux-x86_64.cc:278-336 | that label stands where the operation it names starts |
| `Processor.RunStraight` | src/linux-x86_64.cc:77-276 | the processor runs straight lines as a block, one line a step |
| `CodegenCorrectness.ReturnSimulated` | src/linux-x86_64.cc:68-75 | a return takes its address back from the call stack and resumes behind its own call, data stack untouched |
| `CodegenCorrectness.Entered` | src/linux-x86_64.cc:349-364 | entering a function moves the return address off the data stack, into the call stack or, with 1024 calls active, over the call pointer behind it |
| `CodegenCorrectness.StepSimulated` | src/linux-x86_64.cc:278-336 | every step of the machine is one or more emitted lines |
| `CodegenCorrectness.CodeFollowsMachine` | src/linux-x86_64.cc:77-364 | after any number of machine steps the generated code shows the same state, while there is room for the calls |
| `CodegenCorrectness.MachineFollowsCode` | src/linux-x86_64.cc:77-364 | however many lines have run, the generated code is on its way to a state that shows one of the machine |
| `CodegenCorrectness.GeneratedCodeExact` | src/linux-x86_64.cc:68-387 | the generated code ends exactly as the machine ends: same reason, same world, same final data stack; recursion included |
| `CodegenCorrectness.ShallowIsTame` | src/linux-x86_64.cc:44-45 | a run that never has more than 1024 active calls always has that room |
| `CodegenCorrectness.DeepCallCorrupts` | src/linux-x86_64.cc:349-358 | after the 1025th active call the call pointer holds its return address plus one; the callee runs on with the right data stack and world |
| `CodegenCorrectness.DeepReturnStrays` | src/linux-x86_64.cc:68-75 | that callee's return looks for its address behind the call stack, at the index the address itself |
| `CodegenCorrectness.DeepStepStrays` | src/linux-x86_64.cc:68-75 | any further call or return from there accesses memory behind the call stack |
| `FoldSchedules.ScheduleUnobservable` | src/optimizer.cc:167-405 | folding rounds on any functions, in any order and number, are unobservable and leave bodies the generator accepts |
| `FoldSchedules.SignBlindSchedule` | src/optimizer.cc:247-330 | a program without division, ordered comparison, min and max folds faithfully on every schedule, whatever its literals |
| `Pipeline.CompilerExact` | src/stacky.cc:247-278 | well-formed source, read from tokens, crossreferenced, run soundly through the optimizer and generated, exits with a stack and a world exactly when the source, run from its tokens with no operation or jump in sight, ends with them, and stops for any reason in a world exactly when the source does |
| `EndToEnd.AcceptedTokens` | src/parser.cc:443-655 | whatever registers, reads and crossreferences is the print of well-formed source |
| `EndToEnd.RegisteredReads` | src/stacky.cc:243-247 | and, no name being given to two functions, meets everything the row above asks of source |
| `EndToEnd.CompiledTokens` | src/stacky.cc:243-278 | so the same holds from any token sequence that the front end takes: the tokens are a well-nested source, and the generated process ends exactly as that source does |
| `Pipeline.CalmOptimizerRun` | src/optimizer.cc:407-414 | whatever the driver does to a program that meets the conditions above is such a sound run |
| `Pipeline.LoopThenFolds` | src/optimizer.cc:106-121 | a right infinite-loop rewrite that no literals run into, followed by any faithful schedule of folds, is unobservable |
| `Pipeline.AcceptedCodeIsSafe` | src/stacky.cc:258-277 | the generated code of a type-checked and optimized program never underflows: it runs on, exits with an empty stack, divides by zero or nests too many calls |
| `Decimal.TextLength` | std/io.stacky:18-27 | a number has at most k digits if and only if it is below 10^k |
| `Decimal.Digits10` | std/io.stacky:18-27 | the loop counts the decimal digits |
| `Decimal.PutU` | std/io.stacky:29-44 | exactly those buffer positions are filled, with the digits in order, and exactly they are written |
| `Decimal.BufferSuffices` | std/limits.stacky:1 | the declared buffer holds a number's text if and only if the number is below 10^19 |
| `Decimal.ParseU64` | std/algorithm.stacky:31-38 | the value of the digits up to the first other byte, modulo 2^64 |
| `Decimal.PrintThenParse` | std/algorithm.stacky:31-38 | parsing the text of any 64-bit number, behind it any terminator, gives the number |
| `LibraryWords.Digits10Runs` | std/io.stacky:18-27 | the word itself, run as a block, returns the digit count and leaves the stack below alone |
| `LibraryWords.ParseRuns` | std/algorithm.stacky:31-38 | the word itself, run as a block, leaves the value of the digits at the address, modulo 2^64 |
| `LibraryPrograms.PutuRuns` | std/io.stacky:29-44 | the word itself, run as a block with its call of `digits10`, puts exactly the decimal text into the buffer, touches no other memory, and hands exactly that many bytes to `write` |
| `Calendar.YearOfEraIsCalendarYear` | std/time.stacky:42-46 | the closed form is the year, 0 to 399, in which the day of the era lies |
| `Calendar.MonthIsCalendarMonth` | std/time.stacky:54-59 | month index 0 to 11 and day 1 to 31 form a real date of that year on that day |
| `Calendar.DateUnique` | std/time.stacky:33-59 | different dates are different days, so the day count is recoverable and the date the only one possible |
| `Calendar.Clock.Date` | std/time.stacky:33-59 | for every 64-bit number of seconds: hour, minute, and the calendar date of that day; the era cell holds its era |
| `LibraryDate.DateRuns` | std/time.stacky:33-63 | the word itself, run as a block: for every 64-bit number of seconds the minute, hour and day of the calendar, the era in its cell, and month and year of the calendar if and only if it is not January or February |
| `LibraryDate.EpochMisdated` | std/time.stacky:60-63 | 0 seconds come out as the first of February 1969 |
| `Utf8.RuneRoundTrip` | src/unicode.cc:25-44 | the first byte always announces the length, and the bytes decode to the rune if and only if it has at most 21 bits |
| `Utf8.TextRoundTrip` | src/unicode.cc:25-44 | concatenated encodings decode to exactly the runes they came from |
| `Utf8.StandardExcept` | src/unicode.cc:6-44 | the bytes are the encoding section 3 of RFC 3629 prescribes if and only if the rune is a scalar value, surrogates excluded, and none of 0x7F, 0x7FF and 0xFFFF, which take one octet more |
| `Utf8.StandardUnique` | src/unicode.cc:6-44 | no rune has two standard encodings |

## Left out

- Conditions.OptimizeConditions: its contract is the pass itself; what a pass means is stated by the rows above for rewrites that are right on what they meet. An `if` that jumps back before its own condition, which `crossreference` never produces, is treated as a crash.
- OptimizerRuns.RunUnobservable: with a condition rewrite that is not right nothing is claimed beyond the exact conditions and the runs that differ.
- ConstantConditions.InfiniteLoopExact: being right means that jumps designate what they designated; a wrong jump that is never taken may go unobserved.
- Dynamically typed functions and the `call` intrinsic in the type checker: the source inlines the first without bound and does not implement the second; both are rejected in the model.
- Typechecker.Typecheck: with `Any` on the stack equality of types is not transitive; there, acceptance is sound for stack heights only.
- UnusedWords.RemovalUnobservable: indirect calls of the run must go to reachable functions, because an address can also be made by arithmetic; in the layout of what is left they do.
- FoldArithmetic.FoldExact: signed sums and products of the folder are taken to wrap, where C++ leaves an overflow undefined.
- Literals.ParseInt: a literal of zeros alone runs the source past its end, where the terminating character stops it; the model stops there too.
- ForwardTranslation.RedefinitionMixes: two definitions next to each other at the top level, up to the jumps; a function defined again inside its own body is not covered.
- Calendar.Clock.Date: up to the month counted from March; the rest of the word is in `LibraryDate.DateRuns`.
- CodegenCorrectness.GeneratedCodeExact: the three lines that store the process arguments at `_start` are taken as done; a call through an address that is no function's start is excluded.
- CodegenCorrectness.DeepStepStrays: what lies behind the call pointer is not modelled, so nothing is said about what such an access does.
- Data stack memory: the stack is a sequence, so memory accesses through `top` do not alias it.
- EndToEnd.CompiledTokens: two functions of one name are excluded, because they come out mixed (`ForwardTranslation.RedefinitionMixes`); registration starts without earlier definitions, as it does for a program, and a name spelled like the prefix of anonymous functions is taken to be another name.
- Registration.RegisterDefinitions: sizes of arrays, locations and warnings about redefinition are not kept.
- TypeRules.RuleExact: no claim for stacks with `Any`; a type variable is no target of a cast.
- String and character literals and their escapes, whitespace and comments, the table of keywords, includes and imports.
- Diagnostics, warnings, locations, verbose output.
- Command line, running nasm and ld, Graphviz output, the rest of the standard library.
