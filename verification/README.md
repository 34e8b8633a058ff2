# Nova and NTASM, proved

A Dafny model of the C bootstrap toolchain: the dataflow verifier of NTASM functions, constant
folding and the expression parser of its front end, the x86-64 code generator, the lowering of Nova
to NTASM, the instruction encoder, relocatable objects with their file format, linker and
materialisation, the PE32+ writer with its two validators, and the handle-based runtime. Each is
modelled as the code works and proved against what it is for.

`dafny verify dfyconfig.toml` checks everything. No file needs more than its imports.

How the parts fit together:

- **Verifier** (`Cfg`, `Worklist`, `Facts`, `Dataflow`, `Conformance`, `KnownNames`, `TypeChains`,
  `StatementRuns`, `CallsInStatements`, `MergedPointers`, `PointerChecks`). The graph builder is faithful to small-step
  control flow in both directions, the worklist computes the greatest solution, and both together make
  `VerifyGraph` sound and, for flags, locals and outputs, exact. `StatementRuns` evaluates statements
  node by node, without the verifier's sets of facts, and says what safety means there.
- **Code generator** (`Words`, `WordMeaning`, `X86`, `RegisterParts`, `Codegen`, `Operations`, `Simulation`,
  `Calls`, `ExpressionProof`, `Frames`, `MixedOperands`, `Leftovers`, `NarrowOutputs`, `Abi`, `Statements`,
  `Functions`, `FrameSizes`, `RereadFunctions`, `Generator`). A register-level x86-64 machine, the
  emitted code as functions, the simulation theorem from operators to whole functions, and the
  appending emitter that produces that code.
- **Front end** (`Folding`, `FoldedNumbers`, `Parsing`, `ArgumentLines`, `OperatorTable`). Constant folding against
  execution, and precedence climbing against a minimal printer and a list of the operators.
- **Nova** (`NovaSource`, `NovaMeaning`, `NovaTarget`, `NovaLowering`, `NovaExpressions`,
  `NovaStatements`, `NovaCasts`, `NovaShifts`, `NovaIndexes`, `NovaRuns`, `NovaRuntime`,
  `NovaCompiler`). A big-step source meaning with errors and positions, the lowered
  let/if/label/jump code, that both agree, and what the code does over the handle runtime.
- **Encoder** (`X64Encoder`, `X64Encodable`, `X64Golden`, `X64Decoder`, `X64RoundTrip`, `X64Buffer`). The decoder is
  written from sections 2.1.3, 2.1.5 and 2.2.1 of volume 2 of the Intel 64 and IA-32 Software
  Developer's Manual.
- **Objects** (`Sorting`, `Objects`, `ObjectRules`, `ObjectFiles`, `ObjectNumbers`, `LinkSpec`,
  `LinkRules`, `LinkedPlaces`, `Linker`, `Relocations`, `RelocationNumbers`) and **images**
  (`PeImages`, `ImageNumbers`, `PeChecks`, `SiteTables`, `ImageRules`, `PeAccepted`). From validated
  object to linked object to image, with the file format canonical in both directions and no
  materialised object ever refused.
- **Runtime** (`Handles`, `HandleContents`, `HandleOutcomes`, `RuntimeV2`). The table as a value with its
  operations, what handles stand for, and the class that keeps table and memory in place.

A definition that the code and its specification share has a module beside it that says what it means
without it: by bits (`WordMeaning`, `RegisterParts`), by numbers at offsets (`ObjectNumbers`, `ImageNumbers`,
`RelocationNumbers`, `FoldedNumbers`, `HandleOutcomes`, `NovaMeaning`), as a list (`OperatorTable`,
`X64Encodable`) or as rules (`ObjectRules`, `LinkRules`, `ImageRules`, `KnownNames`,
`TypeChains`, `FrameSizes`).

## Model

| member | source | states |
|---|---|---|
| `Cfg.Builder.Build` | `bootstrap/quarantine/c/conformance.c:892-905` | an accepted body yields a graph that is faithful to it: every statement is placed once, with the edges its control flow needs and no edge out of the function |
| `Cfg.BuiltExactlyOnce` | `bootstrap/quarantine/c/conformance.c:691-757` | a statement with its enclosing blocks occurs in the body if and only if the builder recorded exactly that placement for it |
| `Cfg.StepIsEdge` | `bootstrap/quarantine/c/conformance.c:691-757` | every small step of nested blocks, ifs with literal conditions, labels, jumps and conditional branches is an edge |
| `Cfg.ExecutionIsPath` | `bootstrap/quarantine/c/conformance.c:691-757` | every execution runs along edges, through reachable statements only, and never off the end |
| `Cfg.PathIsExecution` | `bootstrap/quarantine/c/conformance.c:691-757` | conversely every path of the graph is an execution, so the graph has no spurious paths |
| `Worklists.Worklist.Enqueue` | `bootstrap/quarantine/c/conformance.c:758-764` | the ring buffer appends a statement unless it is queued already; with one slot more than statements it never overflows |
| `Worklists.Worklist.Dequeue` | `bootstrap/quarantine/c/conformance.c:765-770` | takes the oldest queued statement, which is a real one and then no longer queued |
| `Dataflow.Analysis.MarkReachable` | `bootstrap/quarantine/c/conformance.c:904-921` | marks exactly the statements that control can reach, or names a reachable one that falls off the end |
| `Dataflow.Analysis.Solve` | `bootstrap/quarantine/c/conformance.c:952-1038` | the fixpoint loop ends on every graph, by lattice height and then queue length, in the greatest solution: a fact is dropped only if it is missing on some path |
| `Dataflow.Analysis.Check` | `bootstrap/quarantine/c/conformance.c:1041-1107` | the final pass accepts only if every reachable statement passes, and otherwise blames one that really fails |
| `Conformance.PathIsSafe` | `bootstrap/quarantine/c/conformance.c:922-1107` | on any path to a passing statement every flag, local and output bit it needs was defined and not lost since, and the base register of each memory access holds a pointer into the annotated space and element |
| `Conformance.PassedIsSafe` | `bootstrap/quarantine/c/conformance.c:922-1107` | if all checks pass, every execution is safe at every step, returns included |
| `Conformance.LostIsLacking` | `bootstrap/quarantine/c/conformance.c:952-1038` | a needed fact that the fixpoint lost is lacking on some real execution, so no function is refused for a path it does not have |
| `TypeChains.SameExactly` | `bootstrap/quarantine/c/conformance.c:207-217` | two pointer types are the same exactly when their chains of element types meet within 129 steps and agree in kind, space, bits and count before |
| `Conformance.AccessesPassExactly` | `bootstrap/quarantine/c/conformance.c:373-414` | memory accesses pass if and only if on every execution they go through a fitting pointer and no two executions arrive with pointers of different types |
| `MergedPointers.FittingPointersRefused` | `bootstrap/quarantine/c/conformance.c:1009-1021` | a function body with two branches, evaluated in the model: every execution of it is safe, rax pointing to a byte on one and to an array of bytes on the other, and whatever the fixpoint is, the final check refuses the access |
| `PointerChecks.PointerPassesExactly` | `bootstrap/quarantine/c/conformance.c:416-430` | the check that a register holds a pointer of a given type, as an argument, a stored value or a result of that type must, passes if and only if every execution arrives with one |
| `PointerChecks.ScalarPassesExactly` | `bootstrap/quarantine/c/conformance.c:399-401` | the check that a register holds no pointer, as for an index or a scalar value, passes if and only if on some execution it holds none or on two executions pointers of different types |
| `PointerChecks.PointerPassesAsScalar` | `bootstrap/quarantine/c/conformance.c:1009-1021` | so in the body above rax passes as an index where the branches meet, though it holds a pointer on every execution |
| `Conformance.VerifyGraph` | `bootstrap/quarantine/c/conformance.c:825-1115` | end to end: acceptance makes every execution safe and every name it uses resolved, and a refusal for flags, locals, outputs, a lost output pointer, a return that may not be, falling off the end or an unresolved name has a real offending execution; one for an access has one, or two that disagree about the pointer |
| `StatementRuns.GoesExactly` | `bootstrap/quarantine/c/conformance.c:471-505` | evaluating an expression from left to right, where a call undefines the flags if its function clobbers them, assigns its outputs and retypes registers, goes through exactly when every local it names is bound and every register bit it reads was assigned before the statement or by a call evaluated before the read |
| `StatementRuns.SafeRunsExactly` | `bootstrap/quarantine/c/conformance.c:922-1107` | of a function that the verifier finds safe, no execution faults under that evaluation if and only if every return it reaches is quiet: after its own calls the declared output pointers are still held |
| `StatementRuns.LackingFaults` | `bootstrap/quarantine/c/conformance.c:1041-1071` | an execution that lacks a needed flag or local does fault there |
| `CallsInStatements.ReadAfterCallRefused` | `bootstrap/quarantine/c/conformance.c:1072-1096` | do f() + rcx, where f assigns rcx: no execution faults, and it is refused for every fixpoint |
| `CallsInStatements.CallInReturnAccepted` | `bootstrap/quarantine/c/conformance.c:1072-1096` | return f(), where f changes a register that was loaded with a declared output pointer: the verifier accepts it and its execution faults |
| `KnownNames.ResolvedExactly` | `bootstrap/quarantine/c/conformance.c:775-800` | a statement counts as resolved if and only if every function and variable in its expressions, and the local it binds, is declared |
| `Operations.RunOperation` | `bootstrap/quarantine/c/codegen.c:605-625` | the code of each operator, with the left operand in r10 and the right one in rax, leaves the typed value or traps exactly when there is none, for all operands that the instructions read with the sign they have; equality compares words, and sums, products, bit operations and shifts take any operands |
| `WordMeaning.BitsAt` | `bootstrap/quarantine/c/codegen.c:605-625` | each bit of the and, or and exclusive or of two words is that of the same bits of the words, and none is above; the source meaning, the machine and the folder have the same operation |
| `WordMeaning.WrapMeans` | `bootstrap/quarantine/c/codegen.c:310-326` | the value of a type for a number is the one in the range of the type that differs from it by a multiple of their number |
| `WordMeaning.TruncMeans` | `bootstrap/quarantine/c/codegen.c:605-625` | a signed quotient is the one that leaves a remainder smaller than the divisor and of the sign of the dividend |
| `ExpressionProof.CodeSimulates` | `bootstrap/quarantine/c/codegen.c:626-775` | for every tree whose constants are values of their types and in which no comparison or division misreads an operand, the emitted code ends as the source evaluation does: value in rax, same calls in the same order, frame kept, or a trap after the same calls; narrow outputs are allowed wherever nothing emitted before wrote the rest of their register |
| `ExpressionProof.CapturedCall` | `bootstrap/quarantine/c/codegen.c:466-555` | without the condition on narrow outputs a call still does what the source says, except that its outputs are placed in the registers as the evaluator left them |
| `Frames.ExpressionCorrect` | `bootstrap/quarantine/c/codegen.c:776-801` | around a whole expression every general register and the flags end as the source has them |
| `Leftovers.CodeLeaves` | `bootstrap/quarantine/c/codegen.c:626-775` | every register the evaluator does not keep ends the code of an expression, nested calls included, with exactly the operand, quotient, count, argument or callee value that was put there last |
| `NarrowOutputs.NarrowOutputExact` | `bootstrap/quarantine/c/codegen.c:538-555` | for any call, the emitted code leaves the register of a narrow output as the source has it if and only if, outside the output's field, the register held at the call instruction what the source has in it |
| `NarrowOutputs.NarrowOutputNeedsClean` | `bootstrap/quarantine/c/codegen.c:538-555` | when no argument makes a call or reads that register: the promise holds whatever the register held before if and only if no code emitted before the call writes a piece of it outside the field |
| `NarrowOutputs.KeptThoughWritten` | `bootstrap/quarantine/c/codegen.c:757-766` | f(x << rcx) keeps the promise though the shift writes all of rcx, so that condition is not needed for trees that read the register |
| `NarrowOutputs.ShiftedOutputExact` | `bootstrap/quarantine/c/codegen.c:757-766` | f(x << y) with the count in the output register: after the emitted code the source result holds exactly when the count and the old register agree above the byte |
| `NarrowOutputs.ShiftedOutputLost` | `bootstrap/quarantine/c/codegen.c:757-766` | an input on which they do not |
| `Simulation.FrameCovers` | `bootstrap/quarantine/c/codegen.c:1197-1221` | locals, snapshots, spill slots, argument slots and outgoing area fit the rounded frame |
| `Functions.LayoutCovers` | `bootstrap/quarantine/c/codegen.c:327-414` | the static depth analyses bound every nesting level the emitter reaches in the body, and their areas fit the frame |
| `FrameSizes.LayoutSuffices` | `bootstrap/quarantine/c/codegen.c:327-414` | no chain of operands is longer, no chain has more calls, and no call has more parameters or more of them on the stack than the analyses say |
| `FrameSizes.LayoutNeeded` | `bootstrap/quarantine/c/codegen.c:327-414` | and each of these numbers is reached somewhere in the body |
| `FrameSizes.FrameExactly` | `bootstrap/quarantine/c/codegen.c:1197-1221` | the frame is the least size that holds them and aligns the body |
| `Abi.ProbeLowersByFrame` | `bootstrap/quarantine/c/codegen.c:1229-1241` | the probe loop lowers rsp by exactly the frame and touches every page on the way |
| `Abi.PrologueStarts` | `bootstrap/quarantine/c/codegen.c:1208-1288` | the prologue saves what the caller must get back and hands every argument to its local, rax inputs included |
| `Abi.BodyIsAligned` | `bootstrap/quarantine/c/codegen.c:1208-1210` | rsp is a multiple of 16 in the body if and only if it was 8 above one at entry |
| `Abi.EpilogueReturns` | `bootstrap/quarantine/c/codegen.c:802-847` | if the body left rbp and the saved area alone, the epilogue returns to rsp + 8 with every other register and the flags as the contract says, a narrow output changing its own bytes only |
| `Statements.BlockCarries` | `bootstrap/quarantine/c/codegen.c:991-1060` | compiled lets, calls, ifs and returns do what the source block does to locals, registers, flags and calls |
| `Functions.FunctionCorrect` | `bootstrap/quarantine/c/codegen.c:1161-1288` | from the call to the return: the source meaning of the body, with the value in rax, outputs in their fields, everything else restored and the caller's stack untouched |
| `RereadFunctions.FunctionRereads` | `bootstrap/quarantine/c/codegen.c:1161-1288` | and for every body that the type checker accepts, misread operands or not, with constants of their types: from the call to the return the compiled function does what the body means with its misread operands reread |
| `Functions.ShortFunctionCorrect` | `bootstrap/quarantine/c/codegen.c:1178-1196` | the two-instruction form of a function that only returns a constant keeps the same contract |
| `Functions.CalleeMeetsCaller` | `bootstrap/quarantine/c/codegen.c:466-555` | what the evaluator assumes of a call is what a compiled function does |
| `Generators.Generator.EmitExpression` | `bootstrap/quarantine/c/codegen.c:776-801` | the appending emitter, with its spill and call levels, produces exactly the code the simulation is about, or refuses exactly the unsupported trees |
| `Generators.Generator.EmitIf` | `bootstrap/quarantine/c/codegen.c:1010-1033` | jumps patched after the fact land where the conditional code says |
| `Generators.Generator.EmitFunction` | `bootstrap/quarantine/c/codegen.c:1161-1288` | the whole function as emitted, short form included |
| `MixedOperands.OperationExact` | `bootstrap/quarantine/c/codegen.c:605-625` | for every operator and every pair of operand types that the type checker accepts, the code is right for all operand values if and only if the operator is a comparison or division that misreads its right operand: an i64 one against a 64-bit register, or one with a negative number against a pointer or, short of equality, a bool |
| `MixedOperands.RereadRuns` | `bootstrap/quarantine/c/codegen.c:626-775` | for every tree that the type checker accepts, whatever it misreads, with constants of their types: the emitted code ends as the tree evaluates when each misread operand is made the 64-bit number that the instructions take it for |
| `MixedOperands.RereadKeeps` | `bootstrap/quarantine/c/frontend.c:1755-1799` | rereading changes a tree if and only if some operation in it misreads its right operand |
| `MixedOperands.KeepsExactly` | `bootstrap/quarantine/c/codegen.c:626-775` | in any state the code of an accepted tree gives the source value, or traps with it, if and only if the tree has the same outcome reread |
| `MixedOperands.RegisterOperandExact` | `bootstrap/quarantine/c/frontend.c:1613-1625` | for x as wide as the register, the emitted code of x op reg keeps the source meaning for all contents of x and the register if and only if op is neither comparison nor division, or x is unsigned, or the register is narrower than 64 bits |
| `MixedOperands.AllOnesIsMinusOne` | `bootstrap/quarantine/c/codegen.c:605-625` | x: i64 at -1 and rcx all ones: x == rcx is 0 in the source and 1 in the code; and 1 < rcx is 1 in the source and 0 in the code |
| `Folding.FoldIsExact` | `bootstrap/quarantine/c/frontend.c:1428-1552` | the folded numbers, of inner nodes too, are those the operations compute if and only if each is a value of its node's type |
| `FoldedNumbers.ConstantExactly` | `bootstrap/quarantine/c/frontend.c:1428-1552` | which trees are folded and to which number: sums and products below 2^64, differences of either sign, quotients with their remainder, bits by bits, and no operation on a negative operand |
| `FoldedNumbers.LiteralExactly` | `bootstrap/quarantine/c/frontend.c:1324-1339` | an integer type admits exactly the literals that are its values, and an unsigned one none under a minus |
| `FoldedNumbers.TypesExactly` | `bootstrap/quarantine/c/frontend.c:1755-1799` | which trees the type checker accepts and the type of each: literals within the expected type or u64 or i64, right operands held against the left one, folded numbers against what is expected, no division by what is folded to zero |
| `Folding.LoadedIsExact` | `bootstrap/quarantine/c/codegen.c:310-326` | the one constant that is loaded for a tree is the value its operations compute if and only if cutting every number on the way to the type of its node gives the same number |
| `Folding.LoadedWhenOperandsFit` | `bootstrap/quarantine/c/codegen.c:310-326` | it is, if every operand of a division, comparison, bit operation or shift in the tree is a value of its type; sums, differences and products on the way may be out of range |
| `Folding.OutOfRangeOnTheWay` | `bootstrap/quarantine/c/frontend.c:1770-1790` | M + M - M as i64 meets that condition and is loaded right though its inner sum is out of range |
| `Folding.FoldRefines` | `bootstrap/quarantine/c/frontend.c:1755-1799` | then the folded tree evaluates as the unfolded one, with registers, locals and calls among its operands |
| `Folding.FoldedCodeRuns` | `bootstrap/quarantine/c/codegen.c:310-326` | and the generated code, with the constant loaded, ends as the unfolded tree evaluates, for trees of the form that CoveredExactly describes |
| `Folding.CoveredExactly` | `bootstrap/quarantine/c/frontend.c:1755-1799` | an accepted tree as it is generated has the form that the simulation of its code asks for if and only if its loaded constants are values of their types and no operation in it misreads an operand |
| `Folding.AcceptedReadable` | `bootstrap/quarantine/c/frontend.c:1755-1799` | misreading or not, it has the form that RereadRuns is about if and only if its loaded constants are values of their types |
| `Folding.RegisterAccepted` | `bootstrap/quarantine/c/frontend.c:1613-1625` | a register is accepted on the right of every operand of its width, signed or not |
| `Folding.NegativeAgainstBool` | `bootstrap/quarantine/c/frontend.c:1680-1696` | flag < -5 is accepted, with the literal typed i64, and misread |
| `Folding.UnaryRefused` | `bootstrap/quarantine/c/frontend.c:1680-1714` | a tree with a unary operation other than the minus of a literal, anywhere in it, is refused |
| `Folding.ArithmeticFits` | `bootstrap/quarantine/c/frontend.c:1324-1339` | the check against the expected integer type gives that condition for trees without comparisons |
| `Folding.SameTypes` | `bootstrap/quarantine/c/frontend.c:1755-1799` | folding changes neither acceptance nor types |
| `Folding.BooleanSumFoldsToTwo` | `bootstrap/quarantine/c/frontend.c:1770-1790` | (true + true) == flag is accepted and loads 2 where the operations give 0 |
| `Folding.SignedSumFoldsTooFar` | `bootstrap/quarantine/c/frontend.c:1770-1790` | a folded i64 quotient that differs from the executed one |
| `Folding.ConstantComparisonRejected` | `bootstrap/quarantine/c/frontend.c:1776-1790` | a comparison of constants is refused wherever a bool is expected |
| `Parsing.Parser.ParseExpression` | `bootstrap/quarantine/c/frontend.c:1284-1310` | the cursor loop reads what precedence climbing defines, and stops where it stops |
| `Parsing.Parser.ParseArguments` | `bootstrap/quarantine/c/frontend.c:1013-1034` | call arguments with line breaks and a trailing comma |
| `ArgumentLines.CallRead` | `bootstrap/quarantine/c/frontend.c:1013-1034` | a call is read over any number of lines, breaks behind the parenthesis and around every comma, with or without a comma behind the last argument |
| `Parsing.ParseInvertsPrint` | `bootstrap/quarantine/c/frontend.c:1176-1310` | every tree over unary and binary operators and calls is read back whole from its minimally parenthesised form, left associative on every level, whatever follows that does not continue it |
| `Parsing.PrintIsShortest` | `bootstrap/quarantine/c/frontend.c:1284-1310` | no token sequence that is read as the tree is shorter than the printed one |
| `OperatorTable.TwoRead` | `bootstrap/quarantine/c/frontend.c:1206-1310` | of two operators between three operands, both from a list of levels from * / % down to ||, the left one is applied first if and only if it does not bind looser |
| `OperatorTable.PrefixRead` | `bootstrap/quarantine/c/frontend.c:1176-1205` | a prefix operator takes the operand before any other operator |
| `OperatorTable.ListedOnce` | `bootstrap/quarantine/c/frontend.c:1206-1283` | every operator token but ~ and ! has one place in the list |
| `NovaExpressions.LowerComputes` | `bootstrap/quarantine/c/nova.c:2072-2185` | a lowered expression computes the source value with the same effects in order, or returns with the same first error at the same position; the typing assumed is what parsing and coercion leave: operands of one signedness for comparisons and divisions, bool for logic, any integer types for casts and shifts; of an element access the index type is assumed besides |
| `NovaMeaning.OperationExact` | `bootstrap/quarantine/c/nova.c:2128-2169` | the value of each operation in its type, and the errors: 5 for a zero divisor, 11 for the quotient that does not fit, 12 for a count from the width on, at the position of the operation |
| `NovaMeaning.ValuesHaveTypes` | `bootstrap/quarantine/c/nova.c:731-784` | every value of an expression lies in the range of the type that the expression has |
| `NovaMeaning.LengthAsks` | `bootstrap/quarantine/c/nova.c:1675-1720` | the lowered length asks operation 10 of a runtime of version 2 with the entry and at least 120 bytes, is error 6 without one, and an error it answers gets a position if it has none |
| `NovaMeaning.StoreAsks` | `bootstrap/quarantine/c/nova.c:2021-2071` | a store to a member resolves its eight bytes for writing before and after its value is evaluated |
| `NovaRuntime.ElementReadsArea` | `bootstrap/quarantine/c/nova.c:1951-1985` | with the callbacks of the runtime behind its table: the lowered code of x[i] loads the bytes of the element from the area its handle stands for, or returns the bounds error when they are not all in it |
| `NovaRuntime.LengthOverRuntime` | `bootstrap/quarantine/c/nova.c:2072-2090` | likewise len(x) is the number of whole elements of that area |
| `NovaCasts.CastConverts` | `bootstrap/quarantine/c/nova.c:1118-1134` | a numeric cast between any two integer types, signed ones included, is the two's complement conversion in the source meaning and in the lowered code |
| `NovaShifts.CountGuardExact` | `bootstrap/quarantine/c/nova.c:2148-2153` | the guard on a shift refuses exactly the counts outside 0 to width - 1, for every count of its type, if and only if that type is not signed |
| `NovaShifts.ShiftKeptExactly` | `bootstrap/quarantine/c/nova.c:2148-2169` | the lowered code of a shift gives the error for exactly those counts if and only if its count is not negative |
| `NovaShifts.NegativeCountPasses` | `bootstrap/quarantine/c/nova.c:731-755` | 1 << (0 - 1) is the least i64 in an i64 context and the shift error in a u64 one |
| `NovaIndexes.IndexKeptExactly` | `bootstrap/quarantine/c/nova.c:1951-1970` | the offset code of an element access keeps the source meaning for every index if and only if the index is unsigned or the element wider than a byte |
| `NovaIndexes.SignedByteLoadFails` | `bootstrap/quarantine/c/nova.c:1951-1970` | a load through a signed index of a byte buffer returns the bounds error for every index from zero up |
| `NovaIndexes.SignedByteStoreFails` | `bootstrap/quarantine/c/nova.c:2021-2071` | so does a store, before its value is evaluated |
| `NovaIndexes.SignedByteIndexLost` | `bootstrap/quarantine/c/nova.c:1208-1218` | b[i] with i: i64 and i == 0, evaluated in the model |
| `NovaIndexes.MachineCompares` | `bootstrap/quarantine/c/codegen.c:605-625` | the comparison that the backend emits reads both operands by the signedness of the left one |
| `NovaStatements.BlockCarries` | `bootstrap/quarantine/c/nova.c:2186-2244` | lowered blocks with loops, break and continue do what the source does at every fuel |
| `NovaStatements.BodyCorrect` | `bootstrap/quarantine/c/nova.c:1394-1528` | the caller of a lowered body sees the source value and status zero, or the source error and a non-zero status, never a trap |
| `NovaRuns.ReturningBlockNeverEnds` | `bootstrap/quarantine/c/nova.c:1380-1393` | a block that passes the missing-return check never runs off its end |
| `NovaRuns.MoreFuelBlock` | `bootstrap/quarantine/c/nova.c:1459-1494` | a run that finished within its fuel ends the same way with more |
| `NovaCompiler.Compiler.LowerExpr` | `bootstrap/quarantine/c/nova.c:2072-2185` | the lowering that numbers temporaries and chains statements emits exactly the lowered code |
| `NovaCompiler.Compiler.LowerStatement` | `bootstrap/quarantine/c/nova.c:1394-1528` | likewise for statements, with the stack of loop labels restored |
| `NovaCompiler.Compiler.LowerStore` | `bootstrap/quarantine/c/nova.c:2021-2071` | the two address checks of a store, before and after its value |
| `X64RoundTrip.DecodeInvertsEncode` | `bootstrap/quarantine/c/x64.c:158-534` | a decoder written from the architecture manual gives back the operation and operands from the bytes, whatever follows, if and only if the accepted form is sound |
| `X64RoundTrip.EncodedIsCompact` | `bootstrap/quarantine/c/x64.c:96-157` | at most fifteen bytes, and the recorded displacement field holds the displacement |
| `X64RoundTrip.WideImulIsUnsound` | `bootstrap/quarantine/c/x64.c:353-387` | imul cx, dx, 0x1234 is accepted with a four-byte immediate |
| `X64RoundTrip.UnsizedIncIsUnsound` | `bootstrap/quarantine/c/x64.c:305-325` | inc of a memory operand without a width is accepted as a 32-bit one |
| `X64Encodable.EncodesExactly` | `bootstrap/quarantine/c/x64.c:38-534` | the encoder accepts exactly the operands of a table of kinds, widths, immediate ranges and register rules, and an error says what is wrong with them |
| `X64Golden.LoadIndexed` | `bootstrap/quarantine/c/tests_x64.c:147` | one of the encodings that the repository's tests ask for, here with base, index and scale; the module has one or more for each family |
| `X64Buffer.Instruction.ModRm` | `bootstrap/quarantine/c/x64.c:96-157` | the byte buffer receives exactly the prefixes, opcode, ModRM, SIB and displacement, or the same error |
| `Objects.Validate` | `bootstrap/quarantine/c/object.c:48-104` | accepts exactly the valid objects: all names in order and all patched ranges apart, not only neighbours |
| `ObjectRules.ValidExactly` | `bootstrap/quarantine/c/object.c:48-104` | valid objects are those that keep the rules in numbers: flags 2 to 5, 10 and 12, names in byte order, sites of four and eight bytes one behind the other, at most 64 MiB a section |
| `ObjectFiles.Write` | `bootstrap/quarantine/c/object.c:105-196` | writing succeeds exactly on writable objects and gives the file of the object |
| `ObjectFiles.Read` | `bootstrap/quarantine/c/object.c:227-336` | a byte string is accepted exactly when it is the file of a writable object, which is returned |
| `ObjectFiles.FileIsAccepted` | `bootstrap/quarantine/c/object.c:227-336` | the file of an object is read back as that object |
| `ObjectFiles.OneFile` | `bootstrap/quarantine/c/object.c:105-196` | an object has one file |
| `ObjectNumbers.HeaderNumbers` | `bootstrap/quarantine/c/object.c:105-150` | the header of a written file at its byte offsets |
| `ObjectNumbers.SectionNumbers` | `bootstrap/quarantine/c/object.c:105-160` | the section records: permissions 5, 1 and 3, alignment, size, and the bytes where the record says |
| `ObjectNumbers.SymbolNumbers` | `bootstrap/quarantine/c/object.c:160-196` | the record of every symbol, with its texts where the record says |
| `ObjectNumbers.RelocNumbers` | `bootstrap/quarantine/c/object.c:160-196` | the record of every relocation, its addend in two's complement |
| `ObjectFiles.Rewrite` | `bootstrap/quarantine/c/object.c:227-336` | what is read and written again is the same file |
| `ObjectFiles.Reread` | `bootstrap/quarantine/c/object.c:105-196` | what is written and read again is the same object |
| `Linker.Link` | `bootstrap/quarantine/c/object_link.c:60-177` | linking succeeds exactly on linkable units, gives their link, and that is always valid; an error states what is wrong |
| `Linker.Find` | `bootstrap/quarantine/c/object_link.c:27-40` | the binary search finds the name if it is there |
| `LinkSpec.LinkedOnce` | `bootstrap/quarantine/c/object_link.c:60-177` | units have one link |
| `LinkSpec.SectionIntact` | `bootstrap/quarantine/c/object_link.c:60-177` | each input section appears byte for byte at its own base |
| `LinkRules.BaseIs` | `bootstrap/quarantine/c/object_link.c:60-92` | sections begin at the first multiple of 16 behind the section of the unit before |
| `LinkRules.LinkableExactly` | `bootstrap/quarantine/c/object_link.c:60-135` | what can be linked: up to 64 valid units for one target, the limits on symbols, relocations and bytes, no name twice, and for every import an exported definition of its kind and contract |
| `LinkedPlaces.DefinitionPlaced` | `bootstrap/quarantine/c/object_link.c:119-145` | every definition of every unit is in the result under its name with the same section, size, flags and contract, its offset moved by the base of its unit's section, over the same bytes |
| `LinkedPlaces.SymbolPlaced` | `bootstrap/quarantine/c/object_link.c:119-145` | and every symbol of the result is such a definition |
| `LinkedPlaces.RelocationReaches` | `bootstrap/quarantine/c/object_link.c:146-177` | every relocation, its target defined in the unit or imported, is in the result over the same bytes and points to the placed definition that its target stands for |
| `LinkedPlaces.EntryPlaced` | `bootstrap/quarantine/c/object_link.c:146-177` | the entry of the result is the placed entry of the unit that has one |
| `LinkSpec.NameResolved` | `bootstrap/quarantine/c/object_link.c:60-177` | every name a unit uses is defined in the result, an import by the one definition that satisfies it |
| `LinkSpec.RelocationFollows` | `bootstrap/quarantine/c/object_link.c:60-177` | every input relocation has its image in the output: the same bytes patched and the definition of the same name targeted |
| `LinkSpec.RelocationsFollow` | `bootstrap/quarantine/c/object_link.c:60-177` | and every output relocation is the image of one |
| `LinkSpec.LinkedIsValid` | `bootstrap/quarantine/c/object_link.c:60-177` | a link is valid and closed, so the final validation never fails |
| `LinkSpec.OneClosed` | `bootstrap/quarantine/c/object_link.c:60-177` | a single closed object is its own link, and can be linked if and only if its payload fits 64 MiB |
| `LinkSpec.FullObjectNotLinkable` | `bootstrap/quarantine/c/object_link.c:75-90` | a valid closed object with 64 MiB of text and one byte of constants that cannot be linked |
| `LinkSpec.LinkAgain` | `bootstrap/quarantine/c/object_link.c:60-177` | a link links to itself |
| `Relocations.RelocationValue` | `bootstrap/quarantine/c/pe_layout.h:31-68` | the guarded 64-bit steps give the exact value or refuse, for all 64-bit addresses and addends |
| `Relocations.ValueReaches` | `bootstrap/quarantine/c/pe_layout.h:31-68` | a relative value leads from behind its site to target + addend, an absolute one holds base + target + addend |
| `Relocations.FittingValueRefused` | `bootstrap/quarantine/c/pe_layout.h:31-52` | a displacement that fits 32 bits can be refused |
| `RelocationNumbers.ValueExactly` | `bootstrap/quarantine/c/pe_layout.h:31-68` | when there is a value, in numbers, and that it represents the difference or the address |
| `RelocationNumbers.LayoutExactly` | `bootstrap/quarantine/c/pe_layout.h:10-30` | up to 16 MiB in each section and some text; each section begins on the next page behind the one before |
| `Relocations.Materialize` | `bootstrap/quarantine/c/object_materialize.c:22-81` | succeeds exactly on valid closed objects whose sections and values fit; every site holds its value, no other byte changes, absolute sites are listed in order |
| `RelocationNumbers.SitesHold` | `bootstrap/quarantine/c/object_materialize.c:22-81` | every site holds in its four or eight bytes the value for the addresses that site and target have in the image |
| `Relocations.MaterializedIsDirect` | `bootstrap/quarantine/c/codegen.c:1577-1600` | in the artifact of an object every relative site of the text holds in its bytes the displacement that direct generation computes over its own layout for the same symbol |
| `PeImages.MakePe` | `bootstrap/quarantine/c/ntasm.c:204-338` | succeeds exactly when the sections fit, entry and sites lie inside and no sites overlap; every byte of the file is as described |
| `ImageRules.PackableExactly` | `bootstrap/quarantine/c/ntasm.c:204-254` | which artifacts can be written: text with the entry in it, at most 16 MiB a section, and absolute sites inside their sections and eight bytes apart |
| `ImageNumbers.HeaderNumbers` | `bootstrap/quarantine/c/ntasm.c:255-338` | the headers of a written image at their byte offsets |
| `ImageNumbers.SectionNumbers` | `bootstrap/quarantine/c/ntasm.c:255-338` | the section headers: names, sizes, pages, positions and permissions |
| `ImageNumbers.AnchorIsEntry` | `bootstrap/quarantine/c/ntasm.c:304-318` | the first eight bytes of .rdata hold the entry's address under the image base, and are a relocation site |
| `PeImages.SitesAre` | `bootstrap/quarantine/c/ntasm.c:228-254` | the sorted sites are the anchor and the base relocations, each once, at least eight apart |
| `PeImages.PutTable` | `bootstrap/quarantine/c/ntasm.c:317-331` | the page-grouped writer fills the table that the first pass measured |
| `PeChecks.Inspect` | `bootstrap/quarantine/c/pe.c:37-140` | the inspector accepts exactly canonical images and counts their sites |
| `ImageRules.InspectedExactly` | `bootstrap/quarantine/c/pe.c:37-140` | canonical images by numbers: headers, sections that follow each other without gaps and are not both written and executed, an executed entry, and a site table in a section |
| `SiteTables.BlocksExactly` | `bootstrap/quarantine/c/pe.c:101-137` | the inspector accepts a site table exactly when it can be cut into blocks of ascending pages whose entries ascend and name eight bytes of a section; the sites ascend |
| `PeChecks.ValidatePe` | `bootstrap/quarantine/c/uefi-test/pe_validate.c:5-36` | the loader's validator accepts exactly images whose sections lie apart inside and whose entry is code |
| `ImageRules.LoadableExactly` | `bootstrap/quarantine/c/uefi-test/pe_validate.c:5-36` | in numbers: what the loader's validator accepts |
| `PeAccepted.ImageInspected` | `bootstrap/quarantine/c/pe.c:37-140` | every written file is accepted by the inspector, which decodes exactly the sorted sites from it |
| `PeAccepted.ImageLoads` | `bootstrap/quarantine/c/uefi-test/pe_validate.c:5-36` | and by the loader's validator, with entry 4096 + entry |
| `PeAccepted.MaterializedIsPackable` | `bootstrap/quarantine/c/object_materialize.c:22-81` | a materialised object can always be written |
| `PeAccepted.WriteAndCheck` | `bootstrap/quarantine/c/ntasm.c:204-338` | written, inspected and validated in one |
| `Handles.RunInvariant` | `bootstrap/quarantine/c/nova/runtime_v2.c:34-190` | every reachable table has allocated equal to the sum of live owned lengths, parent generations below their slices', and slices inside their parents |
| `Handles.NeverAgain` | `bootstrap/quarantine/c/nova/runtime_v2.c:34-50` | a handle that was given out and does not resolve never resolves again, slot reuse included |
| `Handles.ReleasedForever` | `bootstrap/quarantine/c/nova/runtime_v2.c:122-139` | in particular a released one |
| `Handles.ResolveExact` | `bootstrap/quarantine/c/nova/runtime_v2.c:51-76` | resolving succeeds exactly when the handle and all its ancestors live and the range lies inside, and gives the position in the root allocation |
| `Handles.DepthSuffices` | `bootstrap/quarantine/c/nova/runtime_v2.c:51-76` | a live chain is never longer than the depth limit of the walk |
| `Handles.SliceIsPart` | `bootstrap/quarantine/c/nova/runtime_v2.c:147-161` | a slice is a part of its parent in the same root |
| `Handles.SliceDiesWithAncestor` | `bootstrap/quarantine/c/nova/runtime_v2.c:122-139` | releasing an ancestor ends every slice of it for good: after any further operations no access through one succeeds |
| `HandleOutcomes.SliceDiesWithRoot` | `bootstrap/quarantine/c/nova/runtime_v2.c:122-139` | once the root of a chain of slices is released no access through the chain succeeds again |
| `HandleContents.AllocationStands` | `bootstrap/quarantine/c/nova/runtime_v2.c:102-121` | until its handle is released, after any operations, an allocation has the length it was made with, and a range of it is that range of the memory the allocator gave |
| `HandleContents.BorrowStands` | `bootstrap/quarantine/c/nova/runtime_v2.c:93-101` | so does borrowed memory, with the permission it was given |
| `HandleContents.LiteralStands` | `bootstrap/quarantine/c/nova/runtime_v2.c:175-190` | so does a literal |
| `HandleContents.SliceStands` | `bootstrap/quarantine/c/nova/runtime_v2.c:147-161` | and a slice is its part of what its parent stands for |
| `HandleOutcomes.AllocateOutcome` | `bootstrap/quarantine/c/nova/runtime_v2.c:102-121` | an allocation succeeds exactly within 64 MiB, 256 MiB altogether and 65536 slots, and is error 4 or 6 otherwise |
| `HandleOutcomes.BorrowOutcome` | `bootstrap/quarantine/c/nova/runtime_v2.c:93-101` | borrowing is error 10 for null memory, 4 beyond 64 MiB and 6 without a slot, and succeeds otherwise |
| `HandleOutcomes.SliceOutcome` | `bootstrap/quarantine/c/nova/runtime_v2.c:147-161` | a slice of what a handle stands for is given exactly when it lies inside and there is a slot |
| `HandleOutcomes.ReleaseOutcome` | `bootstrap/quarantine/c/nova/runtime_v2.c:122-139` | only the length of a handle releases it, and gives back what it was allocated with |
| `Handles.AddFailsExactly` | `bootstrap/quarantine/c/nova/runtime_v2.c:77-92` | a slot is given out unless the generations have run out or every slot of the table is live |
| `Handles.ErringOperationExact` | `bootstrap/quarantine/c/nova/runtime_v2.c:94-190` | an operation that reports an error changes nothing else if and only if it is not an empty slice of a live handle that has lost an ancestor, with a slot to take |
| `Handles.DeadAncestorTakesSlot` | `bootstrap/quarantine/c/nova/runtime_v2.c:147-161` | allocate, slice, release the allocation, take an empty slice of the slice: the error is set and a slot is taken |
| `Handles.ErrorSticks` | `bootstrap/quarantine/c/nova/runtime_v2.c:26-33` | once an error is set nothing changes any more |
| `RuntimeV2.Runtime.ResolveHandle` | `bootstrap/quarantine/c/nova/runtime_v2.c:51-76` | the walk over the slots in place |
| `RuntimeV2.Runtime.AddBuffer` | `bootstrap/quarantine/c/nova/runtime_v2.c:77-92` | the cursor search over the slots in place |
| `RuntimeV2.Runtime.ReleaseHandle` | `bootstrap/quarantine/c/nova/runtime_v2.c:122-139` | the slot is emptied in place and the accounting lowered, or the error set |
| `RuntimeV2.Runtime.SliceHandle` | `bootstrap/quarantine/c/nova/runtime_v2.c:147-161` | takes a slot that points to its parent, in place |
| `RuntimeV2.Runtime.LengthOf` | `bootstrap/quarantine/c/nova/runtime_v2.c:162-174` | gives the length of a live handle and sets the error of a broken chain |
| `RuntimeV2.Runtime.BorrowBytes` | `bootstrap/quarantine/c/nova/runtime_v2.c:93-101` | takes a slot for memory it does not own |
| `RuntimeV2.Runtime.AllocateBytes` | `bootstrap/quarantine/c/nova/runtime_v2.c:102-121` | clears exactly the area it hands out |
| `RuntimeV2.Runtime.LiteralBytes` | `bootstrap/quarantine/c/nova/runtime_v2.c:175-190` | the area holds the constant |
| `RuntimeV2.Runtime.CopyBytes` | `bootstrap/quarantine/c/nova/runtime_v2.c:309-326` | overlapping handles included, the destination gets what the source held before, nothing else changes, and an error changes no memory |

## Findings

Properties that the code does not have in full. Each has a lemma that evaluates a failing input in
the model, and a theorem that says exactly when the property holds.

- **Operands of different types** (`MixedOperands`, `RereadFunctions`). The type checker takes a raw
  register for unsigned and compares only its width with what is expected, and gives a negated
  literal that is expected to be a bool or a pointer the type i64. The generator then goes by the
  type of the left operand. So with x: i64 a 64-bit register in `x == rcx`, `x < rcx` or `x / rcx` is
  read as signed, and `y == ecx` with y: i32 is right. Over all accepted pairs of operand types, the
  code of an operation is right for all values if and only if it does not misread its right operand
  (`Misread`), and `x op reg` keeps its meaning if and only if op is neither comparison nor division,
  or x is unsigned, or the register is narrower than 64 bits. The simulation theorems up to
  `FunctionCorrect` are about trees that misread nothing (`Folding.CoveredExactly`). For misreading
  ones too, `RereadRuns` and `FunctionRereads` say that the code does what the tree or the body means
  with its misread operands reread, and `KeepsExactly` that in a given state this is the source
  meaning if and only if the tree has the same outcome reread.
- **Unary operators** (`Folding.UnaryRefused`). The case of unary operators in the type checker runs
  into that of string initialisers, so `-x`, `+x` and `~x` are parsed and folded but refused with the
  diagnostic for strings; only the minus of a literal is accepted.
- **Calls in statements** (`StatementRuns`, `CallsInStatements`). The verifier asks for everything a
  statement reads in the state before it, and looks at a returned pointer in that state too. So `do
  f() + rcx`, where f assigns rcx, is refused though no execution faults (`ReadAfterCallRefused`), and
  `return f()`, where f changes a register that held a declared output pointer, is accepted though its
  execution hands back none (`CallInReturnAccepted`). Evaluated node by node, an expression goes
  through if and only if its locals are bound and each register bit was assigned before it is read,
  by an earlier call of the expression at the latest (`GoesExactly`); and no execution of an accepted
  function faults if and only if the calls of its return statements leave the declared pointers alone
  (`SafeRunsExactly`).
- **Merged pointers** (`Conformance`, `MergedPointers`). Where paths meet, pointers of different
  types in a register merge into no pointer. So an access through it is refused even if the
  annotation fits each of them, as for a pointer to a byte and one to an array of bytes
  (`FittingPointersRefused`). Accesses pass if and only if on every execution they go through a
  fitting pointer and no two executions disagree about its type.
- **Pointers taken for scalars** (`PointerChecks`). The same merge makes the checks that a register
  holds no pointer, for indices, scalar values and operands of arithmetic, accept a register that
  holds a pointer on every execution, of one type here and another there
  (`PointerPassesAsScalar`). Such a check passes if and only if the register holds no pointer on some
  execution or pointers of different types on two. The checks for a pointer of a given type pass if
  and only if every execution arrives with one.
- **Signed indices of byte buffers** (`NovaIndexes`). The index of an element may have any integer
  type, but for an element of one byte the bounds guard compares with 2^64 - 1, and the backend
  compares by the signedness of the left operand. So with a signed index every `b[i]` with i from
  zero up fails with the bounds error. The access is right if and only if the index is unsigned or
  the element is wider than a byte.
- **Negative shift counts** (`NovaShifts`). Parsing refuses signed shift counts, but a constant
  shift is given the type of its context afterwards, and its count with it. The guard then compares
  with the sign, so a negative count passes: `let x: i64 = 1 << (0 - 1)` is 1 shifted by 63, where
  the same count in a u64 context is the shift error. The guard is right for every count of its type
  if and only if the type is not signed, and a shift does what it should if and only if its count is
  not negative.
- **Narrow outputs** (`NarrowOutputs`). After a call the generator stores all 64 bits of an output's
  register, so bits outside a narrow output are what evaluation left there. `f(x << y)` with `in n:
  u64 @rdx, out v: u8 @cl` loses the old rcx above the byte. `Leftovers` says what evaluation leaves
  in each register, and the promise is kept if and only if that agrees with the source outside the
  field. The simulation theorems need a condition on the tree alone, that no code emitted before the
  call writes the rest of the register. That is sufficient for every tree. It is necessary for
  keeping the promise whatever the register held before when no argument makes a call or reads the
  register, but not for all trees: the count of `f(x << rcx)` is the old rcx itself
  (`KeptThoughWritten`).
- **Constant folding** (`Folding`). A folded value is checked against the expected type, not against
  the type of its own node, and nothing is expected to the left of a comparison. `(true + true) ==
  flag` loads 2, and a leading `-0` makes an unchecked signed operand. Every folded number, inner
  ones included, is exact if and only if each is a value of its node's type; the one that is loaded
  is exact if and only if cutting at every node gives the same number, which it does if the operands
  of divisions, comparisons, bit operations and shifts are values of their types. Also, a comparison
  of two constants is refused wherever a bool is expected, though the same comparison of variables
  is accepted.
- **Three-operand imul** (`X64RoundTrip`). With 16-bit operands and an immediate that does not fit a
  signed byte the encoder emits four immediate bytes where a processor reads two. And it accepts
  memory operands of width 0 and 80 for `inc`, `dec`, `not`, `neg`, shifts, `mul`, `div` and `test`
  with an immediate, as 32-bit operations. Through the code generator the width of a memory operand
  comes from its pointer type (codegen.c:865-874): it is 0 for `invlpg` and for elements without a
  scalar width, and 80 only for the descriptor-table instructions; for the listed operations such
  widths are reached only by callers of the encoder itself.
- **Relocation values** (`Relocations`). A relative value that fits 32 bits is refused when target +
  addend exceeds the signed 64-bit range. The sections of an image are far too small for that, so
  materialisation is exact.
- **Linking one object** (`LinkSpec.OneClosed`). A closed object links to itself only if its three
  sections together have at most 64 MiB, although a valid one may have 64 MiB in each
  (`FullObjectNotLinkable`).
- **Slices of dead ancestors** (`Handles`). An empty slice of a live handle that has lost an
  ancestor sets the error and still takes a slot, so an operation that errs can change the table.
  One that errs changes nothing else if and only if it is not such a slice with a slot to take.
  After an error nothing changes any more.

Where documentation and code differ, the code is modelled: the message "buffer index must be
unsigned integer" (nova.c:1216) is given for types that are no integers at all, and "numeric casts
require an unsigned integer" (nova.c:1123) likewise.

## Left out

- Cfg.Builder.Build: says nothing about which bodies are refused as malformed graphs, because only acceptance is used.
- Conformance.VerifyGraph: the write-permission prover is an arbitrary answer, so refusals for write permission are not shown to have an offending execution; the pointer checks are those of Dataflow.Analysis.Check.
- Dataflow.Analysis.Check: of the pointer checks, those of the base register of a memory access and of the outputs at a return are modelled; those of index registers, stored values, arguments and operands are not part of it (PointerChecks says of a single register what they accept). Instruction footprints are data.
- ExpressionProof.CodeSimulates: a tree with a misread operand (MixedOperands.Misread) does not have the property and is excluded, here and in what rests on this except MixedOperands.RereadRuns and RereadFunctions.FunctionRereads; memory is a map from addresses to 8-byte slots, so an access that overlaps two slots reads as unknown rather than as their bytes; frames are aligned by the layout, and data memory of the program is not part of the machine.
- Functions.FunctionCorrect: labels, jumps, machine-instruction statements and the high-level expression mode are not modelled, and the body of a callee is its behaviour.
- Functions.ShortFunctionCorrect: which functions ask for an aligned stack is given as a flag.
- Folding.FoldRefines: named constants stand for their folded initialisers, and logical operators are outside because the generator does not lower them.
- Parsing.Parser.ParseExpression: builds trees instead of numbered nodes with spans; macro splices, memory operands and intrinsics count as atoms.
- NovaExpressions.LowerComputes: allocation, slicing, record construction, byte literals, the first language version and the lowering budget are not modelled; runtime calls act as one step that may also report an error.
- NovaStatements.BodyCorrect: a run is bounded by fuel, which only counts backward jumps.
- X64RoundTrip.DecodeInvertsEncode: privileged, descriptor-table and port instructions and the effect masks are not modelled.
- ObjectFiles.Write: a record is written word by word where the code writes some fields as 64-bit values.
- Linker.Link: sorting by the C library is any sorting function with its result.
- Relocations.MaterializedIsDirect: direct generation is its displacement formula; the tables in which it looks up its functions and data are not modelled.
- PeImages.MakePe: headers are written in 32-bit words where the code writes some 16-bit fields.
- RuntimeV2.Runtime.AllocateBytes: the allocator's answer is a parameter, and memory is one array.
- File handles, reading and writing of files, and the older runtime: input and output only.
- Command lines, diagnostics text, running out of memory, ownership of buffers, and the compilation of whole programs to objects.
- Macros, contract text, stub tables and interrupt stubs: large and mostly case lists.
