# Tiara toolchain: model and proofs

Tiara offloads short operators to a network card. An operator is written in a restricted C or in assembly, assembled
into 64-bit words, checked by a static verifier before registration, and run by a small machine with sixteen
registers, a loop stack and a queue of asynchronous copies. This project models that chain as the TypeScript engine
implements it and proves what its stages promise each other.

| file | what it holds |
|---|---|
| Prelude, Isa, BitExact | 64-bit words, opcodes, word packing, unified addresses; what the bitwise operations compute |
| Machine, Vm | the step function on values; the machine object that refines it |
| Termination, Structured, LoopShape | halting without the step limit; the flat loop stack against structured loops; the frames as the loops around the pc |
| Verifier, VerifierSound, StepBound, StepBoundSound, VerifierExact | the scan and its specification; soundness over runs; the static step bound; precision and the exact verdict |
| Footprint, AccessSound | the words an instruction touches; memory safety and isolation of whole runs |
| SideConditions, AccessGaps | concrete programs showing that the side conditions of those theorems are needed; what the verifier does not check |
| Completion, CompletionLimits, InFlight, Clock, Copy | the completion queue, WAIT and the RET barrier; where WAIT does not wait; the reported copies in flight; the time a run takes; the MEMCPY word loop |
| Assembler, AssemblerExact, AssembledHalts | both passes, label resolution, the pc map; what assembles; whatever assembles halts |
| Ast, Lowering, Compiler | syntax trees; lowering as functions; the symbol table and compiler objects that refine them |
| CodeTree, CodeWords | emitted code as a tree; assembling the tree gives words that do what it does |
| Conversions, Source | C's conversions written out; the meaning of a function: an interpreter over integers mod 2^64, run on that form |
| CMeaning, CSource | C's typed value of an expression, and that the explicit form computes it; C's meaning of statements, which the interpreter's is wherever it has one |
| ExprCorrect, StmtRules, StmtCorrect, CompilerCorrect | the compiler preserves meaning |
| CompiledShape, CompiledAssembles, CompiledBound | what all compiled code looks like; when it assembles; when the verifier's bound holds of it |
| RegisterNeed, CompilerAccepts, CompilerBuilds | which sources compile; from a condition on the source to the run |
| AcceptedSources, ShippedSources, Shipped | every operator from token to result; the shipped C examples; the shipped operators |
| CompilerLimits, CompilerDepartures, LoopDepartures | sources on which the compiler departs from C or from its own limits, with what each does instead |
| Parser, ParserCorrect, ParserSound, Grammar | the expression parser, its class, its grammar in both directions, the minimal printer; the standard's productions |
| Toolchain | the stages joined as methods |

Code the original writes as objects and loops (the machine, the verifier's scan, both assembler passes, the symbol
table, the compiler, the parser) is a class or a method with loops here, each proved equal to a function on values;
the theorems are about those functions.

## How the theorems fit together

*Machine.* `FlatRefinesStructured` replaces the loop stack by structured loops. A program is well nested when loop
bodies nest, are not empty, and every JUMP goes forward to an item boundary of its own block, the end of the block
included. `Terminates` needs no nesting, only positive immediates.

*Verifier.* The scan follows fall-through order and never joins states, so soundness cannot hold of all accepted
programs. `EdgesOk` is what the scan takes for granted: each JUMP, zero-count skip and back edge leads to a place
whose abstract state contains the one it leaves, both interval ends wrap equally often, and MEMCPY status goes to r0.
Under it the base registers stay in their regions in every run; `SideConditions` has an accepted program for each part
that goes wrong without it. The scan asks this of all sixteen registers; `AnnotatedRunsStayInRegions` takes any
annotation the edges respect, so registers nothing uses can be left out of it.

The check, and these theorems, are about base registers. LOAD and STORE add their immediate afterwards, a MEMCPY runs
on from its base, and the end of a region counts as inside, so the documented guarantee fails of accepted programs,
the shipped graph_walk among them (`AccessGaps`). `AccessSound` says what restores it: at every memory instruction the
bytes reachable from the interval fit in a declared region. Then all accesses of all runs lie in regions, nothing else
changes and nothing else matters. The step bound needs less: `BoundHoldsForArgumentCounts` asks only that no count
register is written before its loop or inside the outermost loop around it. "Inside its own loop" would not do, as
`OuterWritesBreakBound` shows.

*Compiler.* Source statements become a tree of instructions, loops and skipped code; the tree becomes lines, and the
lines words. `FuncOk` states what the correctness theorem covers: names are used as C's scopes want and none is
declared again while in scope (so that the interpreter's flat variable map does for C's block scopes); constants and
the byte offsets of constant indices lie in the signed 40-bit range and constant masks are not negative; no `<<=` or
`>>=`; the index of a compound assignment's target, which the compiler evaluates twice, has no copy, swap or atomic
add in it; the body is its own explicit form; an induction variable is read only where its register still starts at
zero, which is a loop outside all loops whose register no earlier code has written.

The interpreter is as strict as the compiler needs. Besides reads of uninitialised variables and operators outside the
subset it fails on sources that are valid C: where one reads a parameter whose register has taken a result, assigns a
parameter whose register holds one, changes a loop's bound or induction variable in its body, or declares a name again
in scope. On these the compiler departs from C, as it does on negative masks, large constants, `<<=`, stale induction
registers, the repeated index and the two conversions. `CompilerLimits`, `CompilerDepartures` and `LoopDepartures`
have a source for each, with what C and the machine return for all inputs, mostly with the exact inputs on which they
agree. `CSource` gives statements C's meaning, with block scopes and without registers, and `SourceIsC` shows that the
interpreter errs on the safe side: where it has a meaning, it is that one.

From source to bound: if every loop counts to a parameter that nothing assigns and no result overwrites, the step bound
of an accepted compiled program holds without any hypothesis on its words (`CompiledWithinBound`).

The compiler drops all types. `Conversions` writes out what they mean: a pointer step counts bytes of the pointee, a
cast to a narrower unsigned type masks. A body that is its own explicit form has no step on pointers to anything but
bytes and no narrowing cast, except of constants that fit. The explicit form does not exist, and the meaning is an
error, for variables and elements of fewer than 64 bits, casts to narrower signed types, possibly negative integers
shifted right or compared or divided without an unsigned 64-bit operand, and names declared again in scope.
`uint64_t`, `u64` and `int64_t` are `unsigned long`, as docs/COMPILER.md says; literals, comparisons and induction
variables are 64-bit integers; shift amounts count mod 64. `CompiledMatchesSource` takes acceptance as a hypothesis.

*Acceptance.* Each stage refuses exactly what it should. `AcceptedIff` is the verifier's verdict on well-nested
programs, `AssemblesIff` the assembler's on any lines, `CompilesIff` the compiler's on sources, read off the tree by
counting the registers each construct takes: a computed index never gives back the register of its sum. `Covered`
collects what a source needs to be built and to mean what it says, so `CoveredMatchesSource` runs from source to
machine with nothing assumed of the stages between, and the shipped C examples are instances.

*Parser.* A concrete syntax with parentheses, unary pluses and cast types stands between tokens and trees. The parser
accepts exactly what the standard's productions derive. It treats `(f)(x)` as a call like `f(x)`, and `(int` always as
a cast.

## Where documentation and code differ

The model follows the code. RET returns r1 to r4 although docs/ISA.md and a comment name r0 to r3. LOOP's frame ends
at pc + 1 + imm, where docs/ISA.md says pc + imm. docs/ISA.md and the header of web/src/engine/verifier.ts require
every address to be inside a region; the check covers base registers and accepts the end address itself, so
sw/operators/graph_walk.tasm can read the word after its pool. docs/COMPILER.md describes the Python compiler, which
emits no induction increment; the TypeScript compiler emits one so that the variable is usable in the body, but never
zeroes its register. web/src/engine/cc.ts lists `<<=` and `>>=` as assignments and folds them by their first
character. docs/ISA.md has WAIT stall until `InFlight <= imm40` and an asynchronous copy count itself in on completion;
the code counts at issue and stops at 32, so a WAIT after more copies than that ends with some outstanding.

## Representation

Shifted bit fields are disjoint, so packing with `|` is written as a sum; `|` of over-long manifest fields is modelled
bit by bit. `ceil(length / 60.5)` is exact rational arithmetic. Words are integers below 2^64 with masking written
out, and every operator is total as in the original. JavaScript's sort of numbers is a sort of integers. Errors carry
no text. Fetching an undefined word, which throws in the original, is a state that cannot step. Printed operands that
the assembler would reject (a negative mask in hexadecimal) are a `Malformed` line.

## Model

| member | source | states |
|---|---|---|
| Isa.DecodeAfterEncode | web/src/engine/isa.ts:113-161 | Encoding accepts every opcode byte, register and sub below 16 and immediate in [-2^39, 2^40); decoding gives every field back, the immediate unchanged exactly in the signed range and 2^40 lower above it |
| Isa.EncodeAfterDecode | web/src/engine/isa.ts:113-161 | Encoding the decoded fields of any 64-bit word, known opcode or not, rebuilds the word |
| Isa.EncodeFaithful | web/src/engine/isa.ts:194-218 | Whenever an instruction encodes, it has as many words as its opcode wants, its first word decodes to its fields and its second carries the extra register |
| Isa.SplitAfterMake | web/src/engine/isa.ts:223-255 | Packing device, region and offset succeeds exactly in range, and splitting gives the three back |
| Isa.MakeAfterSplit | web/src/engine/isa.ts:223-255 | Packing the parts of any 64-bit address rebuilds it |
| Shipped.GoldenEncodings | web/src/engine/golden.json:3-57 | One instruction of each kind in the shipped operators encodes to the words the repository's golden vectors have, second words included |
| BitExact.LogicBits | web/src/engine/vm.ts:527-532 | For every k below 64, bit k of AND, OR and XOR is one exactly when both, either, or exactly one of the operands have it; machine, interpreter and C reference share these three operations |
| BitExact.LogicSums | web/src/engine/vm.ts:527-532 | `(a \| b) + (a & b) == a + b` and `(a ^ b) + 2 * (a & b) == a + b`, without overflow, for all words |
| BitExact.ShiftsMoveBits | web/src/engine/vm.ts:533-536 | A left shift moves every bit up by the amount mod 64 and brings in zeros; a right shift is the floor of the quotient by that power of two |
| Termination.Terminates | web/src/engine/vm.ts:234-251 | If every word that decodes as JUMP or LOOP has a positive immediate, every run halts for all arguments and memory, nested well or not, without the step limit, within a bound that depends on the code length only (by throwing on an undefined word only if the last word starts a two-word instruction) |
| Termination.StepPays | web/src/engine/vm.ts:324-351 | The measure behind it: every live step costs at least one unit of a potential over (remaining, progress) per frame and keeps frame starts strictly increasing up the stack with the pc at or after the top one |
| Termination.StaysOrdered | web/src/engine/vm.ts:234-251 | In every reachable state of such a program the frames are ordered, so the stack is never deeper than the pc |
| Termination.SelfJumpRunsForever | web/src/engine/vm.ts:324-333 | The condition is needed: a JUMP of zero is alive after every number of steps |
| Structured.FlatRefinesStructured | web/src/engine/vm.ts:234-251 | On a well-nested program the flat loop stack ends in the same data, status and pc, after the same number of steps, as a semantics in which LOOP runs its body exactly count times, count read once at entry, zero counts and shared end pcs included |
| Structured.LoopRuns | web/src/engine/vm.ts:335-351 | A LOOP met with any frames open leaves the machine past its body, those frames open, after exactly count runs of the body or at the halt inside it |
| Structured.RepeatRuns | web/src/engine/vm.ts:234-251 | With n iterations left on the top frame, resolving loops at the end pc runs the body n times and then continues at the end pc of the frames below |
| LoopShape.FramesAreEnclosingLoops | web/src/engine/vm.ts:234-251 | In every running state of a well-nested program the pc is at an instruction, the frames are exactly the loops around it, outermost first, and each has between one and count iterations left |
| LoopShape.RunStaysInside | web/src/engine/vm.ts:461-471 | The inductive invariant of every run: the pc is an item boundary of the innermost open body, and each frame is the body of a LOOP of the block below it |
| Verifier.RunVerifier | web/src/engine/verifier.ts:171-303 | The verifier with its two loops and mutable report computes the specification Verify: verdict, static bound and largest in-flight count |
| Verifier.Decode | web/src/engine/verifier.ts:189-196 | The decoding loop lists exactly the linear sweep of the words |
| Verifier.CheckAddrReg | web/src/engine/verifier.ts:101-152 | An address register passes exactly when its interval is known and lies in its region, closed at the upper end, or in some declared region when it has none |
| Verifier.Scanner.CheckInstr | web/src/engine/verifier.ts:222-281 | The whole new scanner state after the checks and the abstract effect of one instruction |
| Verifier.Scanner.VisitInstr | web/src/engine/verifier.ts:213-287 | One turn of the scan: popped frames, multiplied bound, checks, abstract effect and the early stop |
| VerifierSound.AnnotatedRunsStayInRegions | web/src/engine/verifier.ts:101-152 | Over every run: with abstract registers at each place that every edge of the control flow respects (MEMCPY status included, dead registers unconstrained) and against which the base registers of memory instructions pass the verifier's address check, those bases lie in [base, base + size] of a declared region after any number of steps; the verifier need not have accepted |
| VerifierSound.EdgesInductive | web/src/engine/verifier.ts:213-287 | The scan's own abstract state is such an annotation whenever it is sound along every edge |
| VerifierSound.AcceptedRunsStayInRegions | web/src/engine/verifier.ts:101-301 | The instance for the scan: in every run of an accepted program with in-bounds arguments, after any number of steps, the base register of the memory instruction about to run (both of a MEMCPY) lies in [base, base + size] of a declared region, if the control-flow edges respect the scan, interval ends wrap together and MEMCPY status goes to r0 |
| VerifierSound.StepSound | web/src/engine/vm.ts:253-490 | The inductive step: whatever the instruction, the frames and the memory, registers within the annotation before a step are within it after, loop resolution included |
| VerifierSound.ComputeSound | web/src/engine/verifier.ts:154-169 | Each abstract operation contains the result of the machine operation whenever both interval ends wrap equally often |
| VerifierSound.AcceptedVisit | web/src/engine/verifier.ts:213-287 | Every instruction the sweep of an accepted program visits passed its checks against the abstract registers there, and the scan did not stop early |
| VerifierExact.ComputeTight | web/src/engine/verifier.ts:154-169 | The converse: for LI, ADDI, SHLI and ADD on known operands, whenever both ends wrap equally often, the ends of the abstract result are the least and the greatest value the machine computes from words of the operands |
| VerifierExact.MaskTight | web/src/engine/verifier.ts:80-84 | ANDI gives 0 to the mask whatever its operand, which is exact when the operand may be any word |
| VerifierExact.KnownExactly | web/src/engine/verifier.ts:154-169 | The abstract result is known for LI and ANDI always, for ADDI and SHLI exactly on a known operand, for ADD exactly on two, and for no other operation |
| VerifierExact.TagKept | web/src/engine/verifier.ts:70-84 | ADDI keeps the region of its operand, ADD that of the left or else of the right one, everything else drops it |
| VerifierExact.AddressChecked | web/src/engine/verifier.ts:86-152 | What the check of a base register decides: the interval is known and lies in [start, start + size] of a declaration that is the last of its device and id, its own if it has one, some declaration otherwise; the start is the packed address whenever the fields are in range |
| VerifierExact.AcceptedIff | web/src/engine/verifier.ts:171-303 | The verdict, exactly: a well-nested program is accepted if and only if it has at most 1024 words, a RET, a cost of at most maxDynamic steps, jumps and loops that go forward and stay inside, at most eight nested loops, no illegal opcode, copy lengths from 0 to 2^32 and base registers that pass |
| InFlight.InFlightExact | web/src/engine/verifier.ts:252-300 | The reported number of copies in flight, exactly: on an accepted straight-line program whose copies are asynchronous the machine's counter reaches it and never exceeds it, in every run |
| Shipped.PageWalkAccepted | sw/operators/page_table_walk.tasm:24-50 | The words of the shipped page-table walk are accepted under its own manifest |
| StepBound.BoundIsCost | web/src/engine/verifier.ts:213-298 | The bound the scan reports equals the cost of the program as a tree, each body once per iteration estimate of the loops around it, and is at most maxDynamic |
| StepBound.ScanDepth | web/src/engine/verifier.ts:216-249 | At every instruction the scan holds as many frames as there are loops around it |
| StepBound.ClampIsHarmless | web/src/engine/verifier.ts:246-249 | In any accepted program, well nested or not, the count of every LOOP is known and its upper end below maxDynamic, so the clamp never decides |
| StepBound.StackNeverExceedsLimit | web/src/engine/verifier.ts:242-245 | The loop stack of an accepted well-nested program never holds more than eight frames in any run, although the machine does not check its depth |
| StepBoundSound.BoundHolds | web/src/engine/verifier.ts:213-298 | With any inductive annotation of registers that covers the loop counts, every run from a state it models has ended after staticStepBound steps and retired no more |
| StepBoundSound.BoundHoldsUnderEdges | web/src/engine/verifier.ts:213-298 | In particular whenever the scan is sound along every edge |
| StepBoundSound.BoundHoldsForArgumentCounts | web/src/engine/verifier.ts:213-298 | In particular for an accepted well-nested program with in-bounds arguments whose count registers are not written before their loop or inside the outermost loop around it: it ends within staticStepBound, at most maxDynamic, steps |
| StepBoundSound.BlockRetires | web/src/engine/vm.ts:473-473 | The retired-instruction counter of a block advances by exactly its number of steps |
| AccessSound.AccessesStayDeclared | web/src/engine/verifier.ts:254-274 | Every access of every run, LOAD, STORE, CAS, CAA and each word of a MEMCPY, lies with its eight bytes in a declared region, if at every memory instruction the bytes its annotation can reach, immediate and copy extent included, fit in one |
| AccessSound.UndeclaredUnchanged | web/src/engine/verifier.ts:254-274 | Under the same condition no run changes a word outside the declared regions |
| AccessSound.RunsIsolated | web/src/engine/verifier.ts:254-274 | Under the same condition words outside the declared regions have no influence: two runs that differ only there agree in registers, flags, results, timing, frames, pc and declared memory after every number of steps |
| AccessSound.ScannedRunsAreSafe | web/src/engine/verifier.ts:171-303 | All three from entry with the scan's own state as annotation: under EdgesOk and in-bounds arguments, when offsets and extents fit as well as bases |
| AccessSound.FitsExactly | web/src/engine/verifier.ts:101-152 | The condition on one instruction is exact: it holds precisely when all words reached from all values of the interval lie in the region, wrap-around included, for every region that ends within the address space and is not all of it |
| AccessSound.FitsPlainly | web/src/engine/verifier.ts:101-152 | Without wrap-around it says that lo + offset is at least the base and hi + offset + 8 words at most the end |
| Footprint.WorkFrame | web/src/engine/vm.ts:286-460 | An instruction changes no word it does not touch |
| Footprint.WorkDepends | web/src/engine/vm.ts:286-460 | On memories alike in every touched word an instruction leaves them alike wherever they were alike |
| AccessGaps.OffsetUnchecked | web/src/engine/verifier.ts:266-274 | The verifier does not check offsets: for every immediate an accepted program meeting EdgesOk loads at that offset from the last word of its region, and the access is inside exactly for offsets down to the start of the region and up to 0 |
| AccessGaps.OffsetConditionDecides | web/src/engine/verifier.ts:266-274 | For the same program the condition on accesses holds exactly when the offset is 0 |
| AccessGaps.EndIncluded | web/src/engine/verifier.ts:137-140 | The end of a region counts as inside: an accepted program loads from every base up to base + size, and is inside exactly when eight bytes are left |
| AccessGaps.ExtentUnchecked | web/src/engine/verifier.ts:254-265 | Copy extents are not checked: for every immediate length up to 2^32 an accepted program copies that much from the last word of its region, inside exactly up to eight bytes |
| AccessGaps.LengthRegisterUnchecked | web/src/engine/verifier.ts:260-265 | The same for a length in a register, which nothing constrains |
| AccessGaps.GraphWalkReadsPastPool | sw/operators/graph_walk.tasm:27-36 | The shipped graph_walk under the bounds of its own manifest is accepted and meets EdgesOk; for every depth of at least one its first hop stays inside the pool exactly when the start node is not the last word, so from 0x7FFFFFF8 it reads at the end |
| SideConditions.JumpSkipsMask | web/src/engine/verifier.ts:222-230 | Side condition needed: an accepted program whose taken JUMP passes over an ANDI reaches its LOAD with a base outside every region |
| SideConditions.ZeroCountSkipsMask | web/src/engine/vm.ts:341-345 | Side condition needed: the same when a zero count skips a body that holds the ANDI |
| SideConditions.BackEdgeMovesBase | web/src/engine/vm.ts:240-244 | Side condition needed: an accepted loop whose body moves the base after the LOAD reads outside the region the second time round |
| SideConditions.WrappedIntervalUnsound | web/src/engine/verifier.ts:70-78 | Side condition needed: masking the interval ends one by one turns the full interval plus one into an empty one that fits everywhere |
| SideConditions.StatusRegisterUnsound | web/src/engine/verifier.ts:254-265 | Side condition needed: MEMCPY writes its status register, the scan keeps the old abstract value |
| SideConditions.OuterWritesBreakBound | web/src/engine/verifier.ts:246-249 | Side condition needed: with counts untouched before and inside their own loop only, a program accepted with bound 8 takes 15 steps |
| Clock.ClockWithoutAsync | web/src/engine/vm.ts:31-37 | The clock of every run that issues no asynchronous copy: 2, plus 8 for each control or COMPUTE instruction, 150 for each LOAD, STORE, CAS or CAA on device 0 and 500 on any other, plus the time of its blocking copies |
| Clock.ClockOverRuns | web/src/engine/vm.ts:286-460 | The same with asynchronous copies at 8 cycles each, for every run in which no WAIT or RET finds one outstanding |
| Clock.CopyTime | web/src/engine/vm.ts:404-408 | A copy costs 150 cycles when both ends are on device 0 and 500 when either is not, and then the least number of cycles that carries its length at 60.5 bytes each |
| Clock.IssueTimes | web/src/engine/vm.ts:409-416 | An asynchronous copy takes 8 cycles to issue and is over its own time later; the queue gains just that completion |
| Clock.ReturnTimes | web/src/engine/vm.ts:368-382 | RET ends at 8 cycles later or at the last outstanding completion, whichever is later, with nothing outstanding |
| Completion.SortSorts | web/src/engine/vm.ts:414-414 | The queue after a sort is ascending and a permutation of what it was |
| Completion.WaitIsExact | web/src/engine/vm.ts:353-366 | WAIT k drains as many copies as the counter is above k: those that stay are the latest finishers, and the clock stands at the issue time or the last drained completion, whichever is later. At most k stay outstanding if and only if no more were outstanding before or the counter equalled their number |
| CompletionLimits.SaturatedWait | web/src/engine/vm.ts:353-408 | The counter saturates at 32: after n asynchronous copies WAIT 0 leaves max(0, n - 32) of them, the last due after the clock the WAIT ends at; every such program of up to 511 copies is accepted, reported with bound n + 2 and min(32, n) in flight |
| Completion.StepKeepsPipe | web/src/engine/vm.ts:353-422 | Every step keeps the queue sorted and the counter at most its length; the clock goes down exactly on a blocking copy of negative cost |
| Completion.CounterOverRuns | web/src/engine/vm.ts:353-422 | In every state of every run the queue is sorted and inFlight is at most its length, equal to it as long as no more than 32 were ever outstanding |
| Completion.CompletionBarrier | web/src/engine/vm.ts:368-382 | When a run returns its clock has passed the completion time of every asynchronous copy ever issued, wherever the WAITs were, if none of its steps was a blocking copy of negative cost |
| Completion.ClockSafeExactly | web/src/engine/vm.ts:384-422 | No step from any state of a program lowers the clock if and only if no blocking MEMCPY at a fetchable pc has an immediate length so negative that it would take negative time |
| Completion.ClockSafeBarrier | web/src/engine/vm.ts:368-422 | So every program without such a MEMCPY has the barrier: a returned run has its clock past every completion it issued |
| Completion.AcceptedBarrier | web/src/engine/verifier.ts:260-265 | For programs the verifier accepts, jumps and loop ends landing where it looked, the barrier holds without a further condition |
| Completion.BarrierFailsBackwards | web/src/engine/vm.ts:405-420 | Side condition needed: a run that returns long before its first copy completes |
| Copy.CopyExactIff | web/src/engine/vm.ts:513-519 | The word copy gives dst[i] = old src[i] for all words up to min(ceil(len / 8), 512) and changes nothing else, on every memory, if and only if no destination word written earlier is a later source word, addresses mod 2^64 |
| Copy.OverrunDelivers | web/src/engine/vm.ts:513-519 | Where the condition fails first, the copy delivers the earlier source word that overwrote the later one |
| Copy.OverrunClosedForm | web/src/engine/vm.ts:513-519 | Without address wrap-around the condition fails exactly for an upward overlap by a whole number of words: disjoint and downward copies are exact |
| Copy.CopyFrame | web/src/engine/vm.ts:513-519 | Whatever the overlap, no word outside the destination changes |
| Vm.VM.constructor | web/src/engine/vm.ts:164-188 | A fresh machine is in the initial state: arguments mod 2^64 in r1 to r8, everything else zero |
| Vm.VM.ResolveLoops | web/src/engine/vm.ts:234-251 | The loop over the stack leaves the frames and the pc of the specification |
| Vm.VM.Wait | web/src/engine/vm.ts:353-366 | The WAIT loop drains as specified |
| Vm.VM.Return | web/src/engine/vm.ts:368-382 | The RET loop drains everything; the results are r1 to r4 |
| Vm.VM.DoMemcpy | web/src/engine/vm.ts:513-519 | The copy loop over the memory map leaves the memory of the specification |
| Vm.VM.CopyInstr | web/src/engine/vm.ts:384-422 | The new state of a MEMCPY: memory, status register, clock, counter and queue |
| Vm.VM.Execute | web/src/engine/vm.ts:286-460 | The whole new state of one instruction: data, frames, next pc, halt and error |
| Vm.VM.Step | web/src/engine/vm.ts:253-490 | One step of the object is one step on values, or the abort by the step limit, or the throw on an undefined word |
| Vm.VM.Run | web/src/engine/vm.ts:561-572 | Running to completion is the step function iterated as often as the step limit allows; what is alive then is aborted as failed |
| Assembler.RunAssembler | web/src/engine/asm.ts:299-420 | The assembler with its two loops computes the specification Assemble |
| Assembler.FirstPass | web/src/engine/asm.ts:309-378 | The line loop lays out instructions and labels as specified, duplicate labels and rejected operands being errors |
| Assembler.SecondPass | web/src/engine/asm.ts:385-418 | The pending loop patches, encodes and maps as specified, every error included |
| Assembler.LabelsAreOffsets | web/src/engine/asm.ts:314-321 | A label stands at the total width of the instructions before it, and every recorded label comes from a line |
| Assembler.AssembledProgram | web/src/engine/asm.ts:380-418 | For every assembled program the linear sweep visits exactly the offsets in pcToInstr, in order, and shows each instruction; JUMP at pc plus imm and LOOP at pc plus one plus imm lead to the label, two-word instructions included |
| AssembledHalts.AssembledTerminates | web/src/engine/asm.ts:387-418 | Every program the assembler accepts, its JUMPs and LOOPs naming labels as the mnemonics build them, halts for all arguments and memory without the step limit and without fetching an undefined word |
| AssembledHalts.WordForward | web/src/engine/asm.ts:387-418 | Every word of an assembled program, second words included, decodes to no backward or zero JUMP or LOOP and to no instruction cut off by the end |
| AssemblerExact.AssemblesIff | web/src/engine/asm.ts:299-420 | Acceptance, exactly: lines assemble if and only if none is malformed, no label stands twice, they take at most 1024 words, and every instruction is encodable as it is or refers to a label of the source, after it for a JUMP and at least a word further for a LOOP |
| AssemblerExact.AssembledWords | web/src/engine/asm.ts:385-418 | Every accepted instruction is encoded at the size of the lines before it, its immediate the distance to its label, less one for a LOOP |
| Assembler.PcMapIsExact | web/src/engine/asm.ts:415-417 | The pc map holds exactly the instruction offsets, each with its index |
| CodeWords.TreeRealised | web/src/engine/asm.ts:387-418 | Wherever the lines of a code tree stand in an assembled program, its words are well nested, nest no deeper than the tree and do what the tree does, step semantics against tree semantics |
| CodeWords.BlockAppend | web/src/engine/vm.ts:234-251 | Structured execution of two adjacent blocks is the first, then the second unless the first halts |
| RegisterNeed.LowerIff | web/src/engine/cc.ts:726-902 | Which expressions compile: those of the eleven binary and two unary operators, with bound names, subscripted pointer parameters and well-formed builtin calls, whose need for registers, counted on the tree, is met by the free scratch registers; and how many stay in use afterwards |
| CompilerAccepts.CompilesIff | web/src/engine/cc.ts:578-724 | Acceptance, exactly: a function in which no loop counts to a name its body binds again compiles if and only if it has at most eight parameters, its statements are supported where they stand, and it needs at most seven registers at once |
| AcceptedSources.ShadowingNeedsLess | web/src/engine/cc.ts:684-699 | The condition on names is needed: for every k from 8 to 170 a source that counts to shadowed names needs more than seven registers by the count, and compiles |
| CompilerBuilds.CoveredAssembles | web/src/engine/asm.ts:318-418 | What the compiler's theorem covers assembles if and only if it has at most 1024 words, and its length is bounded on the tree |
| CompilerBuilds.CoveredBuilds | web/src/engine/cc.ts:578-597 | A condition on the source alone under which a function compiles, assembles and is covered by the theorem |
| CompilerBuilds.CoveredMatchesSource | web/src/engine/cc.ts:578-597 | Under that condition, with no hypothesis on what compiler and assembler produce: the built program run with any arguments on any memory ends with the memory and results its source means |
| AcceptedSources.OperatorsEndToEnd | web/src/engine/cc.ts:402-433 | Each of the sixteen binary operators from its token to the result register, for all operands: the parser builds its tree, the interpreter gives C's value (none for division by zero), the compiler accepts exactly the eleven, and the machine returns that value |
| AcceptedSources.UnaryEndToEnd | web/src/engine/cc.ts:435-452 | The same for `+`, `-`, `!` and `~`, of which the compiler refuses the last |
| ShippedSources.AtomicIncRuns | web/src/data/examples/atomic_inc.c:11-15 | The shipped atomic_inc.c, built and run, returns the old word and adds the increment to it, for every base, increment and memory |
| ShippedSources.GraphWalkRuns | web/src/data/examples/graph_walk.c:20-32 | The shipped graph_walk.c, built and run, returns for every start, depth and memory the data of the node the masked links lead to in that many hops, and that node as second result, and leaves memory alone |
| ExprCorrect.LowerCorrect | web/src/engine/cc.ts:726-822 | After the code of an expression the returned register holds its value mod 2^64 and the memory is the interpreter's, builtins included |
| ExprCorrect.LowerKeeps | web/src/engine/cc.ts:514-556 | Lowering an expression changes no argument register and no register in use, variable or outstanding temporary, and keeps symbols in pairwise different registers marked used |
| ExprCorrect.LowerShape | web/src/engine/cc.ts:752-822 | The allocator after any accepted expression: nothing that was in use is freed, the result is held and may be freed by the caller |
| ExprCorrect.LowerAddrCorrect | web/src/engine/cc.ts:888-902 | Base register and offset of an element add up to its address mod 2^64, constant index or not |
| ExprCorrect.LowerCallCorrect | web/src/engine/cc.ts:824-886 | Each builtin computes its value and memory effect |
| StmtRules.StmtShape | web/src/engine/cc.ts:652-724 | Lowering a well-scoped statement frees nothing that was in use and moves no name in scope to another register |
| StmtRules.CompoundAssign | web/src/engine/cc.ts:661-666 | Folding `lhs op= rhs` to `lhs = lhs op rhs` keeps its meaning, the target evaluated once, when evaluating the index of the target writes no memory |
| StmtCorrect.StmtRuns | web/src/engine/cc.ts:629-724 | Lowering preserves the meaning of every statement that needs no conversion and meets StmtOk: related source and machine states lead to related states, or to a return with the same memory and results |
| StmtCorrect.IterationsRun | web/src/engine/cc.ts:684-699 | The LOOP with its materialised increment runs as the for loop from iteration k to the bound |
| StmtCorrect.BlockRuns | web/src/engine/cc.ts:694-707 | The same for blocks of such statements, names going out of scope at the end |
| StmtCorrect.StmtWf | web/src/engine/cc.ts:684-713 | LOOPs nest in the emitted code exactly as deep as fors nest in the source |
| CompilerCorrect.CompiledMatchesSource | web/src/engine/cc.ts:578-597 | Compiled, assembled and run with any arguments on any memory, a function that needs no conversion and meets FuncOk ends at a RET with the memory the source leaves and every result it sets, r1 the returned value, wherever its meaning is not an error |
| CompilerCorrect.CompiledHalts | web/src/engine/cc.ts:585-597 | Whatever source the compiler and assembler accept, the program started from any data stops at a RET in the state its code tree gives: it never runs past its last RET |
| CompilerCorrect.EntryRelated | web/src/engine/cc.ts:599-627 | Arguments arrive in the registers of the parameters they are bound to, a repeated name meaning the last |
| CompiledShape.CompiledIsAcceptable | web/src/engine/cc.ts:684-713 | Whatever source both stages accept: every JUMP leads forward to a word of the program, no LOOP body is empty, the program is well nested and every start ends at a RET |
| CompiledShape.FramesWithinSourceNesting | web/src/engine/cc.ts:684-699 | In every run of a compiled program the stack is no deeper than fors nest in the source |
| CompiledShape.NestingAtMostSeven | web/src/engine/cc.ts:684-699 | Without shadowing, accepted sources nest at most seven fors, one scratch register each, and no run opens more frames |
| CompiledBound.CompiledCountsUntouched | web/src/engine/cc.ts:684-699 | If no name is declared twice and every for counts to a parameter that nothing assigns and whose register takes no result, no count register of the compiled program is ever written |
| CompiledBound.CompiledWithinBound | web/src/engine/verifier.ts:213-298 | From source to bound: compiled, accepted and with in-bounds arguments, such a function ends within staticStepBound, at most maxDynamic, steps; nesting needs no hypothesis |
| AcceptedSources.CountsUpCounted | web/src/engine/cc.ts:684-699 | A loop that counts a parameter up meets the condition of CompiledWithinBound |
| CompiledAssembles.CompiledAssemblesIff | web/src/engine/asm.ts:318-418 | The assembler accepts compiled code if and only if it has at most 1024 words, every immediate is encodable and no tiara_andi mask is negative; labels are distinct and always found, forward and far enough |
| CompiledAssembles.LabelsDiffer | web/src/engine/cc.ts:925-928 | Labels with different numbers are different, whatever their prefix |
| CompilerLimits.ShadowingNestsDeeper | web/src/engine/cc.ts:684-699 | The bound of seven fails with shadowing: for every k up to 170 a source of nesting k + 2 is accepted by compiler and assembler |
| CMeaning.ExplicitMeans | docs/COMPILER.md:25-42 | An independent reference for expressions: whenever C's typed evaluation on mathematical integers (ranges, conversions and pointer steps of sections 6.3.1 and 6.5.3 to 6.5.9 of ISO/IEC 9899:2011, overflow an error) gives a value, the explicit form evaluated on 64-bit words gives that value mod 2^64 and the same memory |
| CMeaning.SubscriptIsStep | docs/COMPILER.md:25-42 | The explicit form of `p + e` is the address p[e] is read at, whatever words or pointers p is to |
| CMeaning.CompoundIsBinary | docs/COMPILER.md:25-42 | The explicit form of `l op= r` uses the operand the explicit form of `l op r` does, and exists exactly when that does, except for a pointer on the right or a loop variable that might become negative |
| CMeaning.SingleWordTypes | docs/COMPILER.md:29-30 | Which one-word types fill a 64-bit word, as unsigned or signed, and the size in bytes of the others |
| CSource.SourceIsC | web/src/engine/cc.ts:629-724 | An independent reference for statements: wherever the interpreter behind CompiledMatchesSource gives a function a meaning, a semantics without registers, in which parameters and results share nothing, a loop tests its bound afresh and steps its variable, and names end with their block and uncover those they hid, ends with the same memory and results |
| CompilerDepartures.PointerStepsOneByte | web/src/engine/cc.ts:647-650 | For every p, `p++` on a `uint64_t *` steps one byte where C steps eight |
| CompilerDepartures.NarrowingKeepsAll | web/src/engine/cc.ts:435-452 | For every x and every unsigned type of w < 64 bits, `return (type)x;` returns x where C returns x mod 2^w; the two agree exactly below 2^w |
| CompilerDepartures.IndexEvaluatedTwice | web/src/engine/cc.ts:661-666 | For all p, q and n, `p[tiara_caa(q, n)] += n;` adds n to the word at q twice where C adds it once, unless the assignment itself stores to q |
| CompilerDepartures.ResultOverwritten | web/src/engine/cc.ts:876-885 | For all p, q and n, `tiara_set_result(1, q); p = n;` on first parameter p returns n as result 1 where C returns q; the two agree exactly when q is n |
| CompilerDepartures.ParameterTaken | web/src/engine/cc.ts:876-885 | For all p, q and n, `tiara_set_result(1, q); tiara_set_result(2, p);` returns q as result 2 where C returns p, the first parameter, whose register took result 1; the two agree exactly when p is q |
| CompilerDepartures.NegativeMaskCut | web/src/engine/cc.ts:767-774 | For every x and every c from 1 to 2^39, `return x & -c;` loses the upper 24 bits of x; source and machine agree exactly below 2^40 |
| CompilerDepartures.InnerDeclarationStays | web/src/engine/cc.ts:528-538 | For all q and n, `uint64_t x = q; { uint64_t x = n; } return x;` returns n where C returns the outer x, q; the two agree exactly when q is n |
| LoopDepartures.BoundReadOnce | web/src/engine/cc.ts:684-699 | For all n and s, `for (int i = 0; i < n; i++) { n = 0; s++; }` adds n to s where C adds min(n, 1); the two agree exactly when n is at most 1 |
| LoopDepartures.StepsIgnored | web/src/engine/cc.ts:684-699 | For all n and s, `for (int i = 0; i < n; i++) { i++; s++; }` adds n to s where C adds ceil(n / 2), for every n short of overflow; the two agree exactly when n is at most 1 |
| CompilerLimits.ShlAssignCompares | web/src/engine/cc.ts:661-666 | For every x, `x <<= 1; return x;` returns x < 1 where C means 2x |
| CompilerLimits.ShiftAssignsFold | web/src/engine/cc.ts:661-666 | `<<=` compiles to what `lhs = lhs < rhs` compiles to, and every `>>=` is refused |
| CompilerLimits.InductionRegisterStale | web/src/engine/cc.ts:684-699 | For every n > 0 a second loop over j < n sees a last j of 2n - 1 where C means n - 1 |
| CompilerLimits.ConstantsBelow39Bits | web/src/engine/isa.ts:104-110 | A literal the encoder accepts is loaded as it is if and only if it is below 2^39 |
| Compiler.SymTable.AddLocal | web/src/engine/cc.ts:528-538 | Binds the name to the lowest free scratch register and marks only that one |
| Compiler.SymTable.Temp | web/src/engine/cc.ts:539-547 | Marks the highest free scratch register and nothing else |
| Compiler.Compiler.MaybeFreeTemp | web/src/engine/cc.ts:920-923 | Frees a register unless a symbol lives in it |
| Compiler.Compiler.LowerExpr | web/src/engine/cc.ts:726-750 | The method leaves the register, the symbol table and the lines of the lowering function, or fails as it does |
| Compiler.Compiler.LowerBinop | web/src/engine/cc.ts:752-783 | The same for binary operators, immediate and register forms |
| Compiler.Compiler.LowerCallExpr | web/src/engine/cc.ts:824-886 | The same for the six builtins and unknown names |
| Compiler.Compiler.AddrComponents | web/src/engine/cc.ts:888-902 | The same for addresses of array elements |
| Compiler.Compiler.LowerFor | web/src/engine/cc.ts:684-699 | The same for loops: lines, label counter, registers and names |
| Compiler.Compiler.LowerIf | web/src/engine/cc.ts:701-713 | The same for conditionals |
| Compiler.Compiler.LowerStatement | web/src/engine/cc.ts:629-650 | The same for every statement |
| Compiler.Compiler.CompileFunction | web/src/engine/cc.ts:585-597 | A fresh compiler object emits exactly the lines of the specification Compile |
| Grammar.ParsesTheStandardGrammar | web/src/engine/cc.ts:398-491 | Up to a token that ends an expression, the parser succeeds with a tree if and only if the tokens spell an expression for that tree of the productions of sections 6.5.1 to 6.5.12 of ISO/IEC 9899:2011, each written out with its own operators and the next production, without precedences |
| Grammar.LevelDerives | web/src/engine/cc.ts:402-433 | Each of those productions derives exactly what is grammatical by precedence and binds at least as tightly |
| ParserSound.ParsesExactlyTheGrammar | web/src/engine/cc.ts:402-433 | The same theorem with the grammar by precedences, which LevelDerives shows to be the productions |
| ParserSound.ParserInvertsPrinter | web/src/engine/cc.ts:398-491 | Parsing the minimally parenthesised form of any expression without type names as identifiers, cast types included, gives the expression back |
| ParserSound.PrinterIsMinimal | web/src/engine/cc.ts:402-433 | No grammatical way to write the same tree takes fewer tokens than the printer, so no parenthesis it writes is superfluous |
| ParserSound.ClimbSound | web/src/engine/cc.ts:421-433 | What the climbing loop builds is grammatical: the left operand binds at least as tightly as the operator, the right one more tightly, and the loop stops only where no operator of the level follows |
| ParserCorrect.BinParses | web/src/engine/cc.ts:421-433 | Parsing a grammatical expression at any level it binds reaches the climbing loop after its last token with its tree |
| Parser.ParseBin | web/src/engine/cc.ts:421-433 | On every token list the lexer can produce, parsing at any level terminates, and a success consumed at least one token and never the last |
| Parser.Parser.ParseBinary | web/src/engine/cc.ts:421-433 | The loop of the class agrees with the function: expression, position and error |
| Parser.Parser.ParseUnaryExpr | web/src/engine/cc.ts:435-452 | The same for unary operators and casts |
| Parser.Parser.ParsePostfixExpr | web/src/engine/cc.ts:454-478 | The same for subscripts and calls |
| Parser.Parser.ParsePrimaryExpr | web/src/engine/cc.ts:480-490 | The same for literals, names and parentheses |
| Toolchain.CompileAndRun | web/src/engine/cc.ts:578-597 | Compiler object, assembler and machine object in one: a built program does not throw, is aborted only if it is still alive after the step limit, and otherwise a covered source leaves its memory and results |
| Toolchain.VerifyAndRun | web/src/engine/verifier.ts:171-303 | Verifier and machine object in one: an accepted well-nested program with untouched counts and in-bounds arguments runs to its end under any step limit of at least maxDynamic and retires no more than the reported bound |
| Toolchain.CompileVerifyRun | web/src/engine/cc.ts:578-597 | All stages in one: a built and accepted program whose source counts its loops to untouched parameters is not aborted under any step limit of at least maxDynamic and retires no more than the reported bound; if the theorem covers the source it leaves its memory and results |

## Left out

- VerifierSound.AcceptedRunsStayInRegions: one direction only; that `EdgesOk` fails does not mean that some run leaves its regions, because the base registers of the memory instructions may be bounded anyway; AnnotatedRunsStayInRegions covers those. Bases only, as the original's check: AccessesStayDeclared is about the accesses.
- AccessSound.AccessesStayDeclared: one direction over runs; an annotation that reaches outside does not mean that some run does. Per instruction the condition is exact (FitsExactly).
- StepBoundSound.BoundHoldsForArgumentCounts: one direction only, for the same reason.
- Completion.CompletionBarrier: one direction, and so for ClockSafeBarrier; a run that goes back may still return after its last completion.
- CompiledBound.CompiledWithinBound: one direction; loops that count to locals or constants may keep the bound too.
- CompilerCorrect.CompiledMatchesSource: says nothing of cycles, flags or scratch registers, nor of sources that need a conversion or on which the interpreter fails; the latter include valid C, with witnesses in CompilerDepartures and LoopDepartures. The return type of a function is not in the tree and taken as 64 bits.
- CMeaning.ExplicitMeans: expressions only; CSource has the statements, on the explicit form. Operands are evaluated from left to right where C leaves the order open.
- CSource.SourceIsC: one direction; where the interpreter fails C may have a meaning, and the departures say what becomes of it.
- CompiledShape.NestingAtMostSeven: one direction only; a source with shadowing may nest less than eight deep all the same.
- Parser.ParseBin: asks for a token list that ends with the end-of-file token, which the lexer always appends; on a list that ends in `-` the original recurses without end.
- CompilerAccepts.CompilesIff: asks that no loop counts to a name its body binds again, which C's rule against redeclaring a name in scope implies; without it registers are given back twice and ShadowingNeedsLess shows the count to be off.
- CompilerBuilds.CoveredBuilds: one direction; sources that read a fresh induction variable are covered by the theorem too, and the bound on the length is not tight.
- VerifierExact.AcceptedIff: well-nested programs only; on others the verdict depends on frames that no loop structure explains.
- Clock.ClockOverRuns: runs that do not wait; what a WAIT or RET waits for is in WaitIsExact and ReturnTimes.
- Statement parsing, the lexer and comment stripping: the statement lowering starts from syntax trees. The statement parser accepts any step in a for header (`i += 2`, `i--`) and drops it, which a tree cannot express: `Ast.For` always counts up by one.
- Unaligned accesses: memory maps an address to a word, as the original's does, so words at addresses less than eight apart do not overlap; region bounds count eight bytes for each.
- Regions, `.arg`, `.const` and `.region` lines, constant substitution in operands and regex line splitting: the assembler starts from operand-level lines, so label names that collide with properties every JavaScript object has are not modelled either.
- Region names parsed out of pointer parameter names: they reach only directives.
- MEMCPY strides and count: encoded by the assembler, ignored by the machine.
- Register lengths above 2^53 lose precision in the original's conversion to a floating-point number; here they are exact.
- The verifier's in-flight cap: its counter saturates at the limit it is compared with, so the check refuses nothing.
- InFlight.InFlightExact: straight-line programs with asynchronous copies only; the scan counts blocking copies too, and each instruction of a loop once.
- Step events, notes, mnemonic strings, latency in microseconds and the C and ERR flags: observational.
- The Python reference, the manifest loader, the wire protocol, drivers, RTL and evaluation scripts.
