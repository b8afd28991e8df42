# A verified model of the PREVAIL eBPF verifier

PREVAIL decides whether an eBPF program is safe to load. It decodes the program's words,
links its subprograms, translates the instructions to a control-flow graph, computes
invariants for the graph with an abstract interpreter, and checks every assertion against
them. This project models the parts of that pipeline with the most intricate logic and
proves what each of them promises.

`dafny verify dfyconfig.toml` checks everything.

| files | subject |
|---|---|
| `AsmSyntax`, `ControlFlowGraph`, `Wto`, `AbstractDomain` | labels, instructions, graphs, weak topological orders, what a domain must provide |
| `WtoLevels`, `WtoParts`, `WtoBuilder` | how the weak topological order of a graph is built |
| `AnalysisTable`, `FwdAnalyzer`, `CrabVerifier` | what the table of invariants holds, the fixpoint iterator that fills it, and the verdict |
| `AsmCfg`, `InstructionSeqToCfg`, `CfgMeaning`, `PrepareCfg` | from an instruction list to the annotated graph |
| `LabelTexts`, `CalleeWalk`, `InlinedFrame`, `CallLayout`, `Inlining` | how local calls are inlined |
| `CallMeaning`, `ListCalls`, `LostLoops`, `CutLoop` | what inlining preserves, and a loop that it does not |
| `ListVerdict` | from the instruction list to the verdict about its runs |
| `LoopCounters`, `Termination`, `NestedLoops` | when the loop counters bound every run, and a program they do not |
| `RadixHeap`, `RadixPaths`, `RadixTree`, `RadixIterator`, `RadixQueries`, `OffsetKey` | the radix tree and its 64-bit keys |
| `ArrayDomain`, `OffsetTree` | the index of stack cells, and the radix tree behind it |
| `Bits`, `Interval`, `IntervalDivision`, `IntervalUDiv`, `IntervalBits`, `IntervalPrecision` | interval arithmetic, what it contains and what it does not |
| `EbpfVmIsa`, `AsmUnmarshal`, `WellFormedWords`, `AsmMarshal`, `RoundTrip`, `Machines`, `DecodeMeaning` | the codec of sections 3 to 5 of RFC 9669 |
| `Linker` | appending subprograms to their callers |

Objects that the original updates in place are classes (the iterator, the builders of graphs
and of orders, the radix tree, the offset map, the file linker), its loops are loops, and what
only computes a value is a function. An exception, a failed assertion or a CRAB_ERROR is a
failure value.

## What the proofs found

- `for_each_loop_head` is documented as visiting the heads of all loops, but visits the
  cycles of the top level only (`src/crab/wto.hpp`, lines 132 to 145). `CountedIffFlat`
  and `CountersBoundIffFlat` show that the counters meet every cycle, and so bound the
  program, exactly if no cycle is nested. `NestedLoops` has a program of four instructions
  that is accepted and runs for ever while every loop assertion holds.
- A local call is inlined by copying the callee node by node, and an edge is copied only if its
  source is walked no later than its target (`EdgeIsCopiedIff`). So a loop in a local function
  loses its way back without an error, and an assertion that fails only in a later round holds in
  all runs of the graph (`LoopIsCut`, `LoopIsNotTopological`). `CopiesAllIff` is the exact
  condition; functions without jumps back meet it, and programs made of them keep all their runs.
- `get_cell` and `remove_cell` leave empty sets behind, at which a later overlap scan stops
  (`src/crab/array_domain.cpp`, lines 263 to 311). `ScanCompleteIff` is the exact condition
  and `LookingHidesACell` a sequence of three calls that loses a cell.
- `URem` leaves out the dividend itself when a positive bounded dividend meets a positive
  unbounded divisor, and on 64-bit operands nowhere else
  (`URemSoundIff`, `URemMissesFive`).
- `UDiv` divides the ends of a dividend that is partly negative, which can even yield bottom
  (`UDivIsEmpty`), and shifts a negative dividend before dividing, which can lose its largest
  quotient (`UDivMissesNegative`). `UDivSoundIff` is the exact condition.
- `And` keeps its left operand when the mask may be all ones or less, which is right only
  if certain low bits of its lower end are zero (`AndSoundIff`).
- A store of a negative immediate into 64 bits is decoded with zeros instead of the sign
  (`MemAgreesIff`).
- Instructions with a negative immediate can be decoded but not encoded
  (`NegativeIsLost`), and a conditional jump too far for 16 bits is silently encoded as a
  jump to the next instruction (`CondJumpIff`). A local call is encoded with the distance that
  an unconditional jump has in its long form, which is zero for every distance of 16 bits: it
  survives only if its target is the next instruction or further away (`LocalCallIff`).
- Loads and arithmetic that would modify r10 are refused, but `lddw` and the atomic operations
  that fetch may (`WritesFramePointerIff`).

## Model

| member | source | states |
|---|---|---|
| `FwdAnalyzer.RunForwardAnalyzer` | verifiers/prevail/src/crab/fwd_analyzer.cpp:74-90 | for every graph, valid order, sound domain and any widening: each state that any run brings to a label lies in the invariant before it, and each successor in the invariant after it; the table is exactly what the order prescribes: in front of a label the join of what stands behind its parents, in front of a head what the increasing and the decreasing sequence make of its start, behind a label its effect, and labels of which none is reached keep bottom; with a ranked widening the unlimited iteration stops |
| `FwdAnalyzer.Iterator.TransformToPost` | verifiers/prevail/src/crab/fwd_analyzer.cpp:37-47 | the new entry is exactly the effect of the label, assertions assumed in order, and covers what leaves the label |
| `FwdAnalyzer.Iterator.JoinAllPrevs` | verifiers/prevail/src/crab/fwd_analyzer.cpp:49-58 | the entry keeps its own value; elsewhere the result is the join of all parents in some order, each once and nothing else, and covers every arriving state |
| `FwdAnalyzer.Iterator.constructor` | verifiers/prevail/src/crab/fwd_analyzer.cpp:60-64 | every label starts at bottom and the entry at the entry invariant |
| `FwdAnalyzer.Iterator.VisitVertex` | verifiers/prevail/src/crab/fwd_analyzer.cpp:111-124 | skipped vertices change nothing; in front of others stands the entry value or exactly the join of all parents, behind them their effect; they become covered, and no other label changes |
| `FwdAnalyzer.Iterator.VisitCycle` | verifiers/prevail/src/crab/fwd_analyzer.cpp:126-196 | a cycle, however nested, ends covered, and its head holds what the increasing and then the decreasing sequence make of its start; skipping is lifted exactly by the cycle of the entry |
| `FwdAnalyzer.Iterator.InitialInvariant` | verifiers/prevail/src/crab/fwd_analyzer.cpp:141-151 | the start value is the entry value, or exactly the join of the parents not nested deeper, each once |
| `FwdAnalyzer.Iterator.Ascend` | verifiers/prevail/src/crab/fwd_analyzer.cpp:153-172 | the increasing sequence is widened by the join of the parents as long as that is not below it, and ends only on a bound for every run at the head; it ends under a ranked widening |
| `FwdAnalyzer.Iterator.Descend` | verifiers/prevail/src/crab/fwd_analyzer.cpp:174-195 | the decreasing sequence refines by the join of the parents until it no longer sinks or its cap is met; it keeps the bound and leaves the whole cycle covered |
| `FwdAnalyzer.Iterator.VisitBody` | verifiers/prevail/src/crab/fwd_analyzer.cpp:157-162 | the components of a cycle without its head become covered and settled, one after the other |
| `FwdAnalyzer.Iterator.VisitAll` | verifiers/prevail/src/crab/fwd_analyzer.cpp:86-88 | all components behind the entry are covered and settled, those before it untouched and never reached |
| `AnalysisTable.SettledSolves` | verifiers/prevail/src/crab/fwd_analyzer.cpp:49-196 | such a table solves the equations label by label: in front of every vertex but the entry and the heads stands exactly the join of its parents, and in front of a head a value below that join, unless the decreasing sequence met its cap |
| `AnalysisTable.SettledStays` | verifiers/prevail/src/crab/fwd_analyzer.cpp:111-196 | and this depends on nothing but the labels of the component and their parents |
| `FwdAnalyzer.StableRound` | verifiers/prevail/src/crab/fwd_analyzer.cpp:163-168 | a round whose arrivals are below the invariant bounds every run at the head |
| `FwdAnalyzer.RefinedBound` | verifiers/prevail/src/crab/fwd_analyzer.cpp:103-109 | meet and narrowing of two bounds are again a bound |
| `FwdAnalyzer.CountersInitialized` | verifiers/prevail/src/crab/fwd_analyzer.cpp:77-84 | every entry state with its loop counters reset is an entry state of the analysis |
| `FwdAnalyzer.InitializeLoopCounters` | verifiers/prevail/src/crab/fwd_analyzer.cpp:77-84 | the loop initializes the counters of exactly the top-level heads, in order |
| `Wto.IsComponentMember` | verifiers/prevail/src/crab/wto.cpp:15-29 | membership in a component, nested ones included |
| `Wto.NestedIff` | verifiers/prevail/src/crab/wto.cpp:31-47 | one label is nested deeper than another exactly if the heads around the other are around it, and one more |
| `WtoBuilder.OrderOf` | verifiers/prevail/src/crab/wto.cpp:192-219 | the order built for any graph: a weak topological order of exactly the labels that the entry leads to, in which every cycle, nested ones included, is a loop around its head: each of its labels is reached from the head inside the cycle and leads back to it inside the cycle, and some way from the entry meets the cycle at its head |
| `WtoBuilder.WtoBuilder.constructor` | verifiers/prevail/src/crab/wto.cpp:192-202 | the first state can be read as a search that begins at the entry |
| `WtoBuilder.WtoBuilder.Build` | verifiers/prevail/src/crab/wto.cpp:204-219 | the loop over the tasks ends, for graphs with any loops, and yields such an order |
| `WtoBuilder.WtoBuilder.VisitNew` | verifiers/prevail/src/crab/wto.cpp:101-118 | the stacks stay readable as levels of searches; a label is begun or the task was superfluous |
| `WtoBuilder.WtoBuilder.LookAtSuccessors` | verifiers/prevail/src/crab/wto.cpp:123-135 | the least number among the successors, and whether one is not above its own |
| `WtoBuilder.WtoBuilder.TakeCycle` | verifiers/prevail/src/crab/wto.cpp:140-150 | takes exactly the labels above the head off the stack; they are new again, and the head is done |
| `WtoBuilder.WtoBuilder.Leave` | verifiers/prevail/src/crab/wto.cpp:120-175 | all three outcomes keep the stacks readable, and something is done or nothing but the task has gone |
| `WtoBuilder.WtoBuilder.EndCycle` | verifiers/prevail/src/crab/wto.cpp:177-190 | the finished cycle comes in front of its partition, and the level that waited goes on |
| `WtoLevels.PushNew` | verifiers/prevail/src/crab/wto.cpp:101-118 | visiting a label keeps all invariants of the search, among them that every label on the stack was found from one below it |
| `WtoLevels.LeaveTop` | verifiers/prevail/src/crab/wto.cpp:125-135 | so does leaving a label that leads further down, whose number is that of a label it has a way to |
| `WtoLevels.PopTop` | verifiers/prevail/src/crab/wto.cpp:140-150 | if nothing from a label leads further down, the stack from it on leads only to itself and to what is done |
| `WtoLevels.TopAlone` | verifiers/prevail/src/crab/wto.cpp:168-173 | without a loop such a label is the last on the stack |
| `WtoLevels.CycleIsFound` | verifiers/prevail/src/crab/wto.cpp:144-150 | with one, the labels above it are reached from it within the cycle, and lead back to it, nested cycles included |
| `WtoParts.PutCycle` | verifiers/prevail/src/crab/wto.cpp:181-186 | a finished cycle in front keeps a partition a weak topological order of loops around their heads |
| `CrabVerifier.Verified` | verifiers/prevail/src/crab_verifier.cpp:66-78 | true exactly if no assertion raises a warning at a reached label |
| `CrabVerifier.VerdictSound` | verifiers/prevail/src/crab_verifier.cpp:66-78 | without warnings, no run violates an assertion, also when failing states were filtered out of the analysis |
| `CrabVerifier.AnalyzeAndVerify` | verifiers/prevail/src/crab_verifier.cpp:55-78 | analysis and verdict together: verified if and only if the table of the analysis has no warning, and then no run violates an assertion |
| `CrabVerifier.VerdictIsSafe` | verifiers/prevail/src/crab_verifier.cpp:55-78 | any table with the properties of the analysis and without a warning makes all runs safe |
| `CrabVerifier.CheckAssertions` | verifiers/prevail/src/crab_verifier.cpp:80-100 | exactly the messages of each reached label, and the assumptions behind which nothing is reached; no message if and only if verified |
| `CrabVerifier.ReportedCodeIsDead` | verifiers/prevail/src/crab_verifier.cpp:92-97 | no run passes an assumption reported as the end of reachable code |
| `AsmCfg.Builder.Insert` | verifiers/prevail/src/asm_cfg.cpp:45-52 | fails exactly on an existing label; parents and children stay inverse |
| `AsmCfg.Builder.AddChild` | verifiers/prevail/src/asm_cfg.cpp:66-71 | fails exactly where an assertion or a lookup would; adds this one edge to both sides |
| `AsmCfg.Builder.RemoveChild` | verifiers/prevail/src/asm_cfg.cpp:73-76 | removes this one edge from both sides |
| `AsmCfg.Builder.InsertJump` | verifiers/prevail/src/asm_cfg.cpp:55-64 | the jump node and its two edges, and nothing else; when it fails |
| `AsmCfg.Builder.InsertAfter` | verifiers/prevail/src/asm_cfg.cpp:26-42 | when it fails; otherwise prev leads only to the new node and that to where prev led |
| `PrepareCfg.SplicePath` | verifiers/prevail/src/asm_cfg.cpp:26-42 | every old path is a path again, with the new node once after each visit of prev |
| `PrepareCfg.UnsplicePath` | verifiers/prevail/src/asm_cfg.cpp:26-42 | every new path comes from an old one: nothing else was added |
| `InstructionSeqToCfg.ReverseComplements` | verifiers/prevail/src/asm_cfg.cpp:85-107 | a comparison and its reverse never agree, at either width |
| `InstructionSeqToCfg.RegistersAreComplementary` | verifiers/prevail/src/asm_cfg.cpp:85-112 | so conditions over any register file are complementary |
| `InstructionSeqToCfg.FirstPass` | verifiers/prevail/src/asm_cfg.cpp:216-275 | succeeds exactly on acceptable lists and then yields exactly the graph of the list |
| `InstructionSeqToCfg.ConnectInstruction` | verifiers/prevail/src/asm_cfg.cpp:235-275 | one instruction of the pass: accepted exactly if its targets exist, with exactly its edges added |
| `CfgMeaning.ListRunEmbeds` | verifiers/prevail/src/asm_cfg.cpp:216-275 | every run of the list is a run of the graph |
| `CfgMeaning.CfgRunProjects` | verifiers/prevail/src/asm_cfg.cpp:216-275 | every run of the graph at an instruction is the embedding of a run of the list |
| `CfgMeaning.ProjectEmbeds` | verifiers/prevail/src/asm_cfg.cpp:216-275 | the correspondence is one to one |
| `CfgMeaning.ExactlyOneOpenSuccessor` | verifiers/prevail/src/asm_cfg.cpp:250-275 | at every node but the exit every state has exactly one way on |
| `Inlining.AddCfgNodes` | verifiers/prevail/src/asm_cfg.cpp:129-213 | inlining terminates and no label is deeper than eight frames; nothing outside the frame changes but the caller and the edges into its return; and if the call is well placed, the frame is the body of the callee with the calls inside it inlined in turn, and it fails exactly if the function does not fit: a walk finds again what it did not record, or frames run out |
| `Inlining.CloneFrame` | verifiers/prevail/src/asm_cfg.cpp:129-199 | exactly what one frame is: of the edges of the callee those whose source is walked no later than their target, hence all of them if and only if the walk follows the edges; it fails exactly if the walk finds again what it did not record |
| `Inlining.CloneAll` | verifiers/prevail/src/asm_cfg.cpp:144-195 | the nodes are cloned in the order of the walk, least label first |
| `InlinedFrame.EdgeIsCopiedIff` | verifiers/prevail/src/asm_cfg.cpp:171-178 | an edge of the callee is copied if and only if its source is walked no later than its target |
| `InlinedFrame.CopiesAllIff` | verifiers/prevail/src/asm_cfg.cpp:144-195 | all ways out of every node are copied if and only if no edge leads back in the walk |
| `CalleeWalk.WalkUnique` | verifiers/prevail/src/asm_cfg.cpp:144-195 | the walk has one outcome |
| `CalleeWalk.ForwardIsTopological` | verifiers/prevail/src/asm_cfg.cpp:144-195 | without jumps to smaller labels the walk follows the edges |
| `CallLayout.ForwardIsSmooth` | verifiers/prevail/src/asm_cfg.cpp:144-195 | functions without jumps back are copied faithfully, whatever they call |
| `LostLoops.LoopIsNotTopological` | verifiers/prevail/src/asm_cfg.cpp:144-195 | the loop of a function through two labels is never copied whole, whatever its layout |
| `CutLoop.LoopIsCut` | verifiers/prevail/src/asm_cfg.cpp:217-287 | a program whose call is inlined without an error; every run of its graph satisfies an assertion that the program violates in the second round of its loop |
| `CutLoop.EdgesOfCut` | verifiers/prevail/src/asm_cfg.cpp:171-193 | runs of that graph pass the addition once and never come back to it |
| `CutLoop.SecondRoundIsReached` | verifiers/prevail/src/asm_cfg.cpp:171-193 | while the program does come back, with the register increased |
| `LostLoops.DeadEnd` | verifiers/prevail/src/asm_cfg.cpp:171-193 | a label whose only successor was walked before has no edge in the copy |
| `CalleeWalk.FailsByWalk` | verifiers/prevail/src/asm_cfg.cpp:144-193 | a walk fails at some time if and only if the finished walk holds an edge back to a label that was not recorded |
| `CallLayout.FrontToBackIsCallersFirst` | verifiers/prevail/src/asm_cfg.cpp:277-284 | in lists without jumps back, whose functions stand behind their callers, callers come first |
| `LostLoops.TopologicalNeverRediscovers` | verifiers/prevail/src/asm_cfg.cpp:180-193 | a function that is walked along its edges, and has no label that leads to itself, is always cloned without an error |
| `LabelTexts.TextDepth` | verifiers/prevail/src/crab/label.hpp:50-58 | the text of a label has one delimiter per frame around it |
| `LabelTexts.CallsApart` | verifiers/prevail/src/asm_cfg.cpp:136-138 | the frames of two instructions inside one frame have nothing in common |
| `Inlining.InlineCalls` | verifiers/prevail/src/asm_cfg.cpp:277-284 | the graph is reached by inlining one call after the other, each as AddCfgNodes states; in a well laid out program every call of the main program leads into its frame and nothing else there changes; if callers come before what they call, it succeeds if and only if every call fits (no walk finds again what it did not record, and no chain of calls is too long), and in any layout a failure is traced to a call; the depth limit is kept, and without local calls nothing changes |
| `Inlining.ReplaceCall` | verifiers/prevail/src/asm_cfg.cpp:129-213 | the call of a function that calls nothing is replaced by a copy of it as CloneFrame states; for it and for well placed calls the exact condition of success |
| `CallMeaning.GraphAtSpot` | verifiers/prevail/src/asm_cfg.cpp:129-213 | around every spot a program can come to, with any stack of calls, the edges of the graph are exactly the moves of the program and the instruction is its instruction |
| `CallMeaning.StackRunFlattens` | verifiers/prevail/src/asm_cfg.cpp:129-213 | every run with a stack of calls is a run of the graph with the calls inlined |
| `CallMeaning.CfgRunUnflattens` | verifiers/prevail/src/asm_cfg.cpp:129-213 | and the graph has no other runs |
| `ListCalls.ExecutionIsStackRun` | verifiers/prevail/src/asm_cfg.cpp:217-287 | every execution of the list, calls and returns included, is such a run |
| `ListCalls.StackRunIsExecution` | verifiers/prevail/src/asm_cfg.cpp:217-287 | and every such run at an instruction or the exit is an execution of the list |
| `PrepareCfg.InsertCounters` | verifiers/prevail/src/asm_cfg.cpp:298-304 | succeeds exactly if the counters are new, and then puts one counter behind each head and nothing else |
| `PrepareCfg.SetAssertions` | verifiers/prevail/src/asm_cfg.cpp:306-309 | every label gets the assertions of its instruction, the graph stays |
| `PrepareCfg.PrepareCfg` | verifiers/prevail/src/asm_cfg.cpp:289-310 | the whole preparation: the graph of the list, its calls inlined, counters at the heads of the order that is built, assertions; it fails on lists the first pass refuses and where a call does not fit, and if callers come before what they call it succeeds if and only if the list is acceptable and every call fits |
| `PrepareCfg.OrderIsCountable` | verifiers/prevail/src/asm_cfg.cpp:298-304 | the counters at the heads of an order are always new, so that inserting them cannot fail |
| `ListVerdict.VerifyList` | verifiers/prevail/src/asm_cfg.cpp:289-310 | the pipeline from an instruction list: it says verified if and only if the preparation succeeds and the table of the prepared graph has no warning; if it says so, no execution of any length violates an assertion of an instruction, neither of a list without local calls nor, through any stack of calls, of one that is well laid out; with the termination check and without nested loops, every execution is shorter than an explicit bound in nodes, heads and limit |
| `ListVerdict.VerdictOnGraph` | verifiers/prevail/src/crab_verifier.cpp:66-78 | assertions that hold in all runs of the counted and annotated graph hold in all runs of the plain one, and these end within the bound if no cycle is nested |
| `ListVerdict.SafeGraphIsSafeProgram` | verifiers/prevail/src/asm_cfg.cpp:129-213 | and so they hold in all executions of the program with local calls |
| `ListVerdict.GraphStopsProgramStops` | verifiers/prevail/src/asm_cfg.cpp:295-304 | which are as short as the runs of the graph |
| `ListVerdict.LiftRuns` | verifiers/prevail/src/asm_cfg.cpp:295-304 | every run of the plain graph is a run of the counted one, through the counter behind every head it leaves |
| `ListVerdict.ResetKeepsZero` | verifiers/prevail/src/crab/fwd_analyzer.cpp:77-84 | resetting counters that are zero changes neither the core of a state nor a counter |
| `LoopCounters.BoundIs` | verifiers/prevail/src/asm_cfg.cpp:295-304 | the bound in closed form |
| `LoopCounters.BoundedIffNoFreeLasso` | verifiers/prevail/src/asm_cfg.cpp:295-304 | counters bound all walks if and only if no loop avoids them, and the bound is explicit |
| `LoopCounters.CounterCounts` | verifiers/prevail/src/crab/ebpf_transformer.cpp:2429-2436 | the value of a counter is the number of earlier visits to its node |
| `LoopCounters.RunRespects` | verifiers/prevail/src/crab/ebpf_checker.cpp:230-236 | if the loop assertions hold along a run, no counter node is visited more often than the limit and once more |
| `LoopCounters.RunBounded` | verifiers/prevail/src/asm_syntax.hpp:344-351 | then the run is shorter than an explicit bound in nodes, heads and limit |
| `Termination.AnnotatedIsInstrumented` | verifiers/prevail/src/assertions.cpp:45-45 | counter nodes, and they alone, increment and assert their limit |
| `Termination.VerifiedRunsAreBounded` | verifiers/prevail/src/asm_cfg.cpp:289-310 | a prepared graph without warnings has no run longer than the bound, if every cycle passes a counted head |
| `Termination.CycleMeetsHead` | verifiers/prevail/src/crab/wto.hpp:54-93 | every cycle of the graph passes the head of some component |
| `Termination.CountedIffFlat` | verifiers/prevail/src/crab/wto.hpp:132-145 | the heads that are visited meet every cycle if and only if no cycle of the order is nested |
| `Termination.CountersBoundIffFlat` | verifiers/prevail/src/asm_cfg.cpp:295-304 | if all labels are reachable, the inserted counters bound the walks of the counted graph if and only if no loop is nested in another |
| `NestedLoops.OrderIsValid` | verifiers/prevail/src/crab/wto.hpp:132-145 | the order of a program of four instructions with nested loops is valid and has one top-level head |
| `NestedLoops.PrepareProgram` | verifiers/prevail/src/asm_cfg.cpp:289-310 | that program is accepted and prepared with one counter |
| `NestedLoops.NestedLoopEscapes` | verifiers/prevail/src/asm_cfg.cpp:298-304 | however it is prepared, it has runs of any length, from zero registers and counters, along which every assertion holds |
| `NestedLoops.MachineCounts` | verifiers/prevail/src/crab/ebpf_transformer.cpp:2429-2436 | although the machine counts as the loop assertions expect |
| `RadixHeap.SplitLinked` | verifiers/prevail/external/radix_tree/radix_tree.hpp:392-404 | cutting a node keeps parent, child, depth and key links consistent |
| `RadixHeap.MergeLinked` | verifiers/prevail/external/radix_tree/radix_tree.hpp:308-329 | merging a node with its only child keeps the links consistent |
| `RadixHeap.RemoveLinked` | verifiers/prevail/external/radix_tree/radix_tree.hpp:281-302 | unlinking a childless node keeps the links consistent |
| `RadixPaths.UniqueInner` | verifiers/prevail/external/radix_tree/radix_tree_node.hpp:25-31 | linked inner nodes are determined by the symbols on the way to them |
| `RadixPaths.UniqueLeaf` | verifiers/prevail/external/radix_tree/radix_tree_node.hpp:25-31 | and so are leaves |
| `RadixTree.RadixTree.FindNode` | verifiers/prevail/external/radix_tree/radix_tree.hpp:482-511 | the search ends at the leaf of the key, or where the key stops or leaves a node halfway |
| `RadixTree.RadixTree.Find` | verifiers/prevail/external/radix_tree/radix_tree.hpp:466-479 | finds exactly the stored keys, with their value |
| `RadixTree.RadixTree.Insert` | verifiers/prevail/external/radix_tree/radix_tree.hpp:438-463 | the map gains the key exactly if it was new, the flag says which, the size follows, and the tree stays consistent and compressed |
| `RadixTree.RadixTree.Append` | verifiers/prevail/external/radix_tree/radix_tree.hpp:335-375 | the key hangs below the node where the search stopped |
| `RadixTree.RadixTree.Prepend` | verifiers/prevail/external/radix_tree/radix_tree.hpp:378-435 | the node the key leaves halfway is cut, and both go on |
| `RadixTree.RadixTree.Index` | verifiers/prevail/external/radix_tree/radix_tree.hpp:212-228 | the entry of the key, made with a default value if new |
| `RadixTree.RadixTree.Erase` | verifiers/prevail/external/radix_tree/radix_tree.hpp:267-332 | the map loses exactly the key, the flag says whether, and all other leaves stay where they are |
| `RadixTree.RadixTree.Tidy` | verifiers/prevail/external/radix_tree/radix_tree.hpp:288-302 | after the leaf is gone, a childless parent goes too; the tree is compressed again |
| `RadixTree.RadixTree.TidyUp` | verifiers/prevail/external/radix_tree/radix_tree.hpp:304-329 | a node left with one inner child gives way to it |
| `RadixTree.RadixTree.Clear` | verifiers/prevail/external/radix_tree/radix_tree.hpp:62-65 | nothing is stored |
| `RadixTree.CommonSymbols` | verifiers/prevail/external/radix_tree/radix_tree.hpp:380-388 | the length of the longest common beginning |
| `RadixTree.SameKeysSameShape` | verifiers/prevail/external/radix_tree/radix_tree.hpp:267-463 | two trees with a root and the same keys have the same shape, whatever led to them |
| `RadixPaths.SamePlaces` | verifiers/prevail/external/radix_tree/radix_tree.hpp:267-463 | inner nodes stand exactly where a stored key ends or two of them part |
| `RadixPaths.SameChildren` | verifiers/prevail/external/radix_tree/radix_tree.hpp:267-463 | and have the same children |
| `RadixIterator.Descend` | verifiers/prevail/external/radix_tree/radix_tree_it.hpp:64-74 | the first leaf below a node |
| `RadixIterator.Increment` | verifiers/prevail/external/radix_tree/radix_tree_it.hpp:46-61 | the first leaf after a node, or none |
| `RadixQueries.Begin` | verifiers/prevail/external/radix_tree/radix_tree.hpp:190-209 | the leaf of the least key, or none |
| `RadixQueries.Enumerate` | verifiers/prevail/external/radix_tree/radix_tree_it.hpp:97-103 | begin and increment give every stored key once, in strictly ascending order, and then end |
| `RadixQueries.RemoveIf` | verifiers/prevail/external/radix_tree/radix_tree.hpp:87-97 | exactly the keys that do not satisfy the predicate stay, although the tree is erased from under the iterator |
| `RadixQueries.GreedyMatch` | verifiers/prevail/external/radix_tree/radix_tree.hpp:248-259 | exactly the leaves below a node, ascending |
| `RadixQueries.PrefixMatch` | verifiers/prevail/external/radix_tree/radix_tree.hpp:122-146 | exactly the entries whose keys extend the query, ascending |
| `RadixQueries.LongestMatch` | verifiers/prevail/external/radix_tree/radix_tree.hpp:149-181 | the entry of the longest stored prefix of the query, or none if there is none |
| `OffsetKey.SubstrIsSlice` | verifiers/prevail/src/crab/array_domain.cpp:62-79 | radix_substr is a slice of the bits, and leaves no stray bits behind |
| `OffsetKey.JoinIsConcatenation` | verifiers/prevail/src/crab/array_domain.cpp:81-88 | radix_join is concatenation of the bits |
| `OffsetKey.UnsignedIsLexicographic` | verifiers/prevail/src/crab/array_domain.cpp:36-53 | comparing words of equal prefix length compares their bits in order, so offsets are visited in unsigned order |
| `OffsetTree.OffsetsOf` | verifiers/prevail/src/crab/array_domain.cpp:185-193 | iteration over a tree keyed by the bits of offsets gives exactly the offsets, ascending |
| `OffsetTree.Touch` | verifiers/prevail/src/crab/array_domain.cpp:263-266 | operator[] of such a tree is operator[] of the map from offsets |
| `OffsetKey.SiblingsCompare` | verifiers/prevail/src/crab/array_domain.cpp:36-53 | siblings of different lengths compare by their first bits |
| `ArrayDomain.OffsetMap.GetOverlapCells` | verifiers/prevail/src/crab/array_domain.cpp:326-419 | exactly the cells that share a byte with those asked for and can be reached over offsets with such a cell, each once, in the order of the scan; the cells stay, an empty set may stay behind |
| `ArrayDomain.Overlaps` | verifiers/prevail/src/crab/array_domain.cpp:152-160 | two cells overlap if and only if they have a byte in common |
| `ArrayDomain.ScanDown` | verifiers/prevail/src/crab/array_domain.cpp:339-376 | the downward scan finds exactly the reachable cells at or below the offset |
| `ArrayDomain.ScanUp` | verifiers/prevail/src/crab/array_domain.cpp:378-394 | the upward scan finds exactly the reachable cells above it |
| `ArrayDomain.ScanRest` | verifiers/prevail/src/crab/array_domain.cpp:396-413 | the third loop adds nothing |
| `ArrayDomain.ScanBucket` | verifiers/prevail/src/crab/array_domain.cpp:360-371 | of one offset, exactly the overlapping cells are added, none twice, in the order of their size |
| `ArrayDomain.OffsetMap.GetCell` | verifiers/prevail/src/crab/array_domain.cpp:304-311 | finds the cell if stored, and leaves an empty set at a new offset |
| `ArrayDomain.OffsetMap.MkCell` | verifiers/prevail/src/crab/array_domain.cpp:313-324 | afterwards the cell is stored and no other has come or gone |
| `ArrayDomain.OffsetMap.InsertCell` | verifiers/prevail/src/crab/array_domain.cpp:302-302 | adds the cell at its offset |
| `ArrayDomain.OffsetMap.RemoveCell` | verifiers/prevail/src/crab/array_domain.cpp:263-266 | removes the cell but not its offset |
| `ArrayDomain.ScanIsBruteForce` | verifiers/prevail/src/crab/array_domain.cpp:326-419 | with non-empty sets, positive sizes and disjoint cells, the scan finds every cell that shares a byte with those asked for |
| `ArrayDomain.ScanCompleteIff` | verifiers/prevail/src/crab/array_domain.cpp:326-419 | with positive sizes and disjoint cells, the scan is complete if and only if no empty set lies on its way |
| `ArrayDomain.LookingHidesACell` | verifiers/prevail/src/crab/array_domain.cpp:263-311 | a query that finds nothing hides a cell from the next one |
| `Interval.IntervalsAreRanked` | verifiers/prevail/src/crab/interval.hpp:161-170 | the interval lattice is sound for the analyzer and its widening has a rank |
| `Interval.WidenLowersRank` | verifiers/prevail/src/crab/interval.hpp:161-170 | widening by a value not covered makes a bound infinite for good, and covers both values |
| `IntervalPrecision.JoinIsLeast` | verifiers/prevail/src/crab/interval.hpp:142-150 | the join is the least interval that contains both |
| `IntervalPrecision.WidenIsLeast` | verifiers/prevail/src/crab/interval.hpp:161-170 | of the intervals that contain both and have the old bounds or infinite ones, the widening is the least |
| `IntervalPrecision.NarrowIsBetween` | verifiers/prevail/src/crab/interval.hpp:186-193 | narrowing a larger interval by a smaller lies between them, keeps finite bounds and takes finite ones for infinite ones |
| `Interval.Join` | verifiers/prevail/src/crab/interval.hpp:142-150 | contains both |
| `Interval.Meet` | verifiers/prevail/src/crab/interval.hpp:152-158 | contains exactly what both contain |
| `Interval.Add` | verifiers/prevail/src/crab/interval.hpp:195-201 | contains every sum |
| `Interval.Subtract` | verifiers/prevail/src/crab/interval.hpp:213-219 | contains every difference |
| `IntervalPrecision.AddExact` | verifiers/prevail/src/crab/interval.hpp:195-201 | and nothing but sums |
| `IntervalPrecision.SubtractExact` | verifiers/prevail/src/crab/interval.hpp:213-219 | and nothing but differences |
| `Interval.MulSound` | verifiers/prevail/src/crab/interval.cpp:17-28 | contains every product, with infinite bounds |
| `Interval.MulTight` | verifiers/prevail/src/crab/interval.cpp:17-28 | a finite bound of the product is itself a product |
| `IntervalDivision.TruncatedDivision` | verifiers/prevail/src/crab_utils/num_big.hpp:147-159 | the truncated quotient and remainder: identity, size and sign |
| `IntervalDivision.SRemSound` | verifiers/prevail/src/crab/interval.cpp:163-203 | contains every truncated remainder, whatever the intervals, by zero the dividend |
| `IntervalPrecision.SRemBelow` | verifiers/prevail/src/crab/interval.cpp:180-200 | by bounded divisors other than zero, the remainder is smaller than the largest of them in size and has no other sign than the dividend |
| `IntervalPrecision.SRemBetween` | verifiers/prevail/src/crab/interval.cpp:201-202 | by unbounded ones it lies between zero and the dividend |
| `IntervalPrecision.SRemBounded` | verifiers/prevail/src/crab/interval.cpp:163-203 | and whatever the divisors, it has no other sign than the dividend, and is smaller than the largest finite divisor or no further from zero than the dividend |
| `IntervalPrecision.SRemKeeps` | verifiers/prevail/src/crab/interval.cpp:163-203 | a dividend smaller than every divisor is kept |
| `IntervalDivision.UDivSound` | verifiers/prevail/src/crab/interval.cpp:119-160 | contains every quotient of a non-negative number by any 64-bit number, signed or not, by zero zero |
| `IntervalDivision.UDivDefined` | verifiers/prevail/src/crab/interval.cpp:119-160 | no error on non-negative intervals unless both are unbounded |
| `IntervalPrecision.UDivTight` | verifiers/prevail/src/crab/interval.cpp:119-160 | on non-negative intervals finite bounds are quotients themselves |
| `IntervalUDiv.UDivSoundIff` | verifiers/prevail/src/crab/interval.cpp:119-160 | on 64-bit operands, signed or not, contains every quotient if and only if UDivIsRight, a condition on the ends of the operands with one clause for each branch |
| `IntervalUDiv.UDivDefinedIff` | verifiers/prevail/src/crab/interval.cpp:119-160 | on 64-bit operands raises no error if and only if UDivIsDefined: not both unbounded, and the shifted dividend is still a 64-bit number |
| `IntervalUDiv.UDivIsEmpty` | verifiers/prevail/src/crab/interval.cpp:127-134 | [-1, 5] divided by two is bottom |
| `IntervalDivision.UDivMissesNegative` | verifiers/prevail/src/crab/interval.cpp:7-15 | a negative dividend is shifted first, and its largest quotient is lost |
| `IntervalDivision.URemSoundIff` | verifiers/prevail/src/crab/interval.cpp:206-248 | contains every remainder of 64-bit numbers, signed or not, if and only if not both operands are positive, the dividend bounded and the divisor unbounded |
| `IntervalDivision.URemMissesFive` | verifiers/prevail/src/crab/interval.cpp:235-239 | the concrete case that fails |
| `IntervalDivision.URemDefined` | verifiers/prevail/src/crab/interval.cpp:206-248 | no error on 64-bit values |
| `IntervalPrecision.URemBelow` | verifiers/prevail/src/crab/interval.cpp:235-246 | of positive numbers by bounded ones, the remainder is smaller than the largest divisor |
| `IntervalPrecision.URemBounded` | verifiers/prevail/src/crab/interval.cpp:206-248 | on non-negative intervals in any case, it stays below the largest divisor or no further up than the dividend |
| `IntervalPrecision.URemKeeps` | verifiers/prevail/src/crab/interval.cpp:206-248 | a dividend below every divisor is kept |
| `IntervalBits.TruncateExact` | verifiers/prevail/src/crab/interval.hpp:326-343 | truncation gives exactly the wrapped values, or the whole range of the type |
| `IntervalBits.TruncateSound` | verifiers/prevail/src/crab/interval.hpp:326-343 | and always contains the wrapped values |
| `IntervalPrecision.TruncateIsWhole` | verifiers/prevail/src/crab/interval.hpp:326-343 | an interval that wraps as a whole is shifted as a whole |
| `IntervalBits.AndSoundIff` | verifiers/prevail/src/crab/interval.cpp:251-285 | on 64-bit intervals contains every conjunction if and only if the mask cannot be all ones or the low bits that some mask lacks are zero at the lower end |
| `IntervalBits.AndMissesZero` | verifiers/prevail/src/crab/interval.cpp:274-275 | the concrete case of five masked with anything |
| `IntervalBits.MaskToSound` | verifiers/prevail/src/crab/interval.cpp:263-273 | the 32-bit mask keeps every low half |
| `IntervalPrecision.AndBounded` | verifiers/prevail/src/crab/interval.cpp:251-285 | conjunctions of non-negative intervals stay below both |
| `IntervalBits.OrXorSound` | verifiers/prevail/src/crab/interval.cpp:287-317 | contains every disjunction and exclusive disjunction, whatever the intervals |
| `IntervalBits.BelowFill` | verifiers/prevail/src/crab/interval.cpp:296-301 | of non-negative operands both stay below the fill of the larger bound |
| `IntervalPrecision.OrXorBounded` | verifiers/prevail/src/crab/interval.cpp:287-317 | and so do the intervals |
| `IntervalPrecision.OrXorOfNumbers` | verifiers/prevail/src/crab/interval.cpp:287-317 | on single numbers all three are exact |
| `IntervalBits.Shl` | verifiers/prevail/src/crab/interval.cpp:319-339 | the loop computes the power of two, and the result is the product with it, or top |
| `IntervalBits.ShlSound` | verifiers/prevail/src/crab/interval.cpp:319-339 | contains every shifted number |
| `IntervalBits.LShrSound` | verifiers/prevail/src/crab/interval.cpp:363-374 | contains every number shifted right |
| `IntervalPrecision.ShlTight` | verifiers/prevail/src/crab/interval.cpp:319-339 | the finite bounds of a left shift are shifted numbers |
| `IntervalPrecision.LShrTight` | verifiers/prevail/src/crab/interval.cpp:363-374 | every number in a right shift of a bounded non-negative interval is a shifted number |
| `Bits.BitByBit` | verifiers/prevail/src/crab_utils/num_big.hpp:228-232 | the operations on unbounded numbers work bit by bit |
| `Bits.FillOnesIsLeast` | verifiers/prevail/src/crab_utils/num_big.hpp:254-260 | the fill is the least row of ones that reaches the number |
| `Bits.AndOnes` | verifiers/prevail/src/crab_utils/num_big.hpp:104-109 | masking with ones keeps the low bits |
| `EbpfVmIsa.MergeOfSplit` | verifiers/prevail/src/ebpf_vm_isa.hpp:110-115 | merge undoes split |
| `EbpfVmIsa.SplitOfMerge` | verifiers/prevail/src/ebpf_vm_isa.hpp:110-115 | split undoes merge |
| `AsmUnmarshal.GetJumpTarget` | verifiers/prevail/src/asm_unmarshal.cpp:552-561 | a target is inside the program and not a second word |
| `AsmUnmarshal.DecodeAt` | verifiers/prevail/src/asm_unmarshal.cpp:706-789 | an instruction takes one or two words inside the program; exactly when it is accepted is the next row |
| `WellFormedWords.DecodesIff` | verifiers/prevail/src/asm_unmarshal.cpp:706-789 | a word is accepted if and only if it is in a table of opcodes and fields; two words are taken if and only if it is lddw or the pair of shifts that is fused |
| `WellFormedWords.AluIff` | verifiers/prevail/src/asm_unmarshal.cpp:385-417 | the same for arithmetic |
| `WellFormedWords.MemoryIff` | verifiers/prevail/src/asm_unmarshal.cpp:277-383 | for loads, stores, packet access and atomic operations |
| `WellFormedWords.JumpIff` | verifiers/prevail/src/asm_unmarshal.cpp:563-698 | for jumps of both classes, calls of all kinds and exit |
| `WellFormedWords.FuseIff` | verifiers/prevail/src/asm_unmarshal.cpp:728-750 | and when two shifts are fused |
| `WellFormedWords.WritesFramePointerIff` | verifiers/prevail/src/asm_unmarshal.cpp:327-458 | an accepted word writes r10 if and only if it is lddw or an atomic operation that fetches |
| `AsmUnmarshal.Unmarshal` | verifiers/prevail/src/asm_unmarshal.cpp:700-794 | the loop decodes instruction by instruction; nothing decodes from an empty list |
| `WellFormedWords.UnmarshalsIff` | verifiers/prevail/src/asm_unmarshal.cpp:700-794 | a program is accepted if and only if every word at which an instruction begins is in the table |
| `AsmMarshal.GetLabels` | verifiers/prevail/src/asm_marshal.cpp:310-318 | the pc of each label, the last occurrence counting |
| `AsmMarshal.Marshal` | verifiers/prevail/src/asm_marshal.cpp:320-335 | the loop encodes instruction by instruction with resolved targets |
| `RoundTrip.MarshalUnmarshal` | verifiers/prevail/src/asm_marshal.cpp:88-335 | what marshal makes of a program labelled by its pcs, unmarshal reads back as the same program |
| `RoundTrip.RoundTrips` | verifiers/prevail/src/asm_unmarshal.cpp:97-794 | the same of the two methods |
| `RoundTrip.InstructionRoundTrip` | verifiers/prevail/src/asm_marshal.cpp:88-296 | each instruction decodes to itself where its words stand, in the number of words of its size |
| `RoundTrip.BinRoundTrip` | verifiers/prevail/src/asm_marshal.cpp:110-130 | arithmetic, all operations, widths and operands |
| `RoundTrip.UnRoundTrip` | verifiers/prevail/src/asm_marshal.cpp:132-175 | negation and byte swaps |
| `RoundTrip.MemRoundTrip` | verifiers/prevail/src/asm_marshal.cpp:232-259 | loads and stores |
| `RoundTrip.PacketRoundTrip` | verifiers/prevail/src/asm_marshal.cpp:261-276 | packet access |
| `RoundTrip.AtomicRoundTrip` | verifiers/prevail/src/asm_marshal.cpp:278-289 | atomic operations |
| `RoundTrip.LddwRoundTrip` | verifiers/prevail/src/asm_marshal.cpp:90-116 | the two words of lddw and of a map descriptor |
| `RoundTrip.JmpRoundTrip` | verifiers/prevail/src/asm_marshal.cpp:207-230 | jumps, with the choice between the 16-bit and the 32-bit form |
| `RoundTrip.CallRoundTrip` | verifiers/prevail/src/asm_marshal.cpp:177-203 | helper calls, indirect calls and exit |
| `RoundTrip.CondJumpIff` | verifiers/prevail/src/crab/label.hpp:74-81 | a conditional jump survives if and only if it is of 64 bits and 16 bits reach its target |
| `RoundTrip.LocalCallIff` | verifiers/prevail/src/crab/label.hpp:83-92 | a local call survives if and only if its target is the next instruction or too far for 16 bits |
| `RoundTrip.EncodeDefinedIff` | verifiers/prevail/src/asm_marshal.cpp:88-292 | when marshal throws: exactly on immediates that are negative or too large, and on widths and offsets that do not exist |
| `RoundTrip.EncodesIff` | verifiers/prevail/src/asm_marshal.cpp:298-335 | so a labelled program, from any pc on, is encoded if and only if every instruction can be encoded at its pc |
| `RoundTrip.MarshalsIff` | verifiers/prevail/src/asm_marshal.cpp:320-335 | and a whole program from the start |
| `RoundTrip.NegativeIsLost` | verifiers/prevail/src/asm_marshal.cpp:123-128 | a negative immediate can be decoded and never encoded again |
| `RoundTrip.NegativeExample` | verifiers/prevail/src/asm_marshal.cpp:123-128 | for example an addition of minus one |
| `DecodeMeaning.WordRunIsListRun` | verifiers/prevail/src/asm_unmarshal.cpp:700-794 | whenever a run on the words stands at an instruction or has halted, the decoded program has the same registers, memory and calls |
| `DecodeMeaning.ListRunIsWordRun` | verifiers/prevail/src/asm_unmarshal.cpp:700-794 | every run of the decoded program is a run on the words, with at most twice the steps |
| `DecodeMeaning.LabelsIncrease` | verifiers/prevail/src/asm_unmarshal.cpp:781-788 | labels are pcs and grow by one or two |
| `DecodeMeaning.NoJumpIntoLddw` | verifiers/prevail/src/asm_unmarshal.cpp:552-561 | no jump or local call goes to the second word of lddw |
| `DecodeMeaning.EveryWordIsRead` | verifiers/prevail/src/asm_unmarshal.cpp:706-789 | every word begins an instruction or is the second word of one |
| `DecodeMeaning.DecodedIsPlain` | verifiers/prevail/src/asm_unmarshal.cpp:700-794 | decoded programs are what the translation to a graph asks for |
| `DecodeMeaning.AluAgrees` | verifiers/prevail/src/asm_unmarshal.cpp:385-417 | an arithmetic word and its instruction compute the same |
| `DecodeMeaning.MemAgreesIff` | verifiers/prevail/src/asm_unmarshal.cpp:345-356 | a memory word and its instruction agree in every environment if and only if it is no 64-bit store of a negative immediate |
| `DecodeMeaning.NegativeStoreExample` | verifiers/prevail/src/asm_unmarshal.cpp:353-353 | such a word is accepted |
| `DecodeMeaning.JmpAgrees` | verifiers/prevail/src/asm_unmarshal.cpp:592-698 | a jump word and its instruction go the same way |
| `DecodeMeaning.FusedShifts` | verifiers/prevail/src/asm_unmarshal.cpp:728-750 | the two shifts are a 32-bit move or a sign extension |
| `DecodeMeaning.FusedAgrees` | verifiers/prevail/src/asm_unmarshal.cpp:728-750 | the fused instruction does what its two words do |
| `Linker.FindSubprogram` | verifiers/prevail/src/asm_files.cpp:208-217 | the program of that section and name, or none |
| `Linker.FileLinker.AppendSubprograms` | verifiers/prevail/src/asm_files.cpp:220-281 | always terminates; what is resolved stays; if calls are linkable, everything resolved is linked |
| `Linker.FileLinker.AppendCallee` | verifiers/prevail/src/asm_files.cpp:239-269 | the callee is linked and a verbatim copy appended, once |
| `Linker.FileLinker.Relocate` | verifiers/prevail/src/asm_files.cpp:271-278 | the immediate is the distance to the copy, or an exception if it does not fit |
| `Linker.FileLinker.LinkAll` | verifiers/prevail/src/asm_files.cpp:499-510 | if the calls are linkable, it succeeds if and only if every distance to a copy fits 32 bits; then every relocated call in every program, and in every copy to any depth, goes to a copy of its own callee |
| `Linker.CopyResolves` | verifiers/prevail/src/asm_files.cpp:251-262 | in a verbatim copy of a linked program all calls resolve, to any depth |

## Left out

- FwdAnalyzer.RunForwardAnalyzer: the iteration counters are unbounded, so the wrap-around of the 32-bit counters after four billion rounds is not modelled.
- FwdAnalyzer.Iterator.VisitCycle: `limit` is an addition that lets the increasing sequence be watched for a number of rounds under a widening without a rank; None is the original loop.
- Inlining.AddCfgNodes: states the content of the frame for calls that are well placed: the callee and what it calls is still as translated, every function is walked along its edges (where it is not, CloneFrame states what is lost), and every call in it returns to another instruction. The prefix stored in a Call is not modelled.
- PrepareCfg.PrepareCfg: the assertions of an instruction are parameters.
- ListVerdict.VerifyList: what is proved about executions of lists with local calls is for lists that are well laid out (CallLayout.WellLaidOut): the calls of the main program come before those of the functions, no call outside the functions returns into them, and every function is walked along its edges. What happens in other layouts, where a call is inlined into a function after the function was translated, is not characterized.
- LoopCounters.CounterCounts: that the abstract machine adds one to the right counter is a hypothesis about the transformer, not a proof of it.
- Inlining.InlineCalls: the exact condition of success is for lists in which callers come before what they call (CallLayout.CallersFirst); for others, where a function may hold frames already when it is copied, a failure is only traced to the call that fails.
- ArrayDomain.OffsetMap.GetOverlapCells: the exception for offsets that do not fit an int is not modelled. The map stands for the radix tree; that a tree over the bits of offsets is such a map is proved in OffsetTree.
- AsmUnmarshal.Unmarshal: the notes, the texts of errors and the line information are not modelled, and of a helper's prototype only whether it is understood.
- RoundTrip.MarshalUnmarshal: excludes local calls, for which LocalCallIff states when they survive, 32-bit conditions, which the encoder never writes, and pairs of shifts that are decoded as one instruction.
- Linker.FileLinker.LinkAll: requires relocations inside their program, unique names, callees that rank below their callers and one target per call; line information is not appended. Without these the linker still stops, which AppendSubprograms states.
- Linker.FileLinker.AppendSubprograms: the symbol name with which a callee is looked up and the function name under which its offset is stored are one field of a relocation.
- RadixTree.RadixTree.Insert: nodes live in a store of their own with addresses as links; the freeing destructor is the removal of an entry. The order of children inside the search loop is arbitrary, which the result does not depend on.
- Symbols of radix keys are numbers; prefix queries are for keys of any length, and not stated for 64-bit keys, where a query is always a whole key and comparisons ignore the length.
- WtoBuilder.OrderOf: numbers are unbounded, so that the counter never meets the infinite number. Partitions are kept in order instead of reversed, a partition is named by the head of its cycle instead of referenced, and the theorem is for every order in which successors are taken. The table of containing cycles is not built; nesting is read off the order.
- The abstract domains themselves (zones, types, arrays) and the eBPF transformer; they are parameters with stated contracts.
- `operator/`, `SDiv` and `AShr` of intervals, and widening with thresholds.
- `symbolic_overlap` and the cells of a symbolic offset.
- ELF and BTF reading, the command line, printing and the text parser.
