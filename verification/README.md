# A verified model of the trace scheduler

The repository is an LLVM pass plugin. It finds hot traces in a function's control-flow graph, builds a data
dependence graph per trace, computes critical paths, list-schedules each trace greedily with a register-pressure
tie-break, and rewrites the IR in place: Phase 1 reorders pure instructions between fixed anchors, Phase 2 hoists
instructions to earlier trace blocks that dominate them. A second pass does the same for single blocks without
crossing block boundaries. This project models both passes and everything they compute on the way, and proves

- that the rewritten function means the same as the original, on every run of any length through any control-flow
  graph, loops included, and stays valid SSA;
- that each analysis and each scheduling step computes what it is for, against a definition that does not mention the
  algorithm.

The end-to-end theorems are the contracts of `GlobalPasses.GlobalSchedulerPass` and `LocalPasses.LocalSchedulerPass`.

## How the system is modelled

- **Functions** (`Ir`). An instruction is a number, which is also the name of the value it defines. What an
  instruction is (operands, kind, the flags that make it an anchor) never changes; the layout, one list of instruction
  numbers per block, is what the passes rewrite. `Valid` is SSA validity with dominance by its path definition: in
  reachable code every definition dominates every use, and PHI operands are used at the end of the incoming block.
- **Meaning** (`Semantics`). A `World` fixes what every instruction computes, the arguments and the initial memory. Pure
  instructions compute from their operands and may trap; an instruction with an effect (it touches memory, has side
  effects, or is a call, an alloca, an EH pad or a token) reads and changes an opaque memory and emits an event; the
  terminator picks a successor; PHIs read the values that held on leaving the predecessor. Two functions have the
  same runs in a world when, after any number of blocks, the block path, the events, the memory and whether and how the
  run stopped agree. A read of a value that was never computed yields 0; `SsaEquations.NoUndefinedRead` proves that no
  run of a valid function does that.
- **Specifications.** The methods are proved against functions of the old state. What those functions mean is proved
  apart from them, mostly as exact descriptions that leave no choice: which reordering (`RegionOrder`), which place and
  which code (`Placement`, `TraceResults`), which counter (`HoistAccounts`), which traces (`TraceGrowth`), which
  schedule (`ReadyQueues`). What may move is decided by the source's own test, `Ir.IsAnchor`; what must stay is said by
  `Ir.IsFixed` in terms of the effects the runs have.
- **State.** The function under rewrite (`FunctionBody`), a dependence graph (`Ddg`) and the hoist statistics
  (`HoistStats`) are classes whose fields the methods change, as in the source. Every such method is proved against a
  function of the old state, and the properties are proved about that function. Bit vectors are sets of values, the
  pointer-keyed tables are maps, and an instruction's parent block is looked up in the layout. Graph nodes are named by
  their instruction. Predecessor lists are an input that mirrors the successor lists.
- **What comes from outside.** Branch probabilities, block frequencies, the loop nest and the test for safe
  speculation are parameters. The speculation test has one contract (`OracleSound`): what it accepts cannot trap when
  evaluated at that insertion point of a valid function with this code. The LLVM dominator tree appears as a dominance
  test with the contract `DominatorTreeCorrect`; the pass model supplies it from the repository's own verified
  `dom.hpp` analysis, which `src/schedulerPass.cpp` no longer includes. `std::stable_sort` is modelled by a stable
  insertion sort. `buildDDG` and `buildLocalDDG` share one model with a flag for what the local one does differently
  (PHIs and terminators keep their edges).

## Where the code and its documentation part

- *"Every block belongs to exactly one trace"* (`include/traceIdentification.hpp:157`). Blocks that are unreachable or
  never executed are in none, unless likely edges pull them in. `Traces.SomeBlocksAreInNoTrace` gives an instance.
  `Traces.EveryBlockInOneTraceDecided` says for a given profile when the sentence holds, and `Traces.CoveredExactly` says
  it per block; `Traces.EveryBlockInOneTraceExactly` says for which functions it holds whatever the edge probabilities.
- *"The DDG is a directed acyclic graph"* (`include/ddg.hpp:8`). True of traces, whose graphs leave PHIs out
  (`Dependence.TraceGraphAcyclic`), false of local graphs (`Dependence.SomeLocalGraphsAreCyclic`); the exact condition is
  `Dependence.LocalGraphAcyclicExactly`. What the schedule is on a cyclic graph is proved too.
- *"Allow movement only if total pressure stays within register budget"* (`include/applySchedule.hpp:220-224`). The
  test lowers the prediction for operands that die, but the set it guards is never cleared of them.
  `DynamicPressure.SomeRunsPassTheBudget` is a run that passes the budget.
  `DynamicPressure.BudgetIsBoundExactlyWhenNothingDies` says for which instructions the test does bound the set,
  `DynamicPressure.BudgetHoldsWhenNothingDies` for which runs, and `DynamicPressure.DynamicPressureBounded` what bound
  holds always.
- `CODE_WALKTHROUGH.md` describes an older design (SSA repair, store-only anchors, `dom.hpp` in use). The model follows
  the headers.

## Files

| file | content |
|---|---|
| `Graphs.dfy`, `Lists.dfy`, `Ir.dfy`, `Semantics.dfy` | paths and dominance, list edits, functions and SSA validity, runs |
| `SsaEquations.dfy` | what valid SSA guarantees at every point of every run |
| `RegionSwap.dfy`, `Regions.dfy`, `RegionOrder.dfy` | one region put in another order; Phase 1 and the local rewrite; what they do, without the algorithm |
| `Hoisting.dfy`, `HoistTurns.dfy`, `DynamicPressure.dfy`, `ApplySchedule.dfy` | one hoist; a whole Phase 2; the pressure budget; `applySchedule` in place with its statistics |
| `Placement.dfy`, `HoistAccount.dfy`, `TraceResult.dfy` | where Phase 2 puts what, what its statistics count, and what a trace ends as, without the search |
| `Ddg.dfy`, `BuildDdg.dfy`, `CriticalPath.dfy`, `Latency.dfy`, `Pressure.dfy`, `ListScheduler.dfy`, `ReadyQueue.dfy`, `Dependence.dfy` | dependence graphs, critical paths and their cycles, pressure, list scheduling, its queue, and what valid SSA makes of them |
| `Bfs.dfy`, `Dominators.dfy`, `Liveness.dfy`, `Traces.dfy`, `TraceGrowth.dfy` | the analyses, trace formation, and how traces are grown |
| `LocalPass.dfy`, `GlobalPass.dfy` | the two passes |
| `GlobalRewrite.dfy`, `GlobalResult.dfy` | what the global pass makes of a function, trace by trace and in the end |

## Model

| member | source | states |
|---|---|---|
| GlobalPasses.GlobalSchedulerPass | src/schedulerPass.cpp:22-113 | The result is the original with every trace, in order, rewritten under a complete greedy schedule of its graph; the traces are those of the naive builder over the breadth-first order, and the live sets and dominators are exact. SSA validity is kept; in every world where the speculation test is sound every run keeps block path, events, memory and outcome. PHIs, terminators and everything with an effect stay in their blocks, in order; no instruction is lost; each scheduled instruction ends in the first block of its trace that was legal for it at its turn under the given loops, speculation test and budget; every block ends with the code described by `TraceResults.BlockRewritten`; with pressure on, the live values of every block stay within the larger of those live on entry and the given budget plus the widest instruction hoisted there. The statistics balance, count exactly the instructions that could move and those that did, and the peak is the largest live count seen over all traces. |
| GlobalPasses.ScheduleTrace | src/schedulerPass.cpp:91-105 | One iteration of the trace loop: the schedule is complete for the trace and greedy for the function as it then stands, and the function, the statistics and the peak become the specified ones. |
| GlobalRewrites.RewrittenKeeps | src/schedulerPass.cpp:91-105 | Whatever complete schedules the traces get, one after another, the rewritten function is valid, runs as the original in every world where the speculation test is sound, keeps anchors and instructions as promised, and traces without a turn keep their code. |
| GlobalResults.RewrittenEndsAsPromised | src/schedulerPass.cpp:91-105 | Over all traces: where every scheduled instruction ends, what code every block ends with, and how many values stay live, in terms of the original, the result, and the loops, speculation test and budget the pass was given. |
| GlobalResults.TallyCounts | include/applySchedule.hpp:130-134 | Over all traces candidates are exactly the instructions, but PHIs and terminators, that are not in the first block of their trace, and done are exactly those in another block than before. |
| GlobalRewrites.EntryLiveIsExact | src/schedulerPass.cpp:92-94 | List scheduling starts from exactly the values live, by paths, on entry to the first block of the trace. |
| GlobalPasses.ScheduleForTrace | src/schedulerPass.cpp:91-105 | A list schedule of a graph built before earlier traces moved holds every instruction of the trace but PHIs and terminators. |
| GlobalRewrites.ScheduleStillFits | src/schedulerPass.cpp:91-105 | Such a schedule is still legal when only other blocks have changed. |
| GlobalRewrites.RescheduleTrace | src/schedulerPass.cpp:91-105 | Rewriting one more trace keeps everything the pass promises about the function so far. |
| GlobalRewrites.TallyAfterBalances | include/applySchedule.hpp:257-261 | After any number of traces candidates equal hoists plus the five blocked counters. |
| GlobalPasses.BuildGraphs | include/ddg.hpp:119-205 | One graph per trace, each exactly the dependence graph of its trace. |
| GlobalPasses.Analyse | src/schedulerPass.cpp:28-75 | The analyses the scheduler reads are exact: liveness by paths, dominators by paths. |
| LocalPasses.LocalSchedulerPass | src/schedulerPass.cpp:119-148 | Every block becomes its own code with the regions covered by a greedy list schedule of its own graph sorted by it, and nothing else changed; SSA validity, every configuration of every run in every world, the position of everything that must not move and every block's instructions are kept; the live sets used are exact; the peak is the largest live count seen over all blocks. |
| LocalPasses.RescheduleBlock | include/localScheduler.hpp:70-75 | Rewriting one more block keeps validity, every configuration of every run, anchors and contents. |
| LocalPasses.ScheduledForOriginal | include/localScheduler.hpp:85-110 | The schedule of a block does not depend on how the blocks before it were reordered. |
| ApplySchedule.ApplySchedule | include/applySchedule.hpp:70-255 | The function becomes Phase 1 of every trace block followed by one turn per scheduled instruction; the statistics grow by exactly one candidate and one outcome per candidate, and only when they are on. |
| ApplySchedule.AppliedKeepsMeaning | include/applySchedule.hpp:70-255 | The rewrite of a trace keeps SSA validity and, with a sound speculation test, every run of any length. |
| ApplySchedule.AppliedFixesAnchors | include/applySchedule.hpp:88-90 | PHIs, terminators and every instruction that touches memory, has side effects, or is a call, an alloca, an EH pad or a token stay in their block in their order; blocks outside the trace keep their code. |
| ApplySchedule.AppliedPlaces | include/applySchedule.hpp:155-242 | Every instruction is still there, in its own block or, if it is none of those, in an earlier trace block of the same loop that strictly dominates it and is no loop header. |
| ApplySchedule.Phase1Keeps | include/applySchedule.hpp:88-90 | Phase 1 over any trace keeps validity, every configuration of every run, what must not move and contents, and is exactly the reordering of the trace blocks. |
| ApplySchedule.RunPhase1 | include/applySchedule.hpp:88-90 | The in-place loop sorts the regions of every trace block that the schedule covers, and changes nothing else. |
| ApplySchedule.Phase1Reorders | include/applySchedule.hpp:88-90 | Phase 1 leaves every trace block with its covered regions sorted by the schedule, and every other block alone. |
| TraceResults.Phase1InScheduleOrder | include/scheduleLegality.hpp:48-65 | With the complete schedule of a trace, movable instructions of a trace block with nothing fixed between them stand in schedule order after Phase 1. |
| TraceResults.AppliedPlacesEarliest | include/applySchedule.hpp:160-242 | Each scheduled instruction ends in the first trace block before its own that was legal for it at its turn; the live values of a block are then those on entry and those hoisted there so far. |
| TraceResults.AppliedCode | include/applySchedule.hpp:88-242 | Every trace block ends with its code sorted within its regions, less what left, and before its terminator what arrived, in schedule order. |
| TraceResults.AppliedBoundsPressure | include/applySchedule.hpp:216-237 | With pressure on, the values live on entry to a trace block and those hoisted there are no more than the larger of the former and the budget plus the widest instruction hoisted there. |
| ApplySchedule.HoistOne | include/applySchedule.hpp:122-254 | One iteration of the Phase 2 loop takes exactly the specified turn and counts exactly its outcome. |
| ApplySchedule.FindTarget | include/applySchedule.hpp:160-224 | The first block in trace order that passes every gate, and otherwise the reason that got furthest. |
| ApplySchedule.Attempt | include/applySchedule.hpp:164-225 | The gates in source order, and which one fails. |
| ApplySchedule.HighestIsHighest | include/applySchedule.hpp:136-148 | The recorded reason is ranked no lower than that of any attempt, and is one of them. |
| ApplySchedule.ReasonIsKnown | include/applySchedule.hpp:244-252 | A candidate that is not hoisted always has a reason: the None case is never reached. |
| ApplySchedule.RunTallyBalances | include/applySchedule.hpp:133-158 | The accounting balances after any run of Phase 2. |
| HoistAccounts.TurnCounts | include/applySchedule.hpp:133-158 | A turn of an instruction of a later trace block counts it once as a candidate and once under what became of it: done if some earlier block was legal, else the latest of loop, dominance, operand, unsafe and pressure at which any earlier block stopped; what must not move is unsafe. |
| HoistAccounts.NoChanceNoCount | include/applySchedule.hpp:130-134 | Any other instruction is not counted. |
| HoistAccounts.RunCounts | include/applySchedule.hpp:130-134 | Over a schedule candidates are exactly the scheduled instructions of later blocks, and done exactly those that changed their block. |
| ApplySchedule.RecordHomes | include/applySchedule.hpp:80-85 | Every instruction of the trace is mapped to its block before any movement, and nothing else is. |
| ApplySchedule.MoveToBlock | include/applySchedule.hpp:227-237 | The move and the update of the dynamic live set are one specified step. |
| HoistTurns.TurnsKeepMeaning | include/applySchedule.hpp:122-254 | Phase 2 over any schedule: SSA validity is an invariant and every run keeps its meaning. |
| HoistTurns.TurnKeepsMeaning | include/applySchedule.hpp:160-242 | So does every single turn. |
| HoistTurns.PassedGates | include/applySchedule.hpp:164-205 | Passing the gates makes the move a legal hoist: pure instruction, strictly dominating target of the same loop that is no header and ends in a terminator, every operand available there, speculation accepted. |
| Placement.FinalPlace | include/applySchedule.hpp:160-242 | Each instruction ends in the first trace block before its own that was legal for it at its turn, and in its own block if and only if none was: no loop header, same loop, dominating, ending in a terminator, all operands there, speculation accepted, within the budget. |
| Placement.TurnPlacesEarliest | include/applySchedule.hpp:160-242 | The same for a single turn. |
| Placement.PassIsLegal | include/applySchedule.hpp:164-225 | A block passes all gates if and only if it is legal. |
| Placement.OperandTestIsAvailability | include/applySchedule.hpp:185-193 | The operand test against the dominator tree accepts exactly if every operand is there just before the terminator. |
| Placement.TurnOnlyMoves | include/applySchedule.hpp:227-237 | A turn changes nothing, or moves one instruction to just before the terminator of its new block and adds its value, if tracked, to that block's live set. |
| Placement.LiveAfterTurns | include/applySchedule.hpp:95-97 | The dynamic live set of a block is always what it started with and the tracked values hoisted into the block. |
| Placement.TurnsWeave | include/applySchedule.hpp:124-242 | After Phase 2 a block holds what stayed, in its order, and before its terminator what arrived, in schedule order. |
| HoistTurns.MovedUpTheTrace | include/applySchedule.hpp:161-176 | Whatever moved ended in an earlier trace block that strictly dominates its original block, in the same loop, and never in a loop header. |
| HoistTurns.TurnsConserve | include/applySchedule.hpp:227-229 | No instruction is lost or invented by any sequence of turns. |
| HoistTurns.TurnsFixAnchors | include/applySchedule.hpp:152-158 | Every anchor stays in its block, in the same order. |
| HoistTurns.TurnsStayInTrace | include/applySchedule.hpp:124-128 | Blocks outside the trace keep their code. |
| DynamicPressure.DynamicPressureBounded | include/applySchedule.hpp:216-237 | With pressure on, no hoist sequence takes a block's dynamic live set past the larger of its initial size and the budget plus the operand count of the widest instruction hoisted into it. |
| DynamicPressure.BudgetIsBoundExactlyWhenNothingDies | include/applySchedule.hpp:216-237 | For every budget of at least 1, the test bounds the live set it guards, whatever that set is, if and only if none of the instruction's tracked operands ends its life in the block. |
| DynamicPressure.BudgetIsBoundForTrackedValues | include/applySchedule.hpp:216-237 | For live sets of tracked values only, if and only if none does or no more values are tracked than the budget. |
| DynamicPressure.BudgetHoldsWhenNothingDies | include/applySchedule.hpp:216-237 | Over a whole run: if nothing dies at the hoists into a block, its live set stays within the larger of its initial size and the budget. |
| DynamicPressure.SomeRunsPassTheBudget | include/applySchedule.hpp:220-237 | A valid function whose one hoist takes a block's live set from one value to two under a budget of one. |
| DynamicPressure.LastUseLiveExact | include/applySchedule.hpp:95-97 | The live sets that run starts from are the function's real ones. |
| Hoisting.HoistKeepsValid | include/applySchedule.hpp:171-229 | One legal hoist keeps SSA validity, around loops and for PHI uses. |
| Hoisting.HoistKeepsRuns | include/applySchedule.hpp:195-229 | One legal hoist keeps every run in every world where the instruction cannot trap at the new place. |
| Hoisting.HoistedPlaces | include/applySchedule.hpp:227-229 | Exactly the hoisted instruction changes its block. |
| Hoisting.HoistReachesFurther | include/applySchedule.hpp:171-177 | Wherever the definition was available before, its new place strictly dominates. |
| SsaEquations.EquationsHold | include/applySchedule.hpp:185-205 | In every run of a valid function, at every point, a definition that dominates the point has been computed, and a pure one still equals its own right-hand side. |
| SsaEquations.NoUndefinedRead | include/applySchedule.hpp:185-193 | No run of a valid function reads a value that has not been computed: ordinary instructions read what is there, and a PHI has an entry for the block control came from whose value had been computed when control left it. |
| Graphs.DominatesAcrossEdge | include/applySchedule.hpp:171-177 | If T strictly dominates Y and X leads to Y with X reachable, T dominates X. |
| Graphs.DominatorsFormChain | include/dom.hpp:70-98 | Of two dominators of a reachable block one dominates the other. |
| Regions.ReorderBlockWithinRegions | include/scheduleLegality.hpp:20-67 | The in-place split and splice computes the recursive specification: each maximal pure run before an anchor takes the schedule's order if the schedule covers it, and is untouched otherwise. |
| Regions.ReorderKeepsBlock | include/scheduleLegality.hpp:17-67 | Executing a reordered reachable block from any state, for any schedule that respects in-block def-use edges, complete or not, gives the same trap outcome, environment, memory and events. |
| Regions.ReorderKeepsMeaning | include/scheduleLegality.hpp:17-67 | Reordering a block keeps SSA validity and every configuration of every run in every world, environments included. |
| Regions.ReorderedFixesAnchors | include/scheduleLegality.hpp:17-19 | Every anchor stays at exactly its position; pure instructions stand where pure ones stood. |
| Regions.ReorderedContents | include/scheduleLegality.hpp:46-66 | The block holds the same instructions. |
| RegionOrder.ReorderedExactly | include/scheduleLegality.hpp:17-67 | The reordering of a block is the one list in which everything fixed stands where it stood, every closed region the schedule covers is sorted by the schedule, and every other region and the open end are as they were. |
| RegionOrder.NeighboursInOrder | include/scheduleLegality.hpp:48-65 | In it movable instructions with nothing fixed between them, of a covered region, stand in schedule order. |
| Regions.CollectRegions | include/scheduleLegality.hpp:22-44 | The scan yields the regions with their closing anchors, and a run without a closing anchor last. |
| Regions.ScanSplits | include/scheduleLegality.hpp:22-44 | The scanned pieces are the block, in order: regions are non-empty runs of pure instructions, everything else is an anchor. |
| Regions.OrderRegion | include/scheduleLegality.hpp:48-55 | The members of the region in schedule order, each once. |
| Regions.MoveRegion | include/scheduleLegality.hpp:64-65 | Moving the ordered instructions one by one before the anchor leaves them in that order, everything else in place. |
| Regions.ArrangeRegion | include/scheduleLegality.hpp:57-65 | A region is left alone when the schedule is incomplete for it or no anchor closes it. |
| Regions.ArrangedPermutes | include/scheduleLegality.hpp:46-58 | An arranged region is a permutation of the region. |
| Regions.ArrangedOrdered | include/scheduleLegality.hpp:52-65 | A rearranged region defines before it uses. |
| RegionSwap.SwapKeepsValid | include/scheduleLegality.hpp:64-65 | Another well-ordered arrangement of a region keeps SSA validity. |
| RegionSwap.SwapKeepsBlock | include/scheduleLegality.hpp:64-65 | Executing the block from any state gives the same trap outcome, environment, memory and events. |
| RegionSwap.SwapKeepsRuns | include/scheduleLegality.hpp:64-65 | Hence every configuration of every run is kept in every world. |
| RegionSwap.SameRegion | include/scheduleLegality.hpp:8-15 | Two well-ordered arrangements of the same pure code trap together and end in the same state. |
| FunctionBodies.FunctionBody.MoveBefore | include/scheduleLegality.hpp:64-65 | Every block keeps its other instructions in their order, the instruction leaves its own block, and it stands once in the target block, immediately before the given one. |
| FunctionBodies.MovedBeforePlaces | include/applySchedule.hpp:227-229 | The same of the layout function that Phase 1 and Phase 2 are specified with. |
| Ddgs.Ddg.AddEdge | include/ddg.hpp:100-109 | Both mirrored lists gain the edge once, duplicates are ignored, and predCount grows with the predecessors. |
| BuildDdg.BuildGraph | include/ddg.hpp:128-202 | The graph has exactly the nodes, the true dependences, the order edges and the latencies of its blocks, for traces and for single blocks. |
| BuildDdg.AddOperandEdges | include/ddg.hpp:158-181 | Exactly the true dependences of one instruction are added. |
| BuildDdg.AddOrderEdges | include/localScheduler.hpp:48-61 | Exactly the order of the operations of one block that may touch memory or state is added. |
| Dependence.EdgesGoForward | include/ddg.hpp:155-200 | In valid SSA every edge into an ordinary instruction comes from one that strictly precedes it. |
| Dependence.EdgesHaveReasons | include/ddg.hpp:155-200 | Between two ordinary instructions there is an edge if and only if the second uses the value of the first, or both stand in one block, the first earlier, and each is a call, may touch memory or has side effects; in a local graph this holds of all instructions. |
| Dependence.ScheduleKeepsOrder | include/listScheduler.hpp:220-228 | A list schedule puts every instruction after those whose values it uses, across blocks too, and keeps the order of the calls, memory and side-effect operations of each block. |
| Dependence.NodesInProgramOrder | include/ddg.hpp:134-147 | The graph lists its nodes in program order, block by block. |
| Dependence.CyclesNeedPhis | include/localScheduler.hpp:36-46 | Every cycle of a dependence graph passes through a PHI. |
| Dependence.TraceGraphAcyclic | include/ddg.hpp:7-10 | The graph of a trace of reachable blocks has no cycle. |
| Dependence.LocalGraphAcyclicExactly | include/localScheduler.hpp:36-46 | A local graph is acyclic if and only if no PHI depends on itself through in-block dependences of the block, a condition on the code alone. |
| Dependence.SomeLocalGraphsAreCyclic | include/localScheduler.hpp:36-46 | A counting loop whose local graph is a cycle. |
| Dependence.TraceScheduleIsComplete | include/listScheduler.hpp:183-229 | The list schedule of a trace holds every instruction but PHIs and terminators, each once. |
| Dependence.TraceRegionsAreComplete | include/scheduleLegality.hpp:57-58 | So every region of a trace block is covered. |
| Dependence.LocalScheduleIsExact | include/listScheduler.hpp:188-229 | The local schedule holds exactly the non-terminators that are no PHI and depend on no PHI of the block. |
| Dependence.ScheduleRespectsBlock | include/listScheduler.hpp:220-228 | A list schedule respects the in-block dependences of every block it covers. |
| CriticalPaths.TopoSortDFS | include/critical.hpp:20-33 | On any finite graph the depth-first visit ends, lists each node once, and places every node that is on no cycle after all its successors. |
| CriticalPaths.TopologicalSort | include/critical.hpp:37-54 | Every node once; read backwards it is a post-order. |
| CriticalPaths.ComputeCriticalPath | include/critical.hpp:71-96 | Every node on no cycle satisfies the longest-path recurrence. |
| CriticalPaths.CriticalPathIsLongest | include/critical.hpp:7-9 | The critical path is the longest latency-weighted path to a sink: an upper bound on all of them, and attained. |
| Latencies.CriticalPathInCycles | include/ddg.hpp:85-95 | The critical path is the largest number of cycles of any dependence path to a sink, at one cycle per instruction and 2 more for a load, 4 for a call, 1 for a multiplication and 9 for a division. |
| CriticalPaths.CriticalPathDecreases | include/critical.hpp:63-70 | Along every edge the critical path strictly falls, since every delay is at least 1. |
| ListScheduler.ListSchedule | include/listScheduler.hpp:168-231 | On any graph: emits exactly the nodes reached by no PHI, terminator or cycle, each once, after all its predecessors; predCount ends as the number of unscheduled predecessors; each emission is unbeaten among the ready nodes and beats all that queued before it; the schedule is sorted by critical path; the live set and the peak are those of the emissions. |
| ListScheduler.FinishedIsComplete | include/listScheduler.hpp:196-231 | When the queue runs empty nothing that could be emitted is missing. |
| ListScheduler.StuckIsBlocked | include/listScheduler.hpp:192-227 | A node that never becomes ready depends on a PHI, a terminator or a cycle. |
| ListScheduler.ReleaseSuccessors | include/listScheduler.hpp:220-228 | predCount always equals the number of unscheduled predecessors and the queue is exactly the ready nodes. |
| ListScheduler.ReleasedIsShorter | include/listScheduler.hpp:220-228 | Whatever an emission releases has a shorter critical path than what was emitted. |
| ListScheduler.PickBest | include/listScheduler.hpp:116-150 | Nothing in the queue has a longer critical path, or one as long and a lower pressure delta, and the first such node wins. |
| ListScheduler.PressureOnlyBreaksTies | include/listScheduler.hpp:132-147 | Any two complete sorted schedules of a graph have the same sequence of critical paths, so the pressure option only permutes within ties. |
| ListScheduler.TieBreakLeavesFewestLive | include/listScheduler.hpp:132-147 | With pressure on, among ready nodes of equal critical path the one emitted leaves the fewest values live, if neither names a dying value twice or its own. |
| ListScheduler.LiveCountsAre | include/listScheduler.hpp:173-213 | The live counts are those before, between and after the emissions. |
| ReadyQueues.QueueHoldsReady | include/listScheduler.hpp:178-227 | The queue holds exactly the ready nodes, each once. |
| ReadyQueues.QueueIsFifo | include/listScheduler.hpp:178-227 | Nodes stand in the queue in the order in which their last predecessor was emitted; those released together in the order of its successors, those ready from the start in the order of the graph. |
| ReadyQueues.ScheduleIsUnique | include/listScheduler.hpp:116-231 | A graph has exactly one greedy list schedule: longest critical path, then lowest pressure delta, then first come. |
| Pressure.PressureDelta | include/listScheduler.hpp:46-80 | The loop counts one birth and every dying operand occurrence. |
| Pressure.UpdateLiveSet | include/listScheduler.hpp:87-110 | The result joins the live set and the operands not live out of the block leave it. |
| Pressure.LiveAfterAll | include/listScheduler.hpp:87-110 | After any instructions a value is live if and only if it was live at first or one of them computed it, and neither that one nor a later one used it where it is not live out. |
| Pressure.PredictionIsLowerBound | include/listScheduler.hpp:46-110 | For an instruction that is not its own operand the prediction never exceeds the actual change, and equals it if and only if no dying live operand is listed twice. |
| Pressure.PredictionsSumToLowerBound | include/listScheduler.hpp:196-213 | Over a whole schedule the final live count is at least the initial one plus all predictions. |
| BreadthFirst.Bfs | include/traceIdentification.hpp:177-186 | Exactly the reachable blocks, once each, by non-decreasing shortest distance and in the order in which a walk along the list and each block's successors first meets them, with their positions. |
| BreadthFirst.BfsOrderIsUnique | include/traceIdentification.hpp:177-186 | A graph has exactly one such order. |
| Dominators.ComputeDominators | include/dom.hpp:19-100 | For every reachable block the set is exactly its dominators by paths, and the recorded immediate dominator is the one. |
| Dominators.IterateDominators | include/dom.hpp:36-68 | The in-place iteration ends, since the sets only shrink, at the path-dominance sets. |
| Dominators.FixedPointIsExact | include/dom.hpp:44-68 | A fixed point that has kept all dominators holds nothing else. |
| Dominators.ImmediateDominator | include/dom.hpp:75-97 | The double loop always finds a block: a strict dominator that every other strict dominator dominates. |
| Dominators.IdomIsUnique | include/dom.hpp:72-73 | There is at most one such block. |
| Dominators.DomTestIsDominance | include/dom.hpp:36-68 | Read as a test on two blocks, the sets decide dominance by paths for every pair with a reachable second block. |
| Liveness.ComputeLiveness | include/liveness.hpp:14-95 | On exit a value is in IN of a block exactly when some path from it reaches an upward-exposed use before a definition, and OUT likewise; the sets solve the data-flow equations. |
| Liveness.SolutionsContainLive | include/liveness.hpp:65-92 | Every solution of the equations contains the path-live values, so the result is the least. |
| Liveness.BlockUseDef | include/liveness.hpp:46-59 | use holds exactly the upward-exposed uses, PHI operands included, and def exactly the definitions. |
| Liveness.Universe | src/schedulerPass.cpp:61-71 | Exactly the arguments and the values of the placed non-void instructions are tracked. |
| Traces.IdentifyTraces | include/traceIdentification.hpp:158-250 | The whole list of traces is that of the naive builder that rescans the breadth-first order for every seed. |
| Traces.FormTraces | include/traceIdentification.hpp:188-250 | Sorting once and moving a cursor forms exactly the naive traces. |
| Traces.CursorFindsNaiveSeed | include/traceIdentification.hpp:188-218 | With everything before it visited, the cursor finds the first unvisited block of strictly largest nonzero frequency. |
| Traces.StableSortDescSorts | include/traceIdentification.hpp:199-202 | The sorted list is by falling frequency, ties in breadth-first order, and holds the same blocks. |
| Traces.BestSuccessor | include/traceIdentification.hpp:67-106 | The first candidate of largest probability among unvisited successors above the threshold that are no back edge. |
| Traces.BestPredecessor | include/traceIdentification.hpp:113-151 | The same for predecessors. |
| Traces.FormTrace | include/traceIdentification.hpp:220-249 | The grown trace is the backward part, the seed and the forward part. |
| Traces.NaiveTracesOk | include/traceIdentification.hpp:153-157 | Traces are pairwise disjoint paths over edges above the threshold, forward in breadth-first order, of reachable blocks; seed frequencies never increase; every reachable block of nonzero frequency is covered. |
| TraceGrowth.TracesAreExactlyGreedy | include/traceIdentification.hpp:204-250 | The traces are the one list in which each seed is the hottest free block, ties in breadth-first order; every step forward, and then back from the seed, goes to the first of the likeliest free neighbours that are likely enough and no back edge; and growing ends only where there is none. |
| TraceGrowth.TracesAreMaximal | include/traceIdentification.hpp:225-246 | Every likely predecessor of a trace's first block, and successor of its last, that is no back edge is in the trace or an earlier one. |
| Traces.CoveredExactly | include/traceIdentification.hpp:212-218 | A block that is executed, is pulled in by executed blocks whose only likely way leads to it, or lies in a region of never executed blocks that no likely edge enters or leaves, is in a trace if and only if it is reachable and one of the first two. |
| Traces.TracesFollow | include/traceIdentification.hpp:225-246 | If some trace holds a block, some trace holds the block's only likely next block. |
| Traces.ColdIsLeftOut | include/traceIdentification.hpp:212-218 | No trace holds a block of a never executed region that no likely edge enters or leaves. |
| Traces.EveryBlockInOneTraceDecided | include/traceIdentification.hpp:157 | For one given profile under which every block is executed, pulled in or in a cold region: every block is in exactly one trace if and only if every block is reachable and executed or pulled in. |
| Traces.EveryBlockInOneTraceExactly | include/traceIdentification.hpp:157 | Every block is in exactly one trace, whatever numbers stand for the edge probabilities, if and only if every block is reachable and has nonzero frequency. |
| Traces.AllExecutedAllCovered | include/traceIdentification.hpp:157 | For any given profile that condition suffices. |
| Traces.SomeBlocksAreInNoTrace | include/traceIdentification.hpp:157 | A function with a reachable block in no trace. |

## Left out

- `include/reaching.hpp`: its result is never read, and the fixed-point work would repeat that of liveness.
- `include/schedulerPass.hpp`: the value-to-index table; sets of values need no indices.
- `DDG::leaves`, `DDG::roots`: never called.
- Environment variables, `SCHED_STATS` printing, logging to `outs()`, the trace-formation counters and length histogram,
  pass registration and `PreservedAnalyses`: input, output and glue. The values read from the environment are
  parameters.
- Traces.CoveredExactly: for other never executed blocks it does not say whether growth picks them up; with several
  likely edges at a block that depends on the order in which the traces are grown.
- Traces.EveryBlockInOneTraceDecided: covers the profiles that leave no such block.
- Traces.EveryBlockInOneTraceExactly: ranges over all numbers as probabilities, also those that do not sum to one; for one
  given profile only one direction holds in general.
- Poison, undef, `freeze`, types, exact opcodes and alias analysis: one opaque operation per pure instruction, one opaque
  effect per anchor. The model's runs therefore do not tell undefined behaviour from a trap.
- LLVM's DominatorTree, LoopInfo, BranchProbabilityInfo, BlockFrequencyInfo and `isSafeToSpeculativelyExecute`:
  parameters with the contracts named above. Block frequencies and probabilities are plain numbers; that probabilities
  out of a block sum to one is not assumed.
- Exceptional edges: the value of a terminator such as an invoke is taken to be there on every outgoing edge.
- Integer widths: delays, critical paths, frequencies and pressure counts are unbounded, so the `INT_MAX` and `-1` that
  start `pickBest` are replaced by the fact that the first node is always taken.
- Object identity and memory management of graph nodes, DenseMap and BitVector internals, and the iteration order of
  pointer sets, which the source never relies on.
- `src/schedRegAllocDriver.cpp`, the shell and Python scripts, benchmarks and Makefile: orchestration.
- Cycle counts, spills and schedule optimality: not decided by this code.
