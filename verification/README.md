# Verification of SPIRV-Cross control-flow analysis

A Dafny model of the parts of the vendored SPIRV-Cross compiler that decide whether its output means
what its input meant: the control-flow graph with its dominator tree, the analyses that depend on it,
the two whole-run analyses over calls and over reads and writes, and the storage layer underneath.
`dafny verify dfyconfig.toml` checks everything.

## How the model is laid out

| file | models |
|---|---|
| Spirv.dfy | blocks, terminators, merge declarations and functions as the parser leaves them |
| Graph.dfy, Traversal.dfy | the recorded graph as a value, the invariant of the depth-first traversal, and its preservation step by step |
| Cfg.dfy | the class `CFG`: traversal, edge maps, immediate dominators |
| Paths.dfy, Dominance.dfy | dominance defined by paths (SPIR-V Specification, section 2.2.5) and the theory of the dominator tree |
| Structure.dfy, Soundness.dfy, Reducibility.dfy, Irreducible.dfy | what a finished traversal says about the function, about real executions, for which functions its dominators hold, and one for which they do not |
| DominatorBuilder.dfy, Walks.dfy, LoopVariables.dfy | the dominator accumulator and the backward and forward walks |
| Preservation.dfy, Instructions.dfy, Lut.dfy, LutLoads.dfy, LutExample.dfy, Scope.dfy | parameter preservation, the access handler, constant lookup tables, variable placement |
| CombinedSamplers.dfy, SamplerHandler.dfy | combined image samplers over the call graph |
| Forwarding.dfy | forwarded expressions and their invalidation |
| NameCache.dfy | unique names |
| Lists.dfy | elements and repetition in lists |
| SmallVector.dfy, ObjectPool.dfy, Variants.dfy | in-place vectors, object pools, variants that own pool objects |

Objects that the program updates in place are classes with the same fields; each has a `Valid()`
invariant and a value (`State()`, `Contents()`, `Recorded()`) that its methods are specified by. Ghost
fields record history the program does not keep: when a block was discovered, which blocks a
`DominatorBuilder` has received, how often memory has changed, which names were issued.

The central argument: the traversal drops a branch exactly when its target's number is not lower, so
recorded edges descend, the recorded graph has no cycle, one pass over the reverse post-order yields the
exact dominator tree, and every walk over it ends. All dependent analyses use only that.

Iteration over unordered containers is modelled as a choice of any remaining element, so results that
are proved do not depend on the order.

## Where the code does less than its comments and uses suggest

- Dominators outside structured control flow. The recorded graph lacks the dropped branches. For a
  reducible function, one in which every cycle of branches and declared merges has a block that
  dominates all of it, the reported dominators lie on every run (`Reducibility.ReportedDominatorsHold`),
  and `Reducibility.ReducibleIff` says how the traversal decides whether a function is one. For the
  function of `Irreducible.DominatorMissed` a reported dominator is missed by a run.
  `Irreducible.SwappedIsSound` shows that outside reducible functions the answer depends on the order
  of branch targets; `Soundness.SoundIffDroppedStayBelow` is the exact condition in terms of the graph.
- Constant lookup tables. The scan of the dominating block stops at the first access chain and counts
  only OpStore (spirv_cross.cpp:3558-3593), so "one, and exactly one write" is not what it checks:
  `LutExamples.PromotesTwiceStored` is a variable that is promoted although a load yields another value.
  `LutLoads.LutLoadsConstantIff` gives the exact condition, over the runs of the function, under which
  all loads yield the chosen constant, and `LutLoads.PromotionIsRightIff` the same by places in the
  function; writes through pointers that the compiler traces to no variable are included.
- First access. The comment at spirv_cross.cpp:3774 wants a store as the first access of a variable;
  the check sees neither accesses through access chains nor the source of OpCopyMemory:
  `Scopes.CopyGoesUnnoticed`, `Scopes.LoadThroughChainGoesUnnoticed`, with the exact condition in
  `Scopes.FirstAccessWritesIff`.
- Forwarded expressions. A store through a physical pointer flushes the aliased variables only
  (spirv_cross.cpp:384-387), while a load through it makes the expression a dependee of the variable
  that holds the pointer: `Forwarding.PhysicalBufferGoesStale`. A store through an untraced pointer
  flushes the listed variables only (spirv_cross.cpp:396-404, 438-450), and storage buffers decorated
  Restrict, which such a pointer may reach, are on no list (spirv_cross.cpp:78-95):
  `Forwarding.RestrictBufferGoesStale`. `Forwarding.Context.CoveredIff` says exactly which reads no
  store can leave stale; what pointers may reach is an input of the model.
- Dead code in `SmallVector::insert`: with at least one element after the position, the capacity
  asked for is never 0 and never below the count (spirv_cross_containers.hpp:391-397), so an assertion
  stands in for those lines.

## Model

| member | source | states |
|---|---|---|
| Cfg.CFG.constructor | external/SPIRV-Cross/spirv_cfg.cpp:33-39 | for every well-formed function the finished object is valid: the traversal invariant holds, recorded edges go to lower numbers, exactly the visited blocks have a dominator entry, and each non-entry entry is the path-defined immediate dominator |
| Cfg.CFG.PostOrderVisit | external/SPIRV-Cross/spirv_cfg.cpp:94-208 | a visit ends (fewer unmarked blocks at each call), keeps the traversal invariant and all earlier numbers and edges, answers true exactly for finished blocks, changes nothing on a marked block, and gives a new block the last number; the blocks in progress form a way from the entry that passes no block twice |
| Cfg.CFG.VisitBranches | external/SPIRV-Cross/spirv_cfg.cpp:123-151 | looks at exactly the branch targets of the terminator, in order (place by place in `Structure.TargetsInOrder`); each is already finished, first discovered at that moment, or in progress, and in the last case was discovered no later than the block and lies on the way from the entry to it |
| Cfg.CFG.VisitTarget | external/SPIRV-Cross/spirv_cfg.cpp:119-120 | after looking at one target, the edges of the block in progress are exactly its targets that finished before it, once each, in order of first appearance |
| Cfg.CFG.VisitSelectionMerge | external/SPIRV-Cross/spirv_cfg.cpp:160-202 | after the implied branch the block is ready to be numbered: everything looked at, the selection fix-up in place |
| Cfg.CFG.AddSelectionBranch | external/SPIRV-Cross/spirv_cfg.cpp:162-201 | the header becomes an extra predecessor of its merge block exactly when that block has one other way in, none, or (for a switch) the header one way out; afterwards the merge block has an incoming edge |
| Cfg.CFG.AddBranch | external/SPIRV-Cross/spirv_cfg.cpp:219-228 | both edge maps gain the edge, without repetition, and nothing else changes |
| Cfg.CFG.BeginVisit | external/SPIRV-Cross/spirv_cfg.cpp:105 | marks the block as in progress and changes no other number or edge |
| Cfg.CFG.EndVisit | external/SPIRV-Cross/spirv_cfg.cpp:205-206 | the block gets the next number and becomes the last of the post-order |
| Cfg.CFG.BuildPostOrderVisitOrder | external/SPIRV-Cross/spirv_cfg.cpp:210-217 | post-order numbers are a bijection with positions, edges descend, every finished block is accounted for, nothing is in progress, and the entry block begins first and ends last |
| Traversal.VisitStarted | external/SPIRV-Cross/spirv_cfg.cpp:99-105 | starting a visit keeps the invariant of the traversal |
| Traversal.VisitEnded | external/SPIRV-Cross/spirv_cfg.cpp:204-207 | numbering a block that has looked at everything keeps the invariant of the traversal |
| Traversal.EdgeRecorded | external/SPIRV-Cross/spirv_cfg.cpp:119-146 | recording an edge from the block in progress to a finished block keeps the invariant and the numbers and edges of finished blocks |
| Traversal.EdgeRoots | external/SPIRV-Cross/spirv_cfg.cpp:119-146 | once the edge is recorded, no finished block other than the entry is without predecessor |
| Traversal.VisitedOne | external/SPIRV-Cross/spirv_cfg.cpp:94-102 | after one more target, the list of looked-at targets grows by it; it is finished, discovered at this very moment, or in progress with a visit that encloses the one of the block |
| Traversal.StackPushed | external/SPIRV-Cross/spirv_cfg.cpp:99-105 | a block that begins extends the way from the entry on which exactly the blocks in progress lie, none twice |
| Traversal.TopEnclosed | external/SPIRV-Cross/spirv_cfg.cpp:81-84 | a block in progress was discovered no later than the current one and lies on the way to it |
| Traversal.MergeVisited | external/SPIRV-Cross/spirv_cfg.cpp:160-202 | a block whose selection merge has been visited and fixed up has satisfied all that numbering it requires |
| Traversal.EmptyListAdded | external/SPIRV-Cross/spirv_cfg.cpp:62-64 | the empty list that looking up an unknown block stores changes no property of the traversal |
| Structure.VisitsExactlyReachable | external/SPIRV-Cross/spirv_cfg.cpp:94-217 | a block is visited if and only if a path of branches and declared merges leads to it from the entry block |
| Structure.BranchDroppedIff | external/SPIRV-Cross/spirv_cfg.cpp:119-146 | a branch or loop merge is dropped if and only if the final number of its target is not lower than that of its source |
| Structure.EdgeHasReason | external/SPIRV-Cross/spirv_cfg.cpp:119-200 | every recorded edge is a branch or a declared merge of its source |
| Structure.KeptExactly | external/SPIRV-Cross/spirv_cfg.cpp:94-102 | the edges kept for a list of targets are exactly those targets that finished before the block |
| Structure.TargetsVisited | external/SPIRV-Cross/spirv_cfg.cpp:115-151 | every target of a visited block is visited |
| Structure.RetreatEncloses | external/SPIRV-Cross/spirv_cfg.cpp:79-102 | a target whose number is not lower was in progress: its visit encloses that of the source, and a way to the source that passes no block twice leads through it |
| Structure.RetreatCloses | external/SPIRV-Cross/spirv_cfg.cpp:79-102 | such a target closes a cycle of branches and declared merges (constructed) |
| Structure.MergeFirst | external/SPIRV-Cross/spirv_cfg.cpp:115-120 | a recorded loop merge was finished before the header or is the first block that the header discovers |
| Structure.MergeBelowBody | external/SPIRV-Cross/spirv_cfg.cpp:115-120 | everything reached from a recorded loop merge is numbered below every block that the loop body discovers, at any nesting depth |
| Structure.BranchRecordedIffLower | external/SPIRV-Cross/spirv_cfg.cpp:119-146 | field by field: the next block, both selection targets, every case, a default block that is not 0 and a loop merge are recorded successors if and only if their number is lower |
| Structure.RecordedByField | external/SPIRV-Cross/spirv_cfg.cpp:119-200 | and nothing else is a recorded successor, other than the merge block of a selection header |
| Structure.SelectionMergeByField | external/SPIRV-Cross/spirv_cfg.cpp:160-202 | a selection header is recorded before its merge block whenever that would have at most one predecessor or a switch would have one way out, never for a higher number, and for a block it does not branch to in these cases only |
| Structure.StarOrder | external/SPIRV-Cross/spirv_cfg.cpp:115-200 | when control ends in each target of the entry block, their numbers are their places: loop merge, branches in field order (cases before the default), selection merge |
| Structure.TargetsInOrder | external/SPIRV-Cross/spirv_cfg.cpp:115-200 | the list of targets that the search looks at, place by place: loop merge, branch fields in order, selection merge, and no more |
| Structure.TargetStepByField | external/SPIRV-Cross/spirv_cfg.cpp:115-200 | the graph of branches and declared merges that reachability and reducibility speak of has exactly the edges that the fields name |
| Soundness.RealStepByField | external/SPIRV-Cross/spirv_cfg.cpp:123-151 | a run can go on from a block exactly to the blocks that its terminator names; a switch includes its default block |
| Cfg.CFG.FindCommonDominator | external/SPIRV-Cross/spirv_cfg.cpp:41-51 | the two-finger climb ends and returns the nearest common dominator, defined by paths, even while the tree is complete only above a given number |
| Cfg.CFG.BuildImmediateDominators | external/SPIRV-Cross/spirv_cfg.cpp:53-77 | one pass over the reverse post-order leaves the exact dominator tree: no fixpoint is needed and the assertion of line 70 holds each time |
| Cfg.CFG.DominateBlock | external/SPIRV-Cross/spirv_cfg.cpp:59-76 | one iteration extends the exact dominator tree by the next lower block |
| Cfg.CFG.FoldPredecessors | external/SPIRV-Cross/spirv_cfg.cpp:66-75 | folding the predecessors of a block into its entry gives its immediate dominator and leaves all other entries alone |
| Cfg.CFG.PrecedingOf | external/SPIRV-Cross/spirv_cfg.cpp:62 | returns the predecessors of the block and keeps the traversal valid although the look-up may store an empty list |
| Dominance.TraversedDescends | external/SPIRV-Cross/spirv_cfg.cpp:94-208 | every finished traversal has distinct positive numbers, edges that strictly descend, agreeing edge maps and a predecessor for every non-entry block |
| Dominance.PathDescends | external/SPIRV-Cross/spirv_cfg.cpp:94-208 | numbers fall along every recorded path, so the recorded graph has no cycle |
| Dominance.VisitedIsReached | external/SPIRV-Cross/spirv_cfg.cpp:94-208 | every visited block has a recorded path from the entry block (constructed) |
| Dominance.DominatorIsHigher | external/SPIRV-Cross/spirv_cfg.cpp:41-51 | a dominator of a visited block is visited and has a higher number |
| Dominance.DominatorsFormChain | external/SPIRV-Cross/spirv_cfg.cpp:41-51 | of two dominators of one block the higher-numbered dominates the other |
| Dominance.IdomUnique | external/SPIRV-Cross/spirv_cfg.cpp:53-77 | a block has at most one immediate dominator |
| Dominance.TreeIsDominance | external/SPIRV-Cross/spirv_cfg.cpp:53-77 | climbing the stored tree from a visited block meets exactly its dominators |
| Dominance.NearestUnique | external/SPIRV-Cross/spirv_cfg.cpp:41-51 | a set of blocks has at most one nearest common dominator |
| Dominance.ClimbOne | external/SPIRV-Cross/spirv_cfg.cpp:43-49 | replacing the lower finger by its immediate dominator keeps the set of common dominators |
| Dominance.IdomFromPredecessors | external/SPIRV-Cross/spirv_cfg.cpp:66-75 | the nearest common dominator of all predecessors is the immediate dominator |
| Dominance.PredecessorsFromIdom | external/SPIRV-Cross/spirv_cfg.cpp:297-301 | conversely, the immediate dominator is the nearest common dominator of all predecessors |
| Dominance.NearestFolds | external/SPIRV-Cross/spirv_cfg.cpp:66-75 | nearest common dominators can be folded one block at a time |
| Dominance.NearestPair | external/SPIRV-Cross/spirv_cfg.cpp:340-356 | the result of a fold depends on the set before only through its own nearest common dominator |
| Dominance.PostOrderCovers | external/SPIRV-Cross/spirv_cfg.cpp:204-207 | the post-order lists exactly the visited blocks, block i with number i + 1 |
| Paths.StrictDominators | external/SPIRV-Cross/spirv_cfg.cpp:53-77 | in any graph, the strict dominators of a block are what all its predecessors have in common |
| Soundness.SoundIffDroppedStayBelow | external/SPIRV-Cross/spirv_cfg.cpp:94-208 | the dominators of the recorded graph hold on every path of real and recorded edges, cycles included, if and only if the immediate dominator of the target of each dropped branch dominates its source; an intermediate result, see Reducibility.ReducibleGraph for the condition on the function |
| Soundness.DominatorOnFullPath | external/SPIRV-Cross/spirv_cfg.cpp:94-208 | under that condition a reported dominator lies on each single path, however often it runs through dropped branches |
| Soundness.DroppedBelowIfSound | external/SPIRV-Cross/spirv_cfg.cpp:94-208 | the other half: one dropped branch that violates the condition refutes soundness |
| Soundness.ReducibleStaysBelow | external/SPIRV-Cross/spirv_cfg.cpp:115-151 | when each dropped branch returns to a block that dominates it, the condition is met |
| Soundness.DominatorsHoldOnRuns | external/SPIRV-Cross/spirv_cfg.cpp:94-208 | when each dropped branch returns to a block that dominates it, which Reducibility.ReducibleGraph derives from the function, a dominator of the recorded graph lies on every run from the entry to the block |
| Reducibility.ReducibleIff | external/SPIRV-Cross/spirv_cfg.cpp:79-208 | a function is reducible (each cycle of branches and declared merges has a block that dominates all of it) if and only if every target without a lower number dominates the block that leads to it; so any one traversal decides it |
| Reducibility.RetreatIsDominated | external/SPIRV-Cross/spirv_cfg.cpp:79-102 | in a reducible function a target that was in progress dominates the block that leads to it |
| Reducibility.CycleEnteredOnce | external/SPIRV-Cross/spirv_cfg.cpp:79-102 | conversely, when all such targets dominate their sources, every cycle is entered at one block |
| Reducibility.ReducibleGraph | external/SPIRV-Cross/spirv_cfg.cpp:94-208 | the graph that the traversal records for a reducible function drops only branches to dominating blocks |
| Reducibility.LoopFreeDropsNothing | external/SPIRV-Cross/spirv_cfg.cpp:99-102 | a function without cycles loses no branch |
| Reducibility.DroppedIsReached | external/SPIRV-Cross/spirv_cfg.cpp:99-102 | the source of a dropped branch is reached from its target |
| Reducibility.TargetDominatorRecorded | external/SPIRV-Cross/spirv_cfg.cpp:94-208 | what dominates a block among all branches and declared merges dominates it in the recorded graph |
| Reducibility.TargetDominatorOnRun | external/SPIRV-Cross/spirv_cfg.cpp:94-208 | and lies on every run to it |
| Reducibility.ReportedDominatorsHold | external/SPIRV-Cross/spirv_cfg.cpp:33-77 | for every reducible function: what stands above a block in the reported dominator tree lies on every run from the entry to that block |
| Irreducible.DominatorMissed | external/SPIRV-Cross/spirv_cfg.cpp:33-77 | the graph built for a concrete function with a cycle entered in two places reports an immediate dominator that a run misses |
| Irreducible.CycleOrder | external/SPIRV-Cross/spirv_cfg.cpp:94-208 | for that function the order of the two targets of its first block decides where the cycle is entered, in every graph the traversal can leave |
| Irreducible.TwoIsReported | external/SPIRV-Cross/spirv_cfg.cpp:53-77 | block 2 is the immediate dominator of block 3 in every graph recorded for it |
| Irreducible.NotReducible | external/SPIRV-Cross/spirv_cfg.cpp:94-208 | the function is not reducible, whatever the order of its targets |
| Irreducible.SwappedIsSound | external/SPIRV-Cross/spirv_cfg.cpp:94-208 | with the two targets swapped all reported dominators hold, although the function is as irreducible as before: outside reducible functions soundness is not a matter of the branches alone |
| DominatorBuilders.DominatorBuilder.constructor | external/SPIRV-Cross/spirv_cfg.cpp:335-338 | an empty builder has no dominator and nothing added |
| DominatorBuilders.DominatorBuilder.AddBlock | external/SPIRV-Cross/spirv_cfg.cpp:340-356 | the dominator is the nearest common dominator of the reachable blocks added so far, and 0 if and only if there is none |
| DominatorBuilders.DominatorBuilder.LiftContinueBlockDominator | external/SPIRV-Cross/spirv_cfg.cpp:358-408 | a dominator moves to the entry block if and only if one of its branch fields names a block with a higher number, any other stays; the result is a nearest common dominator again |
| DominatorBuilders.BranchesToHigher | external/SPIRV-Cross/spirv_cfg.cpp:369-404 | the switch over terminators answers whether any branch target has a higher number |
| DominatorBuilders.BranchesUpIff | external/SPIRV-Cross/spirv_cfg.cpp:369-404 | the test over the list of targets and the test field by field agree |
| DominatorBuilders.NearestWithEntry | external/SPIRV-Cross/spirv_cfg.cpp:406-407 | moving to the entry block is the same as adding the entry block |
| DominatorBuilders.NearestGrows | external/SPIRV-Cross/spirv_cfg.cpp:342-355 | adding one block to the fold gives the nearest common dominator of all of them |
| DominatorBuilders.SameBlocksSameDominator | external/SPIRV-Cross/spirv_cfg.cpp:340-356 | the result depends only on the set of reachable blocks added, not on their order or repetition |
| Walks.FindLoopDominator | external/SPIRV-Cross/spirv_cfg.cpp:230-278 | the walk ends; it returns the first loop header above the start that is not left through its merge block, with the walk as witness, or NoDominator with a walk from the entry that only steps over loops; an unvisited start gives NoDominator |
| Walks.ChoosePredecessor | external/SPIRV-Cross/spirv_cfg.cpp:246-265 | picks the first predecessor that declares the block as its merge, else the first one, and flags exactly the loop merges |
| Walks.WalkContinues | external/SPIRV-Cross/spirv_cfg.cpp:246-274 | each step goes to a higher-numbered block and either stays outside the loop or has found the enclosing one |
| Walks.NotBeyondMerge | external/SPIRV-Cross/spirv_cfg.cpp:230-278 | the merge block of the loop found does not dominate the start: the start is inside the loop construct |
| Walks.LoopHeaderDominates | external/SPIRV-Cross/spirv_cfg.cpp:262-263 | in structured control flow, where a loop is left for its merge block only, the header found dominates the start, and the start belongs to its loop |
| Walks.HeaderIsInnermost | external/SPIRV-Cross/spirv_cfg.cpp:262-263 | in structured control flow, where loops are entered by their headers only, every other loop that the start is in holds the header found: it is the innermost one |
| Walks.OutsideIsInNoLoop | external/SPIRV-Cross/spirv_cfg.cpp:232-277 | and when none is found the start is in no loop other than its own |
| Walks.ExecutionIsBranchless | external/SPIRV-Cross/spirv_cross.cpp:1591-1604 | answers whether a line of blocks leads from one block to the other in which every block declares no merge and branches unconditionally to the next, whenever that line meets the goal or stops |
| Walks.PlainStep | external/SPIRV-Cross/spirv_cross.cpp:1599-1600 | a plain unconditional branch is a branch of the function from a block that is no loop header, and the only way a run can go on from there |
| Walks.BranchlessEndsIff | external/SPIRV-Cross/spirv_cross.cpp:1591-1604 | the walk ends from every block and for every goal if and only if no cycle consists of plain unconditional branches alone |
| Walks.HeadersBreakPlainCycles | external/SPIRV-Cross/spirv_cross.cpp:1599 | when every cycle contains a loop header, there is no such cycle |
| Walks.FoldedDominator | external/SPIRV-Cross/spirv_cfg.cpp:297-303 | folding all predecessors of a block gives the immediate dominator the graph already stores, and 0 exactly for the entry block and unvisited blocks |
| Walks.FoldIsIdom | external/SPIRV-Cross/spirv_cfg.cpp:297-303 | the fold over predecessors and the stored dominator tree agree |
| Walks.StepCloses | external/SPIRV-Cross/spirv_cfg.cpp:305-322 | the five-way test, on the fields of the dominator, holds exactly when the step up the dominator tree leaves no control flow open, provided its two branchless walks end |
| Walks.ClosedStepIsForced | external/SPIRV-Cross/spirv_cfg.cpp:305-322 | a step closed by a branch means: every run from the dominator to the end of the function passes the block, or leaves the loop through its merge block |
| Walks.NodeTerminatesControlFlowInSubGraph | external/SPIRV-Cross/spirv_cfg.cpp:280-333 | the walk ends if the branchless walks of the steps it takes do; it is true if and only if every step of the dominator tree between the blocks closes its control flow, and then `from` dominates `to` |
| Walks.NoPlainCycleSuffices | external/SPIRV-Cross/spirv_cfg.cpp:291-333 | without a cycle of plain unconditional branches all those branchless walks end |
| Walks.ClosedIsDominated | external/SPIRV-Cross/spirv_cfg.cpp:280-333 | a chain of closing steps implies dominance |
| Preservation.ExistsUnaccessedPathToReturn | external/SPIRV-Cross/spirv_cross.cpp:3024-3047 | for any cache of blocks without a way out: true if and only if some recorded path to a block without successors avoids the given blocks; the cache stays correct and no successor is searched twice |
| Preservation.EscapesUnfold | external/SPIRV-Cross/spirv_cross.cpp:3024-3047 | such a path exists exactly when the block is outside the set and is an exit or has a successor with such a path |
| Preservation.FunctionInfo.AnalyzeParameterPreservation | external/SPIRV-Cross/spirv_cross.cpp:3049-3105 | the read count of an argument rises by one exactly when it is an accessed non-opaque pointer that some recorded way to an exit does not write completely; all else stays |
| Preservation.MustPreserveIff | external/SPIRV-Cross/spirv_cross.cpp:3055-3103 | an argument is counted if and only if it is an accessed non-opaque pointer and nothing writes it as a whole, or some recorded way from the entry to the end meets none of the blocks that do |
| Preservation.UnpreservedIsWritten | external/SPIRV-Cross/spirv_cross.cpp:3095-3103 | an accessed pointer argument not counted as read is completely written on every run from entry to end, in structured control flow (see Reducibility.ReducibleGraph) |
| Preservation.CutCycles | external/SPIRV-Cross/spirv_cross.cpp:3024-3047 | every run of structured control flow contains a recorded path with the same ends (constructed) |
| Preservation.ExitHasNoEdges | external/SPIRV-Cross/spirv_cross.cpp:3031-3033 | a reachable block that ends the function has no recorded successor |
| Instructions.AccessHandler.Handle | external/SPIRV-Cross/spirv_cross.cpp:3227-3545 | one instruction adds exactly the variables it accesses, writes whole and writes in part (operand by operand in the three lemmas below), for the current block |
| Instructions.AccessHandler.NoteWrite | external/SPIRV-Cross/spirv_cross.cpp:3242-3252 | a store is recorded as complete through the variable and as partial through a chain |
| Instructions.AccessHandler.NoteArguments | external/SPIRV-Cross/spirv_cross.cpp:3378-3394 | every call argument with a known variable counts as accessed and partly written |
| Instructions.AccessHandler.Traverse | external/SPIRV-Cross/spirv_cross.cpp:1702-1749 | the traversal visits all instructions of all blocks in order |
| Instructions.BlocksRecorded | external/SPIRV-Cross/spirv_cross.cpp:3227-3545 | after the traversal a pair of variable and block is recorded if and only if an instruction of the block does it, for each of the three kinds |
| Instructions.OpsRecorded | external/SPIRV-Cross/spirv_cross.cpp:3227-3545 | the same for the instructions of one block |
| Instructions.AccessedIff | external/SPIRV-Cross/spirv_cross.cpp:3236-3420 | a variable is accessed by an instruction if and only if one of its pointer operands is the variable or is traced to it; an access chain must start at the variable itself |
| Instructions.WrittenWholeIff | external/SPIRV-Cross/spirv_cross.cpp:3236-3330 | it is written as a whole exactly by OpStore, OpCopyMemory, modf and frexp to the variable itself |
| Instructions.WrittenPartIff | external/SPIRV-Cross/spirv_cross.cpp:3236-3420 | it is written in part exactly by these through another pointer traced to it, and by every selection or call that takes such a pointer |
| Luts.WriteCases | external/SPIRV-Cross/spirv_cross.cpp:3236-3252 | every write to a variable is recorded as whole or partial, or goes through a pointer that the compiler traces to no variable, and never both |
| Luts.ScanBlock | external/SPIRV-Cross/spirv_cross.cpp:3558-3593 | the static-expression handler counts one store, of a constant c, if and only if the block stores c to the variable before any other store, load or chain and does not store to it again before the first chain |
| Luts.ScanFindsStore | external/SPIRV-Cross/spirv_cross.cpp:3558-3593 | a count of one means: the block stores that value, with no load of the variable and no chain into it before |
| Luts.ScanIff | external/SPIRV-Cross/spirv_cross.cpp:3558-3593 | the same for the scan as a recursive function, in both directions |
| Luts.LocalLuts.FindFunctionLocalLuts | external/SPIRV-Cross/spirv_cross.cpp:3595-3685 | marks an array variable of function storage (or private, in a single function) that is no phi variable if and only if it qualifies, in whatever order: without an initializer, all writes are whole and in the block that dominates its accesses, which stores exactly once before the first chain, a constant, not loading it before; the mark is that constant |
| Luts.FindStaticConstant | external/SPIRV-Cross/spirv_cross.cpp:3607-3678 | returns the qualifying constant, or 0 when none exists |
| Luts.LutUnique | external/SPIRV-Cross/spirv_cross.cpp:3607-3678 | at most one constant, and without an initializer one block, qualifies |
| Luts.FindInitializer | external/SPIRV-Cross/spirv_cross.cpp:3624-3634 | decides the case with an initializer |
| Luts.FindSingleStore | external/SPIRV-Cross/spirv_cross.cpp:3637-3677 | decides the case of a single complete store in the block that dominates all accesses |
| Luts.AccessDominator | external/SPIRV-Cross/spirv_cross.cpp:3655-3658 | the nearest common dominator of the visited access blocks, 0 if there is none |
| Luts.LutIsConstantIff | external/SPIRV-Cross/spirv_cross.cpp:3595-3685 | an intermediate result, about the content whether it is read or not: on every execution a marked variable never holds anything but the chosen constant if and only if nothing else in its dominating block and no untraced pointer writes it |
| Luts.ConstantIffOnlyWritten | external/SPIRV-Cross/spirv_cross.cpp:3622-3678 | for any variable: its content is never anything but c, on any execution, if and only if every reachable write to it stores c |
| Luts.LutIsSetBeforeUse | external/SPIRV-Cross/spirv_cross.cpp:3654-3662 | in structured control flow (see Reducibility.ReducibleGraph) a marked variable is set whenever it is loaded or a chain into it is taken |
| Luts.LutHoldsConstantAtUse | external/SPIRV-Cross/spirv_cross.cpp:3680-3683 | promotion preserves meaning: under both conditions each whole load and each access chain finds exactly the constant |
| Luts.LutHoldsConstantAtLoad | external/SPIRV-Cross/spirv_cross.cpp:3618-3620 | and so does each load through access chains, the way arrays are read, whatever happens between chain and load |
| LutLoads.LutLoadsConstantIff | external/SPIRV-Cross/spirv_cross.cpp:3595-3685 | promotion preserves meaning: in structured control flow every load of a marked variable on every execution, whole or through access chains, yields the chosen constant if and only if no run loads it after something else was written and before the constant is stored again |
| LutLoads.PromotionIsRightIff | external/SPIRV-Cross/spirv_cross.cpp:3637-3683 | the same by places in the function: if and only if no write through an untraced pointer spoils a load, and no other whole write in the dominating block is followed, there before the constant is stored again, or past its end in a block it leads to, by a load |
| LutLoads.VisibleSpoils | external/SPIRV-Cross/spirv_cross.cpp:3643-3662 | a visible write that spoils a load on a run does so at one of these places |
| LutLoads.PlaceSpoilsRun | external/SPIRV-Cross/spirv_cross.cpp:3654-3677 | conversely, for each of these places there is a run on which the load is spoilt |
| LutLoads.NoLoadBeforeStore | external/SPIRV-Cross/spirv_cross.cpp:3571-3586 | the dominating block of a marked variable does not load it before it stores the constant |
| LutLoads.OtherWasWritten | external/SPIRV-Cross/spirv_cross.cpp:3595-3685 | whatever else the variable holds on an execution has been written, and the constant not stored since (constructed) |
| LutLoads.SpoiltLoadShows | external/SPIRV-Cross/spirv_cross.cpp:3595-3685 | a spoilt load finds something else on some execution |
| LutLoads.LutIsSetAtLoad | external/SPIRV-Cross/spirv_cross.cpp:3654-3662 | a marked variable is set at every load |
| Luts.ChainRoot | external/SPIRV-Cross/spirv_cross.cpp:3579-3586 | behind a pointer made by any number of access chains stands an earlier chain into the variable itself |
| LutExamples.PromotesTwiceStored | external/SPIRV-Cross/spirv_cross.cpp:3595-3685 | a concrete variable is marked with a constant although an execution loads another value from it, through an access chain taken before the second store |
| LutExamples.TwiceStoredQualifies | external/SPIRV-Cross/spirv_cross.cpp:3637-3677 | the single-store case accepts it |
| LutExamples.ScanMissesSecondStore | external/SPIRV-Cross/spirv_cross.cpp:3579-3586 | a second store after an access chain in the same block goes unnoticed by the scan |
| LutExamples.LoadSeesSecondStore | external/SPIRV-Cross/spirv_cross.cpp:3562-3569 | the load through the chain, after the second store, finds the second constant (constructed) |
| LutExamples.NothingSpoiled | external/SPIRV-Cross/spirv_cross.cpp:3579-3586 | when the load comes before the second store no load is spoilt, although the content of the variable does not stay constant |
| Luts.StaysSet | external/SPIRV-Cross/spirv_cross.cpp:3654-3662 | along an execution a variable that is set stays set |
| Luts.RunExecutes | external/SPIRV-Cross/spirv_cross.cpp:1702-1739 | every run has an execution (so the iff statements are not vacuous) |
| Luts.HandlerHolds | external/SPIRV-Cross/spirv_cross.cpp:3598-3650 | the maps that the search consults are exactly the sets of blocks that access and write the variable |
| Scopes.ReadsUndefinedIff | external/SPIRV-Cross/spirv_cross.cpp:4005-4076 | the answer is no exactly when a whole write of the variable comes before everything that is seen to read it |
| Scopes.FirstAccessWritesIff | external/SPIRV-Cross/spirv_cross.cpp:3774-3776 | the stated intent, that the first access overwrites the variable, with accesses as the access handler defines them: when the answer is no it holds if and only if no access through a chain and no copy out of the variable comes first; when the answer is yes it holds only for modf and frexp |
| Scopes.TouchCases | external/SPIRV-Cross/spirv_cross.cpp:4010-4070 | every access is seen to read, a whole write, or one that the check does not look at |
| Scopes.CopyGoesUnnoticed | external/SPIRV-Cross/spirv_cross.cpp:4012-4016 | a block that copies from the variable and then stores to it passes as writing first |
| Scopes.LoadThroughChainGoesUnnoticed | external/SPIRV-Cross/spirv_cross.cpp:4049-4053 | a block that loads through an access chain and then stores passes as writing first |
| Scopes.ScopeAnalysis.FindLoopDominators | external/SPIRV-Cross/spirv_cross.cpp:3701-3721 | every block gets the header of its continue construct or the loop that the backward walk finds, and these lead strictly upwards |
| Scopes.ScopeAnalysis.OutermostLoop | external/SPIRV-Cross/spirv_cross.cpp:3786-3788 | following loop dominators ends at the outermost loop |
| Scopes.ScopeAnalysis.AddAccesses | external/SPIRV-Cross/spirv_cross.cpp:3736-3764 | in whatever order, the builder has received exactly the visited access blocks and the loop headers of continue blocks among them |
| Scopes.ScopeAnalysis.PlaceVariable | external/SPIRV-Cross/spirv_cross.cpp:3731-3797 | the declaring block comes from the nearest common dominator through lifting and loop hoisting; 0 if and only if no access is reachable |
| Scopes.ScopeAnalysis.HoistOutOfLoops | external/SPIRV-Cross/spirv_cross.cpp:3785-3795 | the result is the nearest common dominator of the block and its outermost loop header |
| Scopes.ScopeAnalysis.PlaceVariables | external/SPIRV-Cross/spirv_cross.cpp:3723-3807 | exactly the local variables with a reachable access are placed, each listed once, in its declaring block only, and that block dominates every reachable access and the header of every loop whose continue block accesses the variable |
| Scopes.ListOne | external/SPIRV-Cross/spirv_cross.cpp:3801-3806 | appending a new variable to the list of its declaring block keeps every placed variable listed exactly once |
| Scopes.PlacedDominates | external/SPIRV-Cross/spirv_cross.cpp:3735-3797 | through lifting and hoisting, the declaring block dominates every reachable access block |
| Scopes.PlacedIsLifted | external/SPIRV-Cross/spirv_cross.cpp:3765-3768 | before hoisting, the declaring block is the entry block or none of its branch fields names a higher number; the nearest block is given up for such a field only |
| Scopes.PlacedIsNearest | external/SPIRV-Cross/spirv_cross.cpp:3735-3797 | whatever dominates all accesses and the headers of their continue blocks dominates the block first chosen, which is kept unless it is lifted or hoisted |
| Scopes.AllPlacedDominate | external/SPIRV-Cross/spirv_cross.cpp:3723-3807 | the composed result over lifting, continue blocks and hoisting, for all variables at once |
| Scopes.DeclaredBeforeUse | external/SPIRV-Cross/spirv_cross.cpp:3723-3807 | no run reaches an access before it has passed the declaring block, in structured control flow (see Reducibility.ReducibleGraph) |
| Scopes.LoopsDoNest | external/SPIRV-Cross/spirv_cross.cpp:3701-3721 | loop dominators strictly climb in number, which is why following them ends |
| Scopes.HoistedOutOfLoops | external/SPIRV-Cross/spirv_cross.cpp:3771-3797 | what hoisting is for: in structured control flow a non-phi variable is declared where no loop dominator is, or in a block for which the undefined-read check answers no |
| Scopes.LoopDominatorsDominate | external/SPIRV-Cross/spirv_cross.cpp:3701-3721 | in structured control flow every loop dominator found dominates its block |
| Scopes.OutermostDominates | external/SPIRV-Cross/spirv_cross.cpp:3786-3788 | and so does the outermost one |
| Scopes.HeaderIsAbove | external/SPIRV-Cross/spirv_cross.cpp:3706-3712 | a loop header that dominates its continue block comes above it |
| LoopVariables.WalkFrom | external/SPIRV-Cross/spirv_cfg.hpp:91-103 | the operation runs once on each block, only on blocks it can reach, and every successor of a block where it asks to go on has been seen |
| LoopVariables.WalkIsExact | external/SPIRV-Cross/spirv_cfg.hpp:91-103 | the operation runs on a block if and only if a path of unseen blocks leads to it along which the operation asks to go on |
| LoopVariables.IsLoopVariable | external/SPIRV-Cross/spirv_cross.cpp:3947-3994 | true if and only if a chain of single edges leads from the declaring block to the header, a block on it accesses the variable, and no block reachable from the loop merge does |
| LoopVariables.ChainIsForced | external/SPIRV-Cross/spirv_cross.cpp:3950-3977 | whatever runs on from the start of the chain stays in it or passes the header |
| LoopVariables.ChainDominates | external/SPIRV-Cross/spirv_cross.cpp:3950-3977 | the start of the chain dominates the header |
| LoopVariables.AccessedInLoopOnly | external/SPIRV-Cross/spirv_cross.cpp:3947-3994 | what the test means: every access dominated by the declaring block is on the chain down to the header or below the header, and none is reachable from the loop merge |
| LoopVariables.ChainsAgree | external/SPIRV-Cross/spirv_cross.cpp:3957-3977 | there is at most one such chain |
| LoopVariables.StraightStep | external/SPIRV-Cross/spirv_cross.cpp:3957-3977 | one step of the walk keeps the answer: the rest of the chain decides |
| Scopes.ScopeAnalysis.PotentialLoopVariable | external/SPIRV-Cross/spirv_cross.cpp:3751-3761 | the candidate is the one continue block among the accesses; none and several are told apart |
| Scopes.ScopeAnalysis.DecideLoopVariable | external/SPIRV-Cross/spirv_cross.cpp:3912-3994 | names the header exactly when the variable is a loop variable of it |
| Scopes.ScopeAnalysis.FindLoopVariables | external/SPIRV-Cross/spirv_cross.cpp:3912-4002 | each header gets exactly its loop variables, in ascending order whatever the order of the search |
| Scopes.SortedAscends | external/SPIRV-Cross/spirv_cross.cpp:3997-4000 | appending a variable and sorting again keeps the list ascending |
| SamplerHandler.BuildCombinedImageSamplers | external/SPIRV-Cross/spirv_cross.cpp:2991-3002 | the result lists, without repetition, exactly the pairs of variables that some call path from the entry point combines: each operand stands for itself or the variable it was loaded from, a parameter for its argument in the caller; when every operand is traced to a variable, all listed ids are variables; all of them are global when the entry point has no parameters; every function on such a path is done, and its combined parameters are exactly the pairs below it that involve a parameter, by position |
| CombinedSamplers.PairsAreCallPaths | external/SPIRV-Cross/spirv_cross.cpp:2765-2958 | the recursive collection equals the reference: a pair is collected if and only if a call path ends in an OpSampledImage that combines it |
| CombinedSamplers.PairsAreResolved | external/SPIRV-Cross/spirv_cross.cpp:2524-2539 | and if and only if looking the operands up backwards along some call path, from parameter to argument, gives these two variables |
| CombinedSamplers.BoundIsResolved | external/SPIRV-Cross/spirv_cross.cpp:2524-2539 | binding parameters on the way down the calls gives what looking up arguments on the way back gives |
| CombinedSamplers.ResolvesToVariable | external/SPIRV-Cross/spirv_cross.cpp:2524-2528 | when all operands are variables or loaded from one, every operand stands for a variable |
| CombinedSamplers.OwnIsResolved | external/SPIRV-Cross/spirv_cross.cpp:2580-2707 | a combined parameter is a function's own if and only if a call path from the function combines the pair it asks for, parameters by position |
| CombinedSamplers.PairsThen | external/SPIRV-Cross/spirv_cross.cpp:2524-2539 | substituting arguments before or after collecting the pairs comes to the same |
| CombinedSamplers.OwnThroughCall | external/SPIRV-Cross/spirv_cross.cpp:2580-2596 | what end_function_scope hands to the caller is exactly what the call contributes to the caller's own combined parameters |
| CombinedSamplers.CallerCanSupply | external/SPIRV-Cross/spirv_cross.cpp:2562-2566 | every combined parameter that a callee asks for is a pair of globals or among those of the caller |
| CombinedSamplers.PairComes | external/SPIRV-Cross/spirv_cross.cpp:2886-2891 | both ids of a collected pair are arguments or used by a function at or below the caller |
| CombinedSamplers.PairIsGlobal | external/SPIRV-Cross/spirv_cross.cpp:2886-2891 | once all parameters stand for globals, both ids of a combined pair are no parameter of any function |
| SamplerHandler.CombinedImageSamplerHandler.TraverseFunction | external/SPIRV-Cross/spirv_cross.cpp:1702-1749 | a traversal adds exactly the pairs of the function under the current bindings; the first one completes its combined parameters, later ones leave them; the stacks are restored |
| SamplerHandler.CombinedImageSamplerHandler.HandleCall | external/SPIRV-Cross/spirv_cross.cpp:1719-1732 | a call contributes exactly the callee's pairs with its parameters bound to the arguments, and nothing changes for functions above the caller |
| SamplerHandler.CombinedImageSamplerHandler.HandleOp | external/SPIRV-Cross/spirv_cross.cpp:2765-2859 | one instruction contributes exactly its own pairs |
| SamplerHandler.CombinedImageSamplerHandler.HandleSampledImage | external/SPIRV-Cross/spirv_cross.cpp:2861-2957 | adds the substituted pair, and the described parameter only while the function still collects its own |
| SamplerHandler.CombinedImageSamplerHandler.BeginFunctionScope | external/SPIRV-Cross/spirv_cross.cpp:2541-2552 | the callee runs on top of the stack with its parameters bound to what the arguments stand for |
| SamplerHandler.CombinedImageSamplerHandler.EndFunctionScope | external/SPIRV-Cross/spirv_cross.cpp:2554-2599 | the callee is done for good, its bindings are gone, and a caller still collecting gets exactly the callee's parameters re-described |
| SamplerHandler.CombinedImageSamplerHandler.RegisterAll | external/SPIRV-Cross/spirv_cross.cpp:2582-2595 | the hand-over loop adds exactly the re-described parameters that are not pairs of globals |
| SamplerHandler.CombinedImageSamplerHandler.RegisterCombinedImageSampler | external/SPIRV-Cross/spirv_cross.cpp:2601-2682 | the list stays free of repetition and gains the parameter unless both parts are global |
| SamplerHandler.CombinedImageSamplerHandler.PushRemapParameters | external/SPIRV-Cross/spirv_cross.cpp:2508-2517 | the new bindings map each parameter to what its argument stands for in the caller |
| SamplerHandler.CalledIsDone | external/SPIRV-Cross/spirv_cross.cpp:2570-2572 | when all callees of a function are done, so is every function on any call path below it |
| Forwarding.Tracker.RegisterRead | external/SPIRV-Cross/spirv_cross.cpp:317-335 | a forwarded read of a mutable variable makes the expression its dependee, at the current version of what is read; no expression becomes invalid and all others stay up to date |
| Forwarding.Tracker.RegisterWrite | external/SPIRV-Cross/spirv_cross.cpp:337-408 | whatever the store changes within the aliasing rules of the language, the invariant holds; list by list: traced to a variable that holds pointers, or to none but through a pointer, it invalidates what was read through locals, arguments, globals and aliased variables; to a buffer, through aliased variables; else through the variable itself; all other dependees stay; a parameter is marked as written at most once |
| Forwarding.Tracker.FlushThrough | external/SPIRV-Cross/spirv_cross.cpp:354-393 | flushes the active variables for a pointer-valued variable, the aliased ones for aliased or physical storage, the variable itself otherwise; tells whether the variable itself is written to |
| Forwarding.Tracker.FlushForStore | external/SPIRV-Cross/spirv_cross.cpp:354-404 | the same for a store traced to no variable: the active variables through a pointer, else nothing; whatever the store changes within the aliasing rules, the invariant is kept |
| Forwarding.Tracker.FlushDependees | external/SPIRV-Cross/spirv_cross.cpp:410-415 | the dependees of one variable become invalid and are forgotten; nothing else changes |
| Forwarding.Tracker.FlushAllAliasedVariables | external/SPIRV-Cross/spirv_cross.cpp:417-421 | flushes exactly the aliased variables |
| Forwarding.Tracker.FlushAllAtomicCapableVariables | external/SPIRV-Cross/spirv_cross.cpp:423-428 | what was read through a variable in the lists of globals and aliased variables, and nothing else, becomes invalid; the invariant is kept |
| Forwarding.Tracker.FlushAllActiveVariables | external/SPIRV-Cross/spirv_cross.cpp:438-450 | the dependees of exactly the variables in the lists of locals, arguments, globals and aliased variables become invalid and are forgotten |
| Forwarding.Tracker.MarkWritten | external/SPIRV-Cross/spirv_cross.cpp:389-394 | the first write to a parameter marks it and forces another pass |
| Forwarding.Tracker.StaleIsInvalid | external/SPIRV-Cross/spirv_cross.cpp:317-450 | over any run of reads and writes, an expression read from covered memory that has changed since is invalid |
| Forwarding.Context.CoveredIff | external/SPIRV-Cross/spirv_cross.cpp:337-408 | what a read depends on is covered (own data of a variable that no pointer may reach or that the compiler lists, a buffer read through an aliased variable, or pointees under a condition on the lists) if and only if every store that the aliasing rules allow to change it flushes that variable |
| Forwarding.Context.CoveredIsFlushed | external/SPIRV-Cross/spirv_cross.cpp:337-408 | every store that may change covered memory flushes the variable it was read through |
| Forwarding.Context.Uncovered | external/SPIRV-Cross/spirv_cross.cpp:337-408 | for memory that is not covered, a store that changes it and flushes something else (constructed) |
| Forwarding.UncoveredGoesStale | external/SPIRV-Cross/spirv_cross.cpp:317-408 | a read of such memory and that store leave an expression that is stale and counts as valid |
| Forwarding.Context.PhysicalReadUncovered | external/SPIRV-Cross/spirv_cross.cpp:384-387 | memory behind a physical pointer held in a variable that is not aliased is such a case: a store through the same pointer flushes the aliased variables only |
| Forwarding.Context.UnlistedPointeeUncovered | external/SPIRV-Cross/spirv_cross.cpp:396-404 | own data of a variable that pointers may reach but the compiler does not list is another: a store through an untraced pointer flushes the listed variables only |
| Forwarding.RestrictBufferGoesStale | external/SPIRV-Cross/spirv_cross.cpp:438-450 | on a tracker: a load from such a variable and a store through an untraced pointer leave a stale expression that counts as valid |
| Forwarding.PhysicalBufferGoesStale | external/SPIRV-Cross/spirv_cross.cpp:384-387 | on a tracker: a load and a store through a physical pointer held in an unlisted variable do the same |
| Forwarding.Context.OwnFlushIff | external/SPIRV-Cross/spirv_cross.cpp:354-387 | a store traced to a variable flushes that variable if and only if the chain is not physical, or the variable is aliased, or it holds pointers and is active |
| Forwarding.StoreInvalidates | external/SPIRV-Cross/spirv_cross.cpp:354-404 | all expressions read through the variable stored to become invalid under that condition, and otherwise those that depend on it alone stay; a store to an aliased variable invalidates those of all aliased ones, one through an untraced pointer those of all active ones |
| Forwarding.StoreByLists | external/SPIRV-Cross/spirv_cross.cpp:354-450 | the same list by list and exactly, for stores with and without a variable behind the pointer |
| Forwarding.ReadThenStore | external/SPIRV-Cross/spirv_cross.cpp:317-408 | what is read through a pointer that was itself read from a variable becomes invalid when something is stored through that pointer |
| Forwarding.StoreKeeps | external/SPIRV-Cross/spirv_cross.cpp:337-408 | what is flushed for a store is enough, whatever the store changes |
| Forwarding.ReadKeeps | external/SPIRV-Cross/spirv_cross.cpp:326-328 | a read keeps the invariant: an expression that is not invalid is a dependee of its variable and, if covered, up to date |
| Forwarding.WriteKeeps | external/SPIRV-Cross/spirv_cross.cpp:337-408 | a write keeps the invariant when it changes nothing covered without flushing its variable |
| Forwarding.Cache.FlushTwice | external/SPIRV-Cross/spirv_cross.cpp:438-450 | flushing two sets one after the other is flushing their union |
| NameCaches.UpdateNameCache | external/SPIRV-Cross/spirv_cross.cpp:1080-1131 | ends for any two caches that do not exhaust the counter; the name is kept if free, else it becomes the first free candidate, which is the name, an underscore unless it ends in one (_0_ for a lone underscore), and a decimal number; it is absent from both caches, added to the primary one, and not reserved if the given name was not |
| NameCaches.NameCache.Update | external/SPIRV-Cross/spirv_cross.cpp:1133-1136 | the names handed out over any sequence of calls on one cache are pairwise distinct; a free name is kept, another becomes its first free candidate |
| NameCaches.DecimalInjective | external/SPIRV-Cross/spirv_cross.cpp:1128 | different counters have different decimal forms |
| NameCaches.DecimalValue | external/SPIRV-Cross/spirv_cross.cpp:1128 | the decimal form consists of digits, has no leading zero and stands for the number |
| NameCaches.CandidatesDiffer | external/SPIRV-Cross/spirv_cross.cpp:1125-1129 | different counters give different candidate names |
| NameCaches.CandidateNotReserved | external/SPIRV-Cross/spirv_cross.cpp:1110-1121 | a candidate has a double underscore only if the name had one |
| SmallVectors.SmallVector.Reserve | external/SPIRV-Cross/spirv_cross_containers.hpp:328-374 | the doubling loop ends without overflow for every size the guard lets through; room is made, at least twice the old capacity and less than twice what is asked unless it is the inline one; the heap is used only beyond the inline storage; the elements stay |
| SmallVectors.SmallVector.Insert | external/SPIRV-Cross/spirv_cross_containers.hpp:376-475 | on all three paths the contents become old[..i] + range + old[i..] |
| SmallVectors.SmallVector.InsertAtEnd | external/SPIRV-Cross/spirv_cross_containers.hpp:379-385 | the append path |
| SmallVectors.SmallVector.InsertIntoNewBuffer | external/SPIRV-Cross/spirv_cross_containers.hpp:388-443 | the reallocating path, for whichever buffer the elements end up in |
| SmallVectors.SmallVector.InsertInPlace | external/SPIRV-Cross/spirv_cross_containers.hpp:444-471 | the overlapping path: the tail is moved up before the new elements overwrite it |
| SmallVectors.SmallVector.Erase | external/SPIRV-Cross/spirv_cross_containers.hpp:489-501 | the contents become old[..start] + old[end..] |
| SmallVectors.SmallVector.Resize | external/SPIRV-Cross/spirv_cross_containers.hpp:503-518 | the contents are cut off or filled up |
| SmallVectors.SmallVector.PushBack | external/SPIRV-Cross/spirv_cross_containers.hpp:298-303 | the contents gain one element at the end, in old or new storage |
| SmallVectors.SmallVector.PopBack | external/SPIRV-Cross/spirv_cross_containers.hpp:312-318 | the last element goes, and nothing happens to an empty vector |
| SmallVectors.SmallVector.MoveFrom | external/SPIRV-Cross/spirv_cross_containers.hpp:231-259 | the elements change hands, by buffer or one by one; the source is left empty and the two share no storage; moving a vector onto itself leaves it empty |
| SmallVectors.MoveUp | external/SPIRV-Cross/spirv_cross_containers.hpp:448-458 | the overlapping move upwards from the end loses no element |
| SmallVectors.MoveDown | external/SPIRV-Cross/spirv_cross_containers.hpp:498 | the overlapping move downwards loses no element |
| SmallVectors.FillUp | external/SPIRV-Cross/spirv_cross_containers.hpp:460-470 | the new elements fill the gap across the border between constructed and free slots |
| ObjectPools.ObjectPool.Allocate | external/SPIRV-Cross/spirv_cross_containers.hpp:561-581 | the slot handed out was not live; live and vacant slots still partition all slots; memory grows only when nothing was vacant |
| ObjectPools.ObjectPool.Grow | external/SPIRV-Cross/spirv_cross_containers.hpp:564-575 | the new block has start * 2^k slots, which is twice the block before it, all new and all vacant |
| ObjectPools.ObjectPool.Deallocate | external/SPIRV-Cross/spirv_cross_containers.hpp:583-587 | the slot is vacant again and no longer live |
| ObjectPools.Conservation | external/SPIRV-Cross/spirv_cross_containers.hpp:552-613 | live and vacant slots add up to start * (2^k - 1) after k growths |
| ObjectPools.SlotCount | external/SPIRV-Cross/spirv_cross_containers.hpp:566-574 | the slots of all blocks are distinct and as many as the block sizes add up to |
| ObjectPools.TotalClosed | external/SPIRV-Cross/spirv_cross_containers.hpp:566 | doubling block sizes add up to start * (2^k - 1) |
| Variants.VariantStore.Set | external/SPIRV-Cross/spirv_common.hpp:1459-1475 | the old object is given back, the new one is owned unless the variant has another type and no permission to change it, when it is given back too; every live object still has one owner |
| Variants.VariantStore.AllocateAndSet | external/SPIRV-Cross/spirv_common.hpp:1477-1483 | the variant owns an object that was not live before, or keeps nothing when its type is rejected; no object is lost |
| Variants.VariantStore.Move | external/SPIRV-Cross/spirv_common.hpp:1417-1432 | the object changes hands, the old one is given back, the source is empty; moving onto itself does nothing |
| Variants.VariantStore.Copy | external/SPIRV-Cross/spirv_common.hpp:1437-1457 | the variant owns an object of its own, from a pool of its own group; the source keeps its object; copying onto itself does nothing |
| Variants.VariantStore.Reset | external/SPIRV-Cross/spirv_common.hpp:1520-1526 | the object is given back and the variant is empty and untyped |
| Variants.VariantStore.Destroy | external/SPIRV-Cross/spirv_common.hpp:1400-1404 | the object is given back |
| Variants.VariantStore.ReleaseHolder | external/SPIRV-Cross/spirv_common.hpp:1461-1463 | exactly the object that the variant owns stops being live |
| Variants.VariantStore.constructor | external/SPIRV-Cross/spirv_common.hpp:1387-1398 | no variant, no live object |
| Variants.VariantStore.AllocateLoose | external/SPIRV-Cross/spirv_common.hpp:1480 | a new object that no variant owns |
| Variants.OwnersCountLive | external/SPIRV-Cross/spirv_common.hpp:1392-1531 | there are exactly as many live objects as variants that own one, besides those about to be set: none leaks and none has two owners |
| Variants.TookOver | external/SPIRV-Cross/spirv_common.hpp:1472-1474 | taking over an allocated object keeps single ownership |
| Variants.LetGo | external/SPIRV-Cross/spirv_common.hpp:1461-1463 | letting an object go keeps single ownership |
| Variants.Moved | external/SPIRV-Cross/spirv_common.hpp:1423-1429 | moving an object between variants keeps single ownership |
| Instructions.AccessHandler.constructor | external/SPIRV-Cross/spirv_cross.cpp:3107-3112 | nothing is recorded yet |
| Instructions.AccessHandler.NoteRead | external/SPIRV-Cross/spirv_cross.cpp:3353-3356 | a read is recorded as an access of the variable behind the pointer, if one is known |
| Instructions.AccessHandler.NotePassed | external/SPIRV-Cross/spirv_cross.cpp:3406-3412 | a pointer that is passed on is recorded as accessed and as partly written |
| Luts.LocalLuts.constructor | external/SPIRV-Cross/spirv_cross.cpp:3595-3598 | no variable is marked yet |
| Scopes.ScopeAnalysis.constructor | external/SPIRV-Cross/spirv_cross.cpp:3687-3699 | nothing is placed yet |
| SamplerHandler.CombinedImageSamplerHandler.constructor | external/SPIRV-Cross/spirv_cross.cpp:2993-3000 | all functions still collect, with empty lists and empty stacks |
| Forwarding.Tracker.constructor | external/SPIRV-Cross/spirv_cross.cpp:317-335 | nothing is forwarded and nothing invalid |
| Forwarding.Tracker.AddDependee | external/SPIRV-Cross/spirv_cross.cpp:327-328 | the expression joins the dependees of its variable at the current version |
| Forwarding.Tracker.FlushList | external/SPIRV-Cross/spirv_cross.cpp:442-447 | flushing a list of variables one by one flushes exactly the set of them |
| NameCaches.NameCache.constructor | external/SPIRV-Cross/spirv_cross.cpp:1133-1136 | a cache starts with the names already taken |
| SmallVectors.SmallVector.constructor | external/SPIRV-Cross/spirv_cross_containers.hpp:207-211 | an empty vector on its inline storage |
| SmallVectors.CopyRange | external/SPIRV-Cross/spirv_cross_containers.hpp:362-366 | copies a range between different buffers and leaves the rest of the target alone |
| SmallVectors.Assemble | external/SPIRV-Cross/spirv_cross_containers.hpp:409-437 | the new buffer holds the first part, the new elements and the second part |
| ObjectPools.ObjectPool.constructor | external/SPIRV-Cross/spirv_cross_containers.hpp:556-559 | an empty pool |
| Variants.VariantStore.Construct | external/SPIRV-Cross/spirv_common.hpp:1395-1398 | a new variant owns nothing and changes no other |
| Variants.VariantStore.SetAllowTypeRewrite | external/SPIRV-Cross/spirv_common.hpp:1528-1531 | the permission changes, ownership does not |
| Variants.VariantStore.Allocate | external/SPIRV-Cross/spirv_common.hpp:1480 | exactly one more object is live, in the pool asked, and was not live before |
| Variants.VariantStore.Deallocate | external/SPIRV-Cross/spirv_common.hpp:1467-1468 | exactly that object stops being live |

## Left out

- Cfg.CFG: visit numbers are unbounded naturals; the program keeps them in 32-bit fields, which no function with fewer than 2^31 blocks can exhaust.
- Cfg.CFG.BuildPostOrderVisitOrder: recursion depth is not modelled.
- Walks.ExecutionIsBranchless: requires exactly that the line it follows meets the goal or stops; otherwise the loop of the program does not end. `Walks.BranchlessEndsIff` says for which functions it always does.
- Walks.NodeTerminatesControlFlowInSubGraph: the same requirement for the branchless walks of the steps it takes.
- Soundness.DominatorsHoldOnRuns: outside reducible functions there is one direction only in terms of the function, because the outcome depends on the order of branch targets (`Irreducible.SwappedIsSound`).
- Parsing: blocks, case lists (already selected by the width of the condition), `continue_block_to_loop_header` and the set of continue blocks are inputs; `Function.WellFormed` and `Loops.WellFormed` say what is expected of them.
- Instructions.AccessHandler.Handle: phi accesses, `notify_variable_access` with access-chain children and temporaries are not recorded, so that only OpVariable accesses count; checks of the instruction length are not modelled.
- Scopes.ScopeAnalysis: the placement of temporaries (spirv_cross.cpp:3809-3908) is not modelled; it uses the same builder.
- Scopes.ScopeAnalysis.FindLoopVariables: the fallback for a continue block that the parser did not register is not modelled.
- LutLoads.PromotionIsRightIff: that pointers are made before they are used and traced to the variable their chains start from (`LutLoads.ChainsTracked`) is an input; how the emitter prints loads of the variable itself after a further store is not modelled.
- Luts.LocalLuts: the execution model tracks one variable; other memory, values computed by callees and partial writes are arbitrary.
- Preservation.FunctionInfo: types are reduced to pointer and opaque flags.
- CombinedSamplers.Program: the variable behind each id is an input, where the program resolves it while it traverses; ids, types, decorations, depth flags and names of combined samplers and the dummy sampler for image fetches are not modelled.
- SamplerHandler.CombinedImageSamplerHandler.EndFunctionScope: malformed calls, for which the program stops the traversal, are excluded by `Program.WellFormed`.
- Forwarding.Tracker: clearing between compilation passes, `flush_control_dependent_expressions` and global read dependencies are not modelled; what a read or store really touches is a ghost argument, bounded for stores by the aliasing rules in `Context.MayChange`.
- NameCaches.UpdateNameCache: caches so full that the 32-bit counter would wrap are excluded.
- SmallVectors.SmallVector: element constructors and destructors are assignments, a default-constructed element is the argument `fill`, allocation does not fail, and sizes for which the program terminates or would overflow are excluded by `Addressable`.
- SmallVectors.SmallVector.PushBack: the argument is a value; the program takes a reference, so pushing an element of the vector itself at full capacity is not covered.
- SmallVectors.SmallVector.Insert: ranges that alias the vector are excluded, as in the program.
- ObjectPools.ObjectPool: `clear`, allocation failure and the contents of objects are not modelled; growth is limited to sizes that fit in 32 bits.
- Variants.VariantStore: the contents of objects and their checked retrieval are not modelled; destroying a whole store is destroying its variants.
- Concurrency does not occur in these parts.
- `StringStream`, `Bitset`, purity queries, reflection, text emission and the C interface are not part of this model.
