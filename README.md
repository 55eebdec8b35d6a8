# pycombina in Dafny

A model of the combinatorial integral approximation (CIA) solvers of
pycombina and of the code around them. Each time interval of a horizon gets
exactly one of `n_c` mutually exclusive binary controls. The aim is to stay
close, in the max norm of the accumulated deviation `eta`, to a relaxed
control `b_rel`, while respecting switch budgets and minimum up and down
times. The model covers:

- the native branch-and-bound engine: the solver, its nodes, node
  comparators and queue strategies, the strategy registry, the timer and the
  VBC tree monitor;
- the problem classes of the current Python front end;
- the sum-up rounding heuristics;
- the earlier solver generations (the compiled solvers of `pycombina/src`,
  `pycombina/cia.cpp`, `cia.cpp` and `pycombina/CIA.cpp`) and the earlier
  Python front ends;
- the benchmark log reader.

One Dafny module stands for one source component. Pure computations are
functions with lemmas. Objects that update their fields are classes whose
methods state their new state. Loops are methods with invariants, proved
against a specification function. Pointers become node values or node ids
in an arena map. Doubles are `real` (no rounding). Unsigned widths are
written out where the code depends on them. Input validation that raises
becomes a `Result` with the exception as the error.

Defects of the code are modelled as written. Each one surfaces as an error
outcome, a parameter, or a contract that states the behaviour. Where the
intended behaviour is clear, a corrected member sits next to it, with the
intended property proved ("## Findings").

Files:

| file | module | component |
|---|---|---|
| common.dfy | Common | shared value types, sums, `fabs`/`fmax` |
| nodes.dfy | Nodes | `Node` of the engine, `operator<`, `NodeComparison`, the sorted batch |
| node_tree.dfy | NodeTrees | the child slots of `Node` and the deletion cascade |
| bnb_node.dfy | BnBNodes | `BnBNode` with its child counter, `BnBNodeComparison` |
| child.dfy | ChildNodes | tail tables and child computation of `CombinaBnBSolver` |
| deviation.dfy | ChainDeviation | the solution a chain of blocks paints and its deviation from the relaxation |
| solver.dfy | BnBSolver | `CombinaBnBSolver`: queue handling, the search loop, retrieval |
| dfs_queue.dfy, bfs_queue.dfy, dbt_queue.dfy, btd_queue.dfy | DepthFirstQueue, BestFirstQueue, DynamicBacktrackingQueue, BestThenDiveQueue | the four queue strategies |
| registry.dfy | QueueRegistry | the `NodeQueue` strategy registry |
| timer.dfy | Timers | `ChronoTimer` |
| vbc.dfy | VbcMonitoring | `VbcMonitor` |
| bin_approx.dfy | BinaryApproximation | `BinApprox` and `BinApproxPreprocessed` |
| sur.dfy, combina_sur.dfy, rounding.dfy, rounding_sur.dfy | SumUpRounding, CombinaSurFrontEnd, CombinaRounding, RoundingSur | sum-up rounding |
| legacy_node.dfy, legacy_cia.dfy | LegacyNodes, LegacyCia | `pycombina/src` solver |
| single_cia.dfy | SingleCia | `pycombina/cia.cpp`, `cia.cpp` |
| scalar_node.dfy, grid_cia.dfy | ScalarNodes, GridCia | `pycombina/CIA.cpp` and its comparator |
| grid_reduction.dfy, legacy_front.dfy, combina_front.dfy | GridReduction, LegacyFrontEnd, CombinaFrontEnd | earlier Python front ends |
| logproc.dfy | LogProc | the benchmark log reader |

## Model

Paths are relative to the repository root.

| member | source | states |
|---|---|---|
| Common.MaxAbs | src/combina_bnb_solver/CombinaBnBSolver.cpp:230-233 | the `fmax` fold of `fabs` over a vector: the largest absolute entry, 0 for an empty vector |
| Nodes.MaxSigmaIsMaximum | src/combina_bnb_solver/Node.cpp:117-120 | `get_max_sigma` (`*max_element`) returns an entry of the switch-count vector that bounds every entry |
| Nodes.LessStrictWeakOrder | src/combina_bnb_solver/Node.cpp:181-193 | `operator<` (deeper first, then smaller lower bound, then fewer switches) is irreflexive, asymmetric and transitive, and its incomparability is transitive, as `std::sort` requires |
| Nodes.LessNegTrans | src/combina_bnb_solver/Node.cpp:181-193 | negative transitivity of `operator<` |
| Nodes.TopIsDeepestThenLowest | src/combina_bnb_solver/NodeComparison.cpp:27-44 | the top of a queue ordered by `NodeComparison` (`b < a`) is a deepest node and, among the deepest, one with the smallest lower bound |
| Nodes.NodeComparison | src/combina_bnb_solver/NodeComparison.cpp:25-43 | the solver's priority (deeper ranks higher, then the smaller lower bound, then the smaller largest switch count) is `operator<` with its arguments swapped, so the queue's top is `operator<`-minimal |
| Nodes.TopIndex | src/combina_bnb_solver/NodeComparison.cpp:27-44 | some entry of a non-empty queue is preceded by no other entry |
| Nodes.SortWorstFirst | src/combina_bnb_solver/queues/DepthFirstNodeQueue.cpp:52-60 | `std::sort(…, *rhs < *lhs)`: a permutation of the batch in which no entry is `operator<`-below a later one |
| Nodes.InsertWorstFirst | src/combina_bnb_solver/queues/DepthFirstNodeQueue.cpp:52-60 | inserting into a worst-first sequence keeps it worst first |
| Nodes.SortedLastIsBest | src/combina_bnb_solver/queues/DepthFirstNodeQueue.cpp:52-60 | after sorting, the last entry (pushed last, so the stack top) is `operator<`-minimal in the batch |
| NodeTrees.NodeArena.Create | src/combina_bnb_solver/Node.cpp:32-74 | the constructor adds a node with every slot null and registers it in its parent's slot for its control; the arena stays linked |
| NodeTrees.NodeArena.NoChildrenLeft | src/combina_bnb_solver/Node.cpp:103-114 | `no_children_left` is true exactly when every child slot is null |
| NodeTrees.NodeArena.Delete | src/combina_bnb_solver/Node.cpp:77-100 | the destructor clears the parent's slot; a parent left without children deletes itself, and so on up the chain (`Cascade`); the arena stays linked |
| NodeTrees.CascadeLinked | src/combina_bnb_solver/Node.cpp:77-100 | the deletion cascade keeps every slot pointing at a live child built for it |
| NodeTrees.CascadeRemovesSelf | src/combina_bnb_solver/Node.cpp:77-84 | the cascade deletes the node itself |
| NodeTrees.CascadeOnly | src/combina_bnb_solver/Node.cpp:87-100 | it deletes nothing but the node and some of its ancestors |
| NodeTrees.CascadeKeepsUnrelated | src/combina_bnb_solver/Node.cpp:87-100 | a node that is neither the deleted node, nor an ancestor of it, nor the parent whose slot is cleared last, is untouched |
| NodeTrees.CreateLinked | src/combina_bnb_solver/Node.cpp:32-74 | building the child of a live parent in a free slot keeps the arena linked |
| NodeTrees.CreateRootLinked | src/combina_bnb_solver/Node.cpp:32-74 | building a root keeps the arena linked |
| NodeTrees.SiblingStopsCascade | src/combina_bnb_solver/Node.cpp:87-100 | when the parent still has another child, only the parent's slot is cleared |
| NodeTrees.OnlyChildTakesRoot | src/combina_bnb_solver/Node.cpp:87-100 | deleting the only child of a root deletes the root too |
| NodeTrees.RootCascade | src/combina_bnb_solver/Node.cpp:77-84 | deleting a root deletes nothing else |
| BnBNodes.BnBNodeArena.Create | src/combina_bnb_solver/BnBNode.cpp:30-67 | a new node starts with no live children and its parent's counter goes up by one; every counter stays the number of live children |
| BnBNodes.BnBNodeArena.Destroy | src/combina_bnb_solver/BnBNode.cpp:54-80 | destroying a childless node decrements the parent's counter and deletes nothing else, because the self-deletion is commented out; counters stay exact |
| BnBNodes.BuiltCounted | src/combina_bnb_solver/BnBNode.cpp:30-51 | building keeps every counter exact |
| BnBNodes.DestroyedCounted | src/combina_bnb_solver/BnBNode.cpp:54-61 | destroying a childless node keeps every counter exact |
| BnBNodes.BnBNodeComparison | src/combina_bnb_solver/BnBNodeComparison.cpp:29-45 | `a` ranks below `b` exactly when `b` is the better node: smaller branch bound, then greater depth, then smaller largest switch count |
| BnBNodes.ComparisonStrictWeakOrder | src/combina_bnb_solver/BnBNodeComparison.cpp:29-45 | the comparator (larger branch bound, then smaller depth, then larger max switch count ranks lower) is a strict weak order; equivalent nodes agree on all three keys |
| BnBNodes.TopIsLowestThenDeepest | src/combina_bnb_solver/BnBNodeComparison.cpp:29-45 | the queue top has the smallest branch bound, then the largest depth, then the fewest switches |
| ChildNodes.ComputeInitialUpperBound | src/combina_bnb_solver/CombinaBnBSolver.cpp:96-102 | `ub_bnb` ends as its start value plus the sum of all interval lengths |
| ChildNodes.TailRow | src/combina_bnb_solver/CombinaBnBSolver.cpp:109-116 | one row of the tail tables, filled backwards: entry `j` is the sum of the terms from `j` to the end |
| ChildNodes.PrecomputeSumOfEtas | src/combina_bnb_solver/CombinaBnBSolver.cpp:105-118 | `sum_eta[0]` and `sum_eta[1]` hold the tail sums of `dt * b_rel` and `dt * (b_rel - 1)` for every control |
| ChildNodes.TailTablesDiffer | src/combina_bnb_solver/CombinaBnBSolver.cpp:109-116 | the two tables differ at every interval by exactly minus the time left |
| ChildNodes.CoverOneInterval | src/combina_bnb_solver/CombinaBnBSolver.cpp:190-200 | one pass over the controls adds the deviation of interval `depth` to every control within budget and lowers every down time |
| ChildNodes.CoverIntervals | src/combina_bnb_solver/CombinaBnBSolver.cpp:182-206 | the do-while computes `Cover`: at least one interval, and more until the minimum up time is met or the horizon ends |
| ChildNodes.Cover | src/combina_bnb_solver/CombinaBnBSolver.cpp:188-206 | covering advances the depth by at least one interval and never past the horizon |
| ChildNodes.CoverExtent | src/combina_bnb_solver/CombinaBnBSolver.cpp:188-206 | the covering loop ends at the first interval where the up time is met, or at the horizon, and not one interval earlier |
| ChildNodes.CoverUpdates | src/combina_bnb_solver/CombinaBnBSolver.cpp:190-200 | after covering, each control within budget has gained exactly its deviation over the covered intervals, and every down time has lost the covered time |
| ChildNodes.FoldMaxAbsLoop | src/combina_bnb_solver/CombinaBnBSolver.cpp:230-233 | the closing loop computes the `fmax` fold of `|eta[j]|` |
| ChildNodes.FoldMaxAbs | src/combina_bnb_solver/CombinaBnBSolver.cpp:230-233 | the fold is at least its start value and every `|eta[j]|`, and equals one of them |
| ChildNodes.LowerBound | src/combina_bnb_solver/CombinaBnBSolver.cpp:230-235 | the child's bound is never below the parent's bound, nor below the start value, nor below any absolute deviation |
| ChildNodes.ComputeLowerBound | src/combina_bnb_solver/CombinaBnBSolver.cpp:230-235 | the two closing statements compute `LowerBound` |
| ChildNodes.SwitchBookkeeping | src/combina_bnb_solver/CombinaBnBSolver.cpp:209-228 | on a switch both switch counts go up; a spent budget adds the tail sum at the new depth; if every budget is spent the depth jumps to `n_t`; a tail read at depth `n_t` is reported as an overread |
| ChildNodes.ComputeChildNodeProperties | src/combina_bnb_solver/CombinaBnBSolver.cpp:176-236 | the method computes `ChildNodeProperties`, the child as written, with the read one past a tail table as the `SumEtaOutOfRange` error |
| ChildNodes.ChildNodeProperties | src/combina_bnb_solver/CombinaBnBSolver.cpp:176-236 | the child as written; its only failure is `SumEtaOutOfRange`, and only after a real switch |
| ChildNodes.IntendedChild | src/combina_bnb_solver/CombinaBnBSolver.cpp:176-236 | the corrected child, with nothing left to add at the horizon; well shaped for every input |
| ChildNodes.ChildNodePropertiesInRange | src/combina_bnb_solver/CombinaBnBSolver.cpp:209-228 | wherever the code as written stays inside the tables it computes the corrected child `IntendedChild` |
| ChildNodes.ChildNodePropertiesOverread | src/combina_bnb_solver/CombinaBnBSolver.cpp:214-222 | the code leaves the tables exactly when a switch spends a budget in a block that reaches the horizon |
| ChildNodes.SumEtaOverreadReachable | src/combina_bnb_solver/CombinaBnBSolver.cpp:209-222 | a concrete problem in which the read at depth `n_t` happens |
| ChildNodes.ChildAdvances | src/combina_bnb_solver/CombinaBnBSolver.cpp:188-206 | a child is strictly deeper than its parent and ends early only when its minimum up time is fulfilled |
| ChildNodes.ChildSwitchCounts | src/combina_bnb_solver/CombinaBnBSolver.cpp:209-213 | a real switch raises exactly the two controls' counts by one; staying on the same control counts nothing |
| ChildNodes.AllowedChildWithinBudget | src/combina_bnb_solver/CombinaBnBSolver.cpp:165-254 | a child allowed by `control_activation_forbidden` stays within every budget, so the exception of `add_child_node_to_queue` cannot fire |
| ChildNodes.ExhaustedControlsAccountTail | src/combina_bnb_solver/CombinaBnBSolver.cpp:214-222 | a spent budget accounts the rest of the horizon with the previous control off and the new control on |
| ChildNodes.ChildDepthRange | src/combina_bnb_solver/CombinaBnBSolver.cpp:188-206 | the child's depth lies strictly past the parent's and at most at the horizon |
| ChildNodes.ChildEtaCases | src/combina_bnb_solver/CombinaBnBSolver.cpp:188-235 | a control whose budget was spent keeps its `eta`; any other gains its deviation over the block, and over the rest of the horizon when the switch spends its budget; the bound is the closing `fmax` fold |
| ChildNodes.ChildEtaCase | src/combina_bnb_solver/CombinaBnBSolver.cpp:190-222 | `ChildEtaCases` for one control |
| ChainDeviation.ActiveExtend | src/combina_bnb_solver/CombinaBnBSolver.cpp:487-505 | a new block leaves the painted intervals before it as they were and paints its own control on its intervals |
| ChainDeviation.DeviationPrefix | src/combina_bnb_solver/CombinaBnBSolver.cpp:487-505 | the deviation up to the end of a chain does not see a block added after it |
| ChainDeviation.DeviationExtend | src/combina_bnb_solver/CombinaBnBSolver.cpp:190-197 | across a new block each control's deviation grows by the sum of `dt·(b_rel − [control is active])` over the block's intervals, the term the covering loop adds |
| ChainDeviation.DeviationSnoc | src/combina_bnb_solver/CombinaBnBSolver.cpp:194-195 | one more interval adds `dt·(b_rel − [control is active])` to the deviation |
| ChainDeviation.TermsSign | src/combina_bnb_solver/CombinaBnBSolver.cpp:194-195 | on inputs in range a control's terms are never negative while it is off and never positive while it is on |
| ChainDeviation.BetweenEnds | src/combina_bnb_solver/CombinaBnBSolver.cpp:188-206 | inside a block a control's deviation is monotone, so its size is at most the larger of its sizes at the two ends |
| ChainDeviation.RowsAgree | src/combina_bnb_solver/CombinaBnBSolver.cpp:502-505 | a matrix holding 1 exactly where the chain paints has the objective of the chain |
| ChainDeviation.WithinObjective | src/combina_bnb_solver/CombinaBnBSolver.cpp:230-235 | the max-norm objective of a painted solution bounds each of its deviations |
| ChainDeviation.ObjectiveCovered | src/combina_bnb_solver/CombinaBnBSolver.cpp:230-235 | a bound on every deviation of a painted solution bounds its objective |
| ChainDeviation.BlockCovered | src/combina_bnb_solver/CombinaBnBSolver.cpp:214-222 | a bound on a deviation where a block starts and where the block's control would take it bounds it everywhere on the block |
| BnBSolver.ExitStatusOf | src/combina_bnb_solver/CombinaBnBSolver.cpp:342-357 | the closing message: iteration limit, else CPU time, else user interrupt, else optimal, each exactly under its condition |
| BnBSolver.TruncateToLong | src/combina_bnb_solver/CombinaBnBSolver.cpp:123 | the `(long)` cast truncates toward zero |
| BnBSolver.ChildOfShaped | src/combina_bnb_solver/CombinaBnBSolver.cpp:176-236 | a permitted child is well shaped, strictly deeper than its parent and bounded below by the parent's bound |
| BnBSolver.AllChildrenSound | src/combina_bnb_solver/CombinaBnBSolver.cpp:439-477 | every child the loop over the controls produces is a permitted child |
| BnBSolver.AllChildrenComplete | src/combina_bnb_solver/CombinaBnBSolver.cpp:439-477 | every permitted child is produced |
| BnBSolver.AdmittedMembers | src/combina_bnb_solver/CombinaBnBSolver.cpp:256-268 | exactly the children whose bound is below `ub_bnb` are queued |
| BnBSolver.ExpansionLowersPotential | src/combina_bnb_solver/CombinaBnBSolver.cpp:290-327 | replacing a node by its children lowers a potential of the queue, so the search loop terminates |
| BnBSolver.BelowBoundMonotone | src/combina_bnb_solver/CombinaBnBSolver.cpp:235 | bounds never decrease down the search tree |
| BnBSolver.RootsComplete | src/combina_bnb_solver/CombinaBnBSolver.cpp:138-162 | queuing the admitted roots loses no leaf that could beat `ub_bnb` |
| BnBSolver.DiscardComplete | src/combina_bnb_solver/CombinaBnBSolver.cpp:317-320 | dropping a node whose bound is not below `ub_bnb` keeps the search complete |
| BnBSolver.LeafComplete | src/combina_bnb_solver/CombinaBnBSolver.cpp:304-309 | taking a leaf as the incumbent keeps the search complete |
| BnBSolver.ExpandComplete | src/combina_bnb_solver/CombinaBnBSolver.cpp:311-314 | replacing a node by its admitted children keeps the search complete |
| BnBSolver.OneControlPerInterval | src/combina_bnb_solver/CombinaBnBSolver.cpp:487-508 | a chain of blocks that reaches the horizon puts exactly one control on every interval |
| BnBSolver.MarkBlock | src/combina_bnb_solver/CombinaBnBSolver.cpp:502-505 | the inner loop writes 1 on the block's intervals of the block's control and changes nothing else |
| BnBSolver.CollectAgree | src/combina_bnb_solver/CombinaBnBSolver.cpp:445-471 | the loop over the controls fails exactly when some permitted control overreads, always with `SumEtaOutOfRange`, and otherwise yields every permitted child |
| BnBSolver.OfferAgrees | src/combina_bnb_solver/CombinaBnBSolver.cpp:455-465 | one round fails exactly when its control overreads, and otherwise yields the child for that control |
| BnBSolver.AdmittedConcat | src/combina_bnb_solver/CombinaBnBSolver.cpp:256-268 | the bound filter distributes over the rounds |
| BnBSolver.RemoveAtReachable | src/combina_bnb_solver/CombinaBnBSolver.cpp:299-300 | popping keeps the rest of the queue in the search tree |
| BnBSolver.RootsReachable | src/combina_bnb_solver/CombinaBnBSolver.cpp:138-162 | the admitted roots are nodes of the search tree |
| BnBSolver.ExpandReachable | src/combina_bnb_solver/CombinaBnBSolver.cpp:439-477 | the admitted children of a tree node are tree nodes |
| BnBSolver.StepComplete | src/combina_bnb_solver/CombinaBnBSolver.cpp:290-327 | a pass of the loop that was not told to stop keeps the search complete, whichever way it treats the popped node |
| BnBSolver.PaintedSolutionOneHot | src/combina_bnb_solver/CombinaBnBSolver.cpp:480-508 | painting a full chain onto the zero matrix gives exactly one active control per interval |
| BnBSolver.RetrievedFrom | src/combina_bnb_solver/CombinaBnBSolver.cpp:480-511 | retrieving the incumbent left by a search gives `b_bin` with a tree leaf whose bound is `ub_bnb` painted onto it, or leaves both unchanged |
| BnBSolver.RetrievedOneHot | src/combina_bnb_solver/CombinaBnBSolver.cpp:480-511 | an improved bound retrieved onto the zero matrix is a one-hot binary control |
| BnBSolver.RootBoundInv | src/combina_bnb_solver/CombinaBnBSolver.cpp:138-160 | the state before the horizon keeps the bound invariant: no deviation yet, every `eta` 0, with controls that may never switch left at 0 |
| BnBSolver.IntendedRootParent | src/combina_bnb_solver/CombinaBnBSolver.cpp:138-160 | the initial state as intended: a control that may never switch starts with its deviation over the whole horizon, counted as active for the control active before the horizon and as inactive for the others; every other `eta` is 0 as in the code |
| BnBSolver.IntendedRootBoundInv | src/combina_bnb_solver/CombinaBnBSolver.cpp:138-160 | the intended initial state keeps the bound invariant with every control counted |
| BnBSolver.ChildEtaMeaning | src/combina_bnb_solver/CombinaBnBSolver.cpp:188-222 | in a permitted child, a control with a switch left holds its deviation so far and a control whose budget is spent holds its deviation at the horizon with its state kept |
| BnBSolver.ChildAttained | src/combina_bnb_solver/CombinaBnBSolver.cpp:230-235 | a child's bound is 0, the parent's bound, or the size of one of its `eta` |
| BnBSolver.ChildCovers | src/combina_bnb_solver/CombinaBnBSolver.cpp:188-235 | on inputs in range a child's bound covers every deviation of its painted chain up to its depth |
| BnBSolver.ChildBoundInv | src/combina_bnb_solver/CombinaBnBSolver.cpp:176-236 | every permitted child keeps the bound invariant of its parent |
| BnBSolver.BelowBoundInv | src/combina_bnb_solver/CombinaBnBSolver.cpp:439-477 | every node below a node that keeps the invariant keeps it |
| BnBSolver.LeafBound | src/combina_bnb_solver/CombinaBnBSolver.cpp:230-235 | at the horizon a node's bound is at most the max-norm objective of its painted solution, and equal to it on inputs in range when every control is counted |
| BnBSolver.RootsBoundInv | src/combina_bnb_solver/CombinaBnBSolver.cpp:138-160 | every initial node keeps the invariant |
| BnBSolver.ReachableLeafBound | src/combina_bnb_solver/CombinaBnBSolver.cpp:176-236 | the bound of every leaf of the search tree is at most the max-norm deviation of the solution its chain paints, and equal to it on inputs in range when every control may switch at least once |
| BnBSolver.IntendedRootsBoundInv | src/combina_bnb_solver/CombinaBnBSolver.cpp:138-160 | every initial node grown from the intended initial state keeps the invariant with every control counted |
| BnBSolver.IntendedLeafBound | src/combina_bnb_solver/CombinaBnBSolver.cpp:138-236 | from the intended initial state the bound of every leaf equals the max-norm deviation of its painted solution on inputs in range, with no condition on the budgets |
| BnBSolver.UnswitchableControlUnderReported | src/combina_bnb_solver/CombinaBnBSolver.cpp:190-197 | as written: one interval, control 1 may never switch; the leaf for control 0 has bound 0 while its painted solution deviates by 1 |
| BnBSolver.ActiveFromIsActive | src/combina_bnb_solver/CombinaBnBSolver.cpp:487-508 | the walk from the incumbent up to the root paints exactly what the chain paints |
| BnBSolver.PaintedObjective | src/combina_bnb_solver/CombinaBnBSolver.cpp:480-508 | a chain painted onto the zero matrix has the objective of the chain |
| BnBSolver.RetrievedBound | src/combina_bnb_solver/CombinaBnBSolver.cpp:480-511 | an improved bound retrieved onto the zero matrix is at most the max-norm deviation of the retrieved `b_bin`, and equal to it on inputs in range when every control may switch |
| BnBSolver.IncumbentBound | src/combina_bnb_solver/CombinaBnBSolver.cpp:480-508 | the incumbent's bound is at most the max-norm deviation of the matrix it paints, with equality under the same conditions |
| BnBSolver.CombinaBnBSolver.constructor | src/combina_bnb_solver/CombinaBnBSolver.cpp:34-118 | after construction `ub_bnb` is the horizon length, there is no incumbent, the queue is empty, `b_bin` is all zeros and the counters are zero |
| BnBSolver.CombinaBnBSolver.SetSolverSettings | src/combina_bnb_solver/CombinaBnBSolver.cpp:121-125 | `max_iter` is the truncated option and `max_cpu_time` the option; a missing key reads 0 |
| BnBSolver.CombinaBnBSolver.AddChildNodeToQueue | src/combina_bnb_solver/CombinaBnBSolver.cpp:239-271 | throws exactly when a switch count exceeds its budget; otherwise queues the child exactly when its bound is below `ub_bnb` and reports whether it did |
| BnBSolver.CombinaBnBSolver.OfferChild | src/combina_bnb_solver/CombinaBnBSolver.cpp:447-465 | one round of the loop over the controls queues what that round computes or stops with its error; the switch-limit exception never fires |
| BnBSolver.CombinaBnBSolver.AddChildren | src/combina_bnb_solver/CombinaBnBSolver.cpp:445-471 | the whole loop queues the admitted children exactly when no round fails, and otherwise reports the first failure |
| BnBSolver.CombinaBnBSolver.AddInitialNodesToQueue | src/combina_bnb_solver/CombinaBnBSolver.cpp:138-162 | queues the admitted roots, the children of the state before the horizon, or fails with `SumEtaOutOfRange` exactly when a root overreads |
| BnBSolver.CombinaBnBSolver.AddNodesToQueue | src/combina_bnb_solver/CombinaBnBSolver.cpp:439-477 | queues the admitted children of the node, or fails with `SumEtaOutOfRange` exactly when a child overreads |
| BnBSolver.CombinaBnBSolver.SetNewBestNode | src/combina_bnb_solver/CombinaBnBSolver.cpp:389-399 | the node becomes the incumbent and `ub_bnb` its bound |
| BnBSolver.CombinaBnBSolver.DisplaySolutionUpdate | src/combina_bnb_solver/CombinaBnBSolver.cpp:402-436 | every tenth call prints the table header first, then one row: `U` marker, padded iteration count, upper bound, padded queue size, runtime |
| BnBSolver.CombinaBnBSolver.CheckTermination | src/combina_bnb_solver/CombinaBnBSolver.cpp:375-386 | `terminate` is set when the iteration or CPU limit is reached or the user interrupted, and stays set |
| BnBSolver.CombinaBnBSolver.CountIteration | src/combina_bnb_solver/CombinaBnBSolver.cpp:292-297 | checks termination, then counts the pass unless the search is stopped |
| BnBSolver.CombinaBnBSolver.PopTop | src/combina_bnb_solver/CombinaBnBSolver.cpp:299-300 | pops a queue entry no other entry precedes in the queue order |
| BnBSolver.CombinaBnBSolver.PopAndProcess | src/combina_bnb_solver/CombinaBnBSolver.cpp:299-326 | pops a minimal node, makes it the incumbent exactly when it is an improving leaf, expands it exactly when it is a non-leaf below `ub_bnb`, and otherwise only removes it |
| BnBSolver.CombinaBnBSolver.ProcessNode | src/combina_bnb_solver/CombinaBnBSolver.cpp:302-320 | a leaf below `ub_bnb` becomes the incumbent, any other node below it is expanded, and everything else is dropped |
| BnBSolver.CombinaBnBSolver.Iterate | src/combina_bnb_solver/CombinaBnBSolver.cpp:290-327 | one pass of the loop: the termination check, the count, and the popped node's treatment |
| BnBSolver.CombinaBnBSolver.SearchStep | src/combina_bnb_solver/CombinaBnBSolver.cpp:290-327 | a pass never raises `ub_bnb`, stops counting once stopped, and keeps the search complete |
| BnBSolver.CombinaBnBSolver.RunBnB | src/combina_bnb_solver/CombinaBnBSolver.cpp:274-372 | the loop empties the queue, prints the closing summary with the exit status, and, unless stopped, leaves no leaf of the search tree better than `ub_bnb` |
| BnBSolver.CombinaBnBSolver.Summarize | src/combina_bnb_solver/CombinaBnBSolver.cpp:329-360 | the summary line carries the bound, the iteration count, the runtime and the exit status |
| BnBSolver.CombinaBnBSolver.SearchAndRetrieve | src/combina_bnb_solver/CombinaBnBSolver.cpp:133-134 | finishing the loop and retrieving leaves the queue empty and no incumbent, and `b_bin` holds the best leaf found when the search was complete and not stopped; an improved `ub_bnb` is at most the max-norm deviation of `b_bin`, and equal to it on inputs in range when every control may switch |
| BnBSolver.CombinaBnBSolver.RetrieveSolution | src/combina_bnb_solver/CombinaBnBSolver.cpp:480-523 | the incumbent's chain of blocks is painted into `b_bin`, each block's intervals for its control, and the incumbent is released; onto the zero matrix, the incumbent's bound is at most the max-norm deviation of `b_bin`, and equal to it on inputs in range when every control may switch |
| BnBSolver.CombinaBnBSolver.Stop | src/combina_bnb_solver/CombinaBnBSolver.cpp:537-545 | raises the interrupt, empties the queue and retrieves; the exit status is never `Optimal`; an improved `ub_bnb` bounds the max-norm deviation of `b_bin` from below, with equality under the same conditions |
| BnBSolver.CombinaBnBSolver.Run | src/combina_bnb_solver/CombinaBnBSolver.cpp:128-136 | settings, roots, search and retrieval: an unstopped run returns a bound no leaf of the tree beats, with that leaf painted into `b_bin`; an improved `ub_bnb` is at most the max-norm deviation of `b_bin`, and equal to it on inputs in range when every control may switch at least once |
| BnBSolver.CombinaBnBSolver.GetEta | src/combina_bnb_solver/CombinaBnBSolver.cpp:548-551 | the incumbent bound `ub_bnb` |
| BnBSolver.CombinaBnBSolver.GetBBin | src/combina_bnb_solver/CombinaBnBSolver.cpp:554-557 | the binary solution matrix |
| DepthFirstQueue.DepthFirstNodeQueue.Size | src/combina_bnb_solver/queues/DepthFirstNodeQueue.cpp:44-46 | the number of stored nodes |
| DepthFirstQueue.DepthFirstNodeQueue.constructor | src/combina_bnb_solver/queues/DepthFirstNodeQueue.cpp:26-29 | a new stack is empty |
| DepthFirstQueue.DepthFirstNodeQueue.Empty | src/combina_bnb_solver/NodeQueue.hpp:43 | true exactly when nothing is stored |
| DepthFirstQueue.DepthFirstNodeQueue.Top | src/combina_bnb_solver/queues/DepthFirstNodeQueue.cpp:48-50 | the node pushed last |
| DepthFirstQueue.DepthFirstNodeQueue.Push | src/combina_bnb_solver/queues/DepthFirstNodeQueue.cpp:52-60 | the batch, sorted worst first, goes on top of the stack |
| DepthFirstQueue.DepthFirstNodeQueue.Pop | src/combina_bnb_solver/queues/DepthFirstNodeQueue.cpp:62-64 | removes the top, last in first out |
| DepthFirstQueue.PushedBatchOnTop | src/combina_bnb_solver/queues/DepthFirstNodeQueue.cpp:52-60 | after a push the top is an `operator<`-minimal node of the batch and the stack grew by the batch length |
| BestFirstQueue.BestFirstNodeQueue.Size | src/combina_bnb_solver/queues/BestFirstNodeQueue.cpp:40-42 | the number of stored nodes |
| BestFirstQueue.BestFirstNodeQueue.constructor | src/combina_bnb_solver/queues/BestFirstNodeQueue.cpp:25-27 | a new queue is empty |
| BestFirstQueue.BestFirstNodeQueue.Top | src/combina_bnb_solver/queues/BestFirstNodeQueue.cpp:44-46 | a stored node no other stored node precedes under `operator<` (depth first, then bound), and exactly the entry `pop` removes |
| BestFirstQueue.BestFirstNodeQueue.Push | src/combina_bnb_solver/queues/BestFirstNodeQueue.cpp:48-52 | the stored multiset grows by exactly the batch |
| BestFirstQueue.BestFirstNodeQueue.Pop | src/combina_bnb_solver/queues/BestFirstNodeQueue.cpp:54-56 | removes exactly the entry `top` returns |
| DynamicBacktrackingQueue.LowerToAttained | src/combina_bnb_solver/queues/DynamicBacktrackingNodeQueue.cpp:77-82 | the lowered `glob_lb` is the old value or a batch node's lower bound, and no batch node's bound is below it |
| DynamicBacktrackingQueue.BetaMonotone | src/combina_bnb_solver/queues/DynamicBacktrackingNodeQueue.cpp:122-123 | `beta` lies in [0, 1]; more solutions never raise it, more stored nodes never lower it, and from ten solutions on only the node count matters |
| DynamicBacktrackingQueue.ComputeBeta | src/combina_bnb_solver/queues/DynamicBacktrackingNodeQueue.cpp:122-123 | the two `std::min` steps compute `Beta` |
| DynamicBacktrackingQueue.Beta | src/combina_bnb_solver/queues/DynamicBacktrackingNodeQueue.cpp:122-123 | `beta` lies in [0, 1] and is at least `1 - min(1, n_sol / 10)` |
| DynamicBacktrackingQueue.Interpolate | src/combina_bnb_solver/queues/DynamicBacktrackingNodeQueue.cpp:128 | the cutoff lies between `glob_lb` and the incumbent |
| DynamicBacktrackingQueue.PushFrontAll | src/combina_bnb_solver/queues/DynamicBacktrackingNodeQueue.cpp:77-82 | each node in turn goes to the front of the deque (so the batch ends up reversed in front) and `glob_lb` is lowered to its bound when smaller |
| DynamicBacktrackingQueue.PushFrontStep | src/combina_bnb_solver/queues/DynamicBacktrackingNodeQueue.cpp:77-82 | putting one more node of the batch in front extends the reversed prefix by that node, and lowers the running bound to its lower bound exactly when that is smaller or the bound is infinite |
| DynamicBacktrackingQueue.DynamicBacktrackingNodeQueue.constructor | src/combina_bnb_solver/queues/DynamicBacktrackingNodeQueue.cpp:28-34 | `glob_lb` is +infinity, `min_beta` 1, both containers empty |
| DynamicBacktrackingQueue.DynamicBacktrackingNodeQueue.GetSize | src/combina_bnb_solver/queues/DynamicBacktrackingNodeQueue.cpp:55-57 | heap size plus deque size |
| DynamicBacktrackingQueue.DynamicBacktrackingNodeQueue.Push | src/combina_bnb_solver/queues/DynamicBacktrackingNodeQueue.cpp:72-83 | the batch, sorted worst first and then reversed, is in front of the deque; `glob_lb` is the smaller of its old value and every batch bound |
| DynamicBacktrackingQueue.DynamicBacktrackingNodeQueue.CalculateCutoff | src/combina_bnb_solver/queues/DynamicBacktrackingNodeQueue.cpp:109-129 | without a solution the cutoff is the incumbent and `min_beta` resets to 1; otherwise it interpolates with `Beta` and `min_beta` tracks the smallest `beta` |
| DynamicBacktrackingQueue.DynamicBacktrackingNodeQueue.MoveLoop | src/combina_bnb_solver/queues/DynamicBacktrackingNodeQueue.cpp:137-146 | front nodes whose bound lies above the cutoff and not above the incumbent move to the heap, in order, until one does not or the deque is empty |
| DynamicBacktrackingQueue.DynamicBacktrackingNodeQueue.MoveFrontNodes | src/combina_bnb_solver/queues/DynamicBacktrackingNodeQueue.cpp:137-146 | the move keeps the size: what leaves the front of the deque is appended to the heap, in order |
| DynamicBacktrackingQueue.DynamicBacktrackingNodeQueue.RearrangeNodes | src/combina_bnb_solver/queues/DynamicBacktrackingNodeQueue.cpp:131-147 | the cutoff is computed and a prefix of the deque moves to the heap; no node is lost and `glob_lb` is unchanged |
| DynamicBacktrackingQueue.DynamicBacktrackingNodeQueue.Top | src/combina_bnb_solver/queues/DynamicBacktrackingNodeQueue.cpp:59-70 | rearranges, then returns the deque's front, or the heap's top when the deque is empty; the new heap, deque, `glob_lb` and `min_beta` are those of `rearrange_nodes` |
| DynamicBacktrackingQueue.DynamicBacktrackingNodeQueue.RemoveFront | src/combina_bnb_solver/queues/DynamicBacktrackingNodeQueue.cpp:86-95 | removes the deque's front, or the heap's top when the deque is empty |
| DynamicBacktrackingQueue.DynamicBacktrackingNodeQueue.RecomputeGlobLb | src/combina_bnb_solver/queues/DynamicBacktrackingNodeQueue.cpp:98-106 | `glob_lb` becomes the smallest of the incumbent, every deque bound and the heap top's bound |
| DynamicBacktrackingQueue.DynamicBacktrackingNodeQueue.Pop | src/combina_bnb_solver/queues/DynamicBacktrackingNodeQueue.cpp:85-107 | removes exactly the node `Front` names; `glob_lb` is recomputed only when that node's bound equals it |
| DynamicBacktrackingQueue.MovedKeepsNodes | src/combina_bnb_solver/queues/DynamicBacktrackingNodeQueue.cpp:144-145 | moving nodes to the heap keeps every node |
| DynamicBacktrackingQueue.PushPutsBatchBestInFront | src/combina_bnb_solver/queues/DynamicBacktrackingNodeQueue.cpp:72-83 | after a push the batch's `operator<`-minimal node is at the front |
| DynamicBacktrackingQueue.GlobLbMissesShallowHeapNodes | src/combina_bnb_solver/queues/DynamicBacktrackingNodeQueue.cpp:103-105 | the recomputation reads only the heap's top, which is ordered depth first, so a shallower heap node with a smaller bound is missed: `glob_lb` can exceed the smallest stored bound |
| BestThenDiveQueue.GetAdjustedLb | src/combina_bnb_solver/queues/BestThenDiveNodeQueue.cpp:146-160 | `min_rem_sigma` starts at 0 and only takes minima with unsigned differences, so it stays 0: the result is the bound plus a third of the remaining time |
| BestThenDiveQueue.ComparatorsAreStrictWeakOrders | src/combina_bnb_solver/queues/BestThenDiveNodeQueue.cpp:162-181 | `later_root` and `prefer_dive` are irreflexive, asymmetric and have transitive incomparability, as the heap algorithms require |
| BestThenDiveQueue.PushHeapExtends | src/combina_bnb_solver/queues/BestThenDiveNodeQueue.cpp:142 | `std::push_heap` on a range whose prefix is a heap makes the whole range a heap |
| BestThenDiveQueue.PopHeap | src/combina_bnb_solver/queues/BestThenDiveNodeQueue.cpp:82-83 | `pop_heap` then `pop_back` removes exactly the root |
| BestThenDiveQueue.PopHeapRestores | src/combina_bnb_solver/queues/BestThenDiveNodeQueue.cpp:82-83 | popping a store that is a heap except for its last entry leaves a heap |
| BestThenDiveQueue.PopKeepsHeap | src/combina_bnb_solver/queues/BestThenDiveNodeQueue.cpp:82-83 | after a pop the store is again a heap on all but its last entry |
| BestThenDiveQueue.HeapRootIsEarliest | src/combina_bnb_solver/queues/BestThenDiveNodeQueue.cpp:68 | the root of a heap is no later than any heap entry |
| BestThenDiveQueue.PushHeapRangeHeap | src/combina_bnb_solver/queues/BestThenDiveNodeQueue.cpp:139-143 | the sift loop as written makes the store a heap on all entries but the last |
| BestThenDiveQueue.SiftingLastCompletesHeap | src/combina_bnb_solver/queues/BestThenDiveNodeQueue.cpp:139-143 | one more `push_heap` up to `end`, the evident intent, makes the whole store a heap |
| BestThenDiveQueue.DiveTarget | src/combina_bnb_solver/queues/BestThenDiveNodeQueue.cpp:106-111 | the target is none exactly when no node is below the incumbent; otherwise it is an eligible node that no eligible node is `prefer_dive`-before, the first such one |
| BestThenDiveQueue.FindDiveTarget | src/combina_bnb_solver/queues/BestThenDiveNodeQueue.cpp:106-111 | the loop computes `DiveTarget` |
| BestThenDiveQueue.Stash | src/combina_bnb_solver/queues/BestThenDiveNodeQueue.cpp:119-136 | every non-target node goes to limbo if its bound is not below the incumbent, and to the store otherwise |
| BestThenDiveQueue.StashIsPartition | src/combina_bnb_solver/queues/BestThenDiveNodeQueue.cpp:119-136 | limbo part, store part and target together are exactly the batch |
| BestThenDiveQueue.StashNodes | src/combina_bnb_solver/queues/BestThenDiveNodeQueue.cpp:119-136 | the two loops compute `Stash` |
| BestThenDiveQueue.SiftStore | src/combina_bnb_solver/queues/BestThenDiveNodeQueue.cpp:139-143 | the loop computes `PushHeapRange` |
| BestThenDiveQueue.StoredHeap | src/combina_bnb_solver/queues/BestThenDiveNodeQueue.cpp:96-143 | the store `push` builds and sifts is rankable and a heap on all entries but the last |
| BestThenDiveQueue.PushedParts | src/combina_bnb_solver/queues/BestThenDiveNodeQueue.cpp:87-144 | after a push every node is in limbo, in the store or is `curtop` |
| BestThenDiveQueue.PushLeavesLastUnsifted | src/combina_bnb_solver/queues/BestThenDiveNodeQueue.cpp:139-143 | a concrete push after which the store front is a later root than the unsifted last entry |
| BestThenDiveQueue.PopOnce | src/combina_bnb_solver/queues/BestThenDiveNodeQueue.cpp:60-85 | the intended `pop`: the corrected counterpart of `Pop` |
| BestThenDiveQueue.PopOnceRemovesTop | src/combina_bnb_solver/queues/BestThenDiveNodeQueue.cpp:60-85 | the intended `pop` removes exactly the node `top` returns and keeps every other node |
| BestThenDiveQueue.PopOnceKeepsHeap | src/combina_bnb_solver/queues/BestThenDiveNodeQueue.cpp:72-85 | the intended `pop` keeps the store a heap on all but its last entry |
| BestThenDiveQueue.BestThenDiveNodeQueue.GetSize | src/combina_bnb_solver/queues/BestThenDiveNodeQueue.cpp:56-58 | limbo plus store plus one for a present `curtop` |
| BestThenDiveQueue.BestThenDiveNodeQueue.constructor | src/combina_bnb_solver/queues/BestThenDiveNodeQueue.cpp:32-37 | no `curtop`, empty limbo, empty store |
| BestThenDiveQueue.BestThenDiveNodeQueue.Top | src/combina_bnb_solver/queues/BestThenDiveNodeQueue.cpp:60-70 | the last limbo entry, else `curtop`, else the store front, which no store entry except possibly the unsifted last one precedes |
| BestThenDiveQueue.BestThenDiveNodeQueue.DropLimbo | src/combina_bnb_solver/queues/BestThenDiveNodeQueue.cpp:75-77 | drops the last limbo entry, if any |
| BestThenDiveQueue.BestThenDiveNodeQueue.DropTop | src/combina_bnb_solver/queues/BestThenDiveNodeQueue.cpp:78-84 | clears `curtop`, or else pops the heap root; on an empty store this is `pop_heap` on an empty vector (`EmptyStorePopped`) |
| BestThenDiveQueue.BestThenDiveNodeQueue.PopStore | src/combina_bnb_solver/queues/BestThenDiveNodeQueue.cpp:82-83 | the store becomes `PopHeap` of the old store |
| BestThenDiveQueue.BestThenDiveNodeQueue.Pop | src/combina_bnb_solver/queues/BestThenDiveNodeQueue.cpp:72-85 | both halves run: with a non-empty limbo one call removes two nodes, the size drops by 2 |
| BestThenDiveQueue.BestThenDiveNodeQueue.Push | src/combina_bnb_solver/queues/BestThenDiveNodeQueue.cpp:87-144 | an empty batch changes nothing; otherwise the old `curtop` goes to the store, the dive target becomes `curtop`, the rest is stashed, and the store is sifted as written; the size grows by the batch length |
| QueueRegistry.StrLessTransitive | src/combina_bnb_solver/NodeQueue.cpp:85-88 | `std::string` order is transitive (with `StrLessIrreflexive` and `StrLessTotal`, a strict total order) |
| QueueRegistry.InsertName | src/combina_bnb_solver/NodeQueue.cpp:85-88 | inserting a new name into a strictly sorted list keeps it strictly sorted and adds exactly that name |
| QueueRegistry.SortedNamesUnique | src/combina_bnb_solver/NodeQueue.cpp:85-88 | a sorted name list has no duplicates |
| QueueRegistry.DefaultNamesInOrder | src/combina_bnb_solver/NodeQueue.cpp:102-115 | registering `dfs`, `bfs`, `btd`, `dbt` lists them as `bfs, btd, dbt, dfs` |
| QueueRegistry.Emplace | src/combina_bnb_solver/NodeQueue.cpp:81 | `emplace` adds a new name with its factory and leaves a registered name's factory as it was |
| QueueRegistry.Overwrite | src/combina_bnb_solver/NodeQueue.cpp:64-79 | the documented registration: the new factory replaces a registered one |
| QueueRegistry.EmplaceIgnoresReRegistration | src/combina_bnb_solver/NodeQueue.cpp:64-81 | the two agree exactly when the name is new or re-registered with the factory it has; re-registering `dfs` keeps depth-first search |
| QueueRegistry.NodeQueueRegistry.Create | src/combina_bnb_solver/NodeQueue.cpp:55-62 | an empty name selects the default; a registered name yields its factory; any other name is `std::out_of_range` |
| QueueRegistry.NodeQueueRegistry.RegisterType | src/combina_bnb_solver/NodeQueue.cpp:80-90 | the registry becomes `Emplace` of it; the first name, or one registered with `make_default`, becomes the default; the name list stays the sorted key list |
| QueueRegistry.NodeQueueRegistry.GetTypes | src/combina_bnb_solver/NodeQueue.cpp:120-122 | the strictly sorted list of exactly the registered names |
| QueueRegistry.NodeQueueRegistry.RegisterDefaultTypes | src/combina_bnb_solver/NodeQueue.cpp:102-115 | a fresh registry ends with the four strategies, `dfs` the default, listed `bfs, btd, dbt, dfs` |
| Timers.ChronoTimer.constructor | src/combina_bnb_solver/Timer.hpp:67 | a new timer is stopped with a zero accumulator |
| Timers.ChronoTimer.Default | src/combina_bnb_solver/Timer.hpp:66 | the default constructor leaves the accumulator unset |
| Timers.ChronoTimer.Copy | src/combina_bnb_solver/Timer.hpp:68 | the copy has the same state |
| Timers.ChronoTimer.IsRunning | src/combina_bnb_solver/Timer.hpp:46 | whether the timer runs |
| Timers.ChronoTimer.Secs | src/combina_bnb_solver/Timer.hpp:91-97 | the accumulator, plus the current interval while running |
| Timers.ChronoTimer.Start | src/combina_bnb_solver/Timer.hpp:70-75 | the timer runs; a running timer keeps its start; the reading `secs()` does not jump |
| Timers.ChronoTimer.Stop | src/combina_bnb_solver/Timer.hpp:77-82 | the current interval is folded into the accumulator; `secs()` does not jump |
| Timers.ChronoTimer.Reset | src/combina_bnb_solver/Timer.hpp:84-89 | the accumulator is zero and a running interval restarts now, so `secs()` reads 0 |
| Timers.SecsMonotone | src/combina_bnb_solver/Timer.hpp:91-97 | with a steady clock `secs()` never decreases, and is constant while stopped |
| VbcMonitoring.ToColorCode | src/combina_bnb_solver/monitors/VbcMonitor.cpp:77-89 | the colour table, state by state |
| VbcMonitoring.ToStatusMessage | src/combina_bnb_solver/monitors/VbcMonitor.cpp:97-109 | the message table: none for active and selected states |
| VbcMonitoring.StateTables | src/combina_bnb_solver/monitors/VbcMonitor.cpp:77-109 | the terminal states (`NODE_STATE_TERMINAL`, line 93) are exactly those with a message, and different states have different colours |
| VbcMonitoring.EndsWith | src/combina_bnb_solver/monitors/VbcMonitor.cpp:121-122 | the guarded `std::equal` is true exactly when the path ends with the suffix |
| VbcMonitoring.InferCompressionMethod | src/combina_bnb_solver/monitors/VbcMonitor.cpp:119-127 | `.bz2` gives bzip2, `.gz` gzip, anything else none |
| VbcMonitoring.SuffixesExclusive | src/combina_bnb_solver/monitors/VbcMonitor.cpp:113-127 | the two suffixes cannot both match, so the table's order does not matter |
| VbcMonitoring.NumberingInjective | src/combina_bnb_solver/monitors/VbcMonitor.cpp:208-209 | different sequence numbers get different VBC numbers, none of them the virtual root 1 |
| VbcMonitoring.CategorizeActive | src/combina_bnb_solver/monitors/VbcMonitor.cpp:286-291 | one `ACTIVE` category record for every uncategorised node, each exactly once |
| VbcMonitoring.VbcMonitor.constructor | src/combina_bnb_solver/monitors/VbcMonitor.cpp:149-160 | no file open, no record, no uncategorised node |
| VbcMonitoring.VbcMonitor.Write | src/combina_bnb_solver/monitors/VbcMonitor.cpp:174-178 | a stream write is recorded only while the file is open and the stream good; otherwise the stream fails |
| VbcMonitoring.VbcMonitor.OnStartSearch | src/combina_bnb_solver/monitors/VbcMonitor.cpp:166-200 | opens the file when possible and writes the header and the virtual root, in the timed or untimed form |
| VbcMonitoring.VbcMonitor.OnCreate | src/combina_bnb_solver/monitors/VbcMonitor.cpp:203-232 | writes the node and its edge to its parent; untimed, the node becomes uncategorised |
| VbcMonitoring.VbcMonitor.OnChange | src/combina_bnb_solver/monitors/VbcMonitor.cpp:240-276 | timed: a colour record, a message record when the state has one, a bound record for `NODE_INTEGER`; untimed: a category record for terminal states, which leave the uncategorised set |
| VbcMonitoring.VbcMonitor.OnSelect | src/combina_bnb_solver/monitors/VbcMonitor.cpp:235-237 | `on_change` with `NODE_SELECTED` |
| VbcMonitoring.VbcMonitor.OnStopSearch | src/combina_bnb_solver/monitors/VbcMonitor.cpp:279-296 | untimed, every uncategorised node gets an `ACTIVE` category; the set is cleared and the file closed |
| SumUpRounding.FirstMaxIsLowestArgMax | pycombina/_combina_sur.py:114-122 | the inner loop's choice is the lowest index attaining the maximum of the raised accumulators |
| SumUpRounding.FirstMaxUnique | pycombina/_combina_sur.py:114-122 | those two properties pin the choice down: no other index has both |
| SumUpRounding.SettledEntry | pycombina/_combina_sur.py:118-126 | after an interval each accumulator has gained `b_rel[j][i] * dt[i]` and the activated control has lost `dt[i]` |
| SumUpRounding.Run | pycombina/_combina_sur.py:112-127 | after `i` intervals there are `i` choices, each a control index |
| SumUpRounding.RunNext | pycombina/_combina_sur.py:112-127 | one more interval appends the new choice, settles the accumulators and raises `eta` to their largest absolute value if that is larger |
| SumUpRounding.ObjectiveBounds | src/pycombina/_binary_approximation.py:795-821 | the max-norm objective bounds the absolute integrated deviation of every control at every interval end |
| SumUpRounding.ObjectiveAtMost | src/pycombina/_binary_approximation.py:795-821 | a bound on the absolute integrated deviation of every control at every interval end bounds the max-norm objective |
| SumUpRounding.OneHotColumns | pycombina/_combina_sur.py:124 | every interval column of the result holds one 1 and zeros elsewhere |
| SumUpRounding.RunAccumulates | pycombina/_combina_sur.py:118-126 | after `i` intervals each accumulator is exactly its control's integrated deviation `Σ dt·(b_rel − b_bin)` |
| SumUpRounding.RunPrefix | pycombina/_combina_sur.py:112-127 | later intervals never revise earlier choices |
| SumUpRounding.SurDeviation | pycombina/_combina_sur.py:118-129 | the accumulator identity holds against the `b_bin` that is finally returned |
| SumUpRounding.SurEtaIsObjective | pycombina/_combina_sur.py:127-130 | the returned `eta` is the max-norm objective of the returned `b_bin` |
| SumUpRounding.EtaNeverDecreases | pycombina/_combina_sur.py:127 | `eta` is a running maximum and never decreases |
| SumUpRounding.RaiseAndChoose | pycombina/_combina_sur.py:114-122 | the inner loop computes the raised accumulators and the choice |
| SumUpRounding.SurInterval | pycombina/_combina_sur.py:112-127 | one pass of the outer loop takes the state after `i` intervals to the state after `i + 1`, with column `i` of `b_bin` set |
| SumUpRounding.RunSur | pycombina/_combina_sur.py:102-130 | fails (writing `b_bin[0][i]`) exactly when there is no control but at least one interval; otherwise returns the one-hot matrix of `Run`'s choices and its running `eta` |
| CombinaSurFrontEnd.StatusMessage | pycombina/_combina_sur.py:39-54 | codes 1 and 2 give their messages, any other code raises `RuntimeError` |
| CombinaSurFrontEnd.ObjectiveSpread | src/pycombina/_binary_approximation.py:916-939 | the objective of the inflated solution on the full problem equals the objective of the reduced solution on the reduced problem |
| CombinaSurFrontEnd.Spread | src/pycombina/_binary_approximation.py:916-939 | the inflated solution has the full problem's shape |
| CombinaSurFrontEnd.SpreadEntry | src/pycombina/_binary_approximation.py:916-939 | entry `j, k` is 1 exactly at the row of the control chosen for interval `k` |
| CombinaSurFrontEnd.SpreadOneHot | src/pycombina/_binary_approximation.py:916-939 | the stored solution is binary, has one 1 per interval, and its removed rows are zero |
| CombinaSurFrontEnd.SpreadRows | src/pycombina/_binary_approximation.py:916-939 | the kept rows are the rows of the reduced solution |
| CombinaSurFrontEnd.SurOnFullProblem | pycombina/_combina_sur.py:95-142 | the `eta` the front end stores is the max-norm objective of the solution it stores, removed controls included |
| CombinaSurFrontEnd.Choices | pycombina/_combina_sur.py:112-126 | one control per interval of the reduced problem |
| CombinaSurFrontEnd.StoreSolution | pycombina/_combina_sur.py:138-142 | `inflate_solution`, `set_b_bin` and `set_eta` accept and store the rounding's result |
| CombinaSurFrontEnd.CombinaSur.constructor | pycombina/_combina_sur.py:76-85 | the problem and its reduction are kept and the status is 1 |
| CombinaSurFrontEnd.CombinaSur.Status | pycombina/_combina_sur.py:46-54 | status 1 reads `Initialized`, status 2 `Optimal solution found` |
| CombinaSurFrontEnd.CombinaSur.RunSur | pycombina/_combina_sur.py:102-130 | the reduction's `_b_bin` and `_eta` are the rounding's matrix and running maximum |
| CombinaSurFrontEnd.CombinaSur.SetSolution | pycombina/_combina_sur.py:138-142 | the inflated solution and the `eta` reach the original problem |
| CombinaSurFrontEnd.CombinaSur.Solve | pycombina/_combina_sur.py:88-99 | after `solve` the status is 2, the problem holds the inflated one-hot solution, and its `eta` is that solution's max-norm objective |
| CombinaSurFrontEnd.NewCombinaSur | pycombina/_combina_sur.py:57-85 | construction fails with `IndexError` exactly when every relaxed control is zero everywhere, so that no control is left after the reduction |
| CombinaRounding.IntOneHotMatches | pycombina/_combina_rounding.py:69-89 | the integer result is binary and, read as doubles, is the one-hot matrix of sum-up rounding |
| CombinaRounding.IntPartialStep | pycombina/_combina_rounding.py:85-89 | clearing the other controls and setting the chosen one writes column `i` |
| CombinaRounding.ClearOthers | pycombina/_combina_rounding.py:85-87 | every control but the chosen one gets 0 in interval `i`; the chosen row is untouched |
| CombinaRounding.RoundingInterval | pycombina/_combina_rounding.py:73-91 | one pass of the outer loop: accumulators and matrix of the next interval, with `eta` the largest absolute accumulator now |
| CombinaRounding.RunSurRounding | pycombina/_combina_rounding.py:66-93 | fails exactly when there is no control but an interval; otherwise returns the integer one-hot matrix and the largest absolute accumulator after the last interval (0 without intervals) |
| CombinaRounding.RoundingEtaIsFinalDeviation | pycombina/_combina_rounding.py:91-93 | the reported value is the largest absolute deviation of the returned matrix at the end of the horizon |
| CombinaRounding.RoundingEtaAtMostRunningMax | pycombina/_combina_rounding.py:91 | it never exceeds the running maximum the other front end reports |
| RoundingSur.Rounded | pycombina/_rounding_sur_solver.py:26-43 | after `n` passes there are `n` bits, each 0 or 1 |
| RoundingSur.RoundedPrefix | pycombina/_rounding_sur_solver.py:30-43 | later passes never change earlier bits |
| RoundingSur.RoundedBitRule | pycombina/_rounding_sur_solver.py:32-41 | interval `i` is 0 exactly when the accumulator plus its relaxed share is below half the interval |
| RoundingSur.RoundedAccumulates | pycombina/_rounding_sur_solver.py:32-41 | the accumulator is the integrated deviation of the returned bits |
| RoundingSur.RoundedBounded | pycombina/_rounding_sur_solver.py:32-41 | with relaxed values in [0, 1] the accumulator stays within half the longest interval, on both sides |
| RoundingSur.RoundingSurSolver.constructor | pycombina/_rounding_solver.py:37-43 | the problem is stored; `b_bin` and `eta` are not yet set |
| RoundingSur.RoundingSurSolver.GetEta | pycombina/_rounding_solver.py:27-29 | the stored `eta`, or `AttributeError` before it is set |
| RoundingSur.RoundingSurSolver.GetBBin | pycombina/_rounding_solver.py:32-34 | the stored `b_bin`, or `AttributeError` before it is set |
| RoundingSur.RoundingSurSolver.RunRoundingApproximation | pycombina/_rounding_sur_solver.py:24-43 | `b_bin` becomes the bits of `Rounded`; `eta` the final accumulator when there was an interval, unchanged otherwise; with intervals but no row of `b_rel` it raises `IndexError` after clearing `b_bin` |
| BinaryApproximation.Transpose | src/pycombina/_binary_approximation.py:346-348 | the `.T` of a rectangular matrix swaps its dimensions and every entry's indices |
| BinaryApproximation.TransposeTwice | src/pycombina/_binary_approximation.py:346-348 | transposing twice gives back the matrix, so the orientation step loses nothing |
| BinaryApproximation.Oriented | src/pycombina/_binary_approximation.py:344-353 | a matrix is refused exactly when neither dimension is `n`; otherwise the result has `n` columns, is the input when it already had them and its transpose when not |
| BinaryApproximation.IncreasingPairs | src/pycombina/_binary_approximation.py:333-335 | strictly increasing successive differences order every pair of time points |
| BinaryApproximation.TimePoints | src/pycombina/_binary_approximation.py:325-337 | `t` is accepted exactly when it is a vector (not a single squeezed point) and strictly increasing; each refusal carries its own message |
| BinaryApproximation.Intervals | src/pycombina/_binary_approximation.py:249-251 | there is one interval length per pair of successive time points, and each is positive on an increasing grid |
| BinaryApproximation.MinOf | src/pycombina/_binary_approximation.py:260 | the minimum is attained by some entry and bounds every entry from below |
| BinaryApproximation.DwellTimeTolerance | src/pycombina/_binary_approximation.py:254-260 | the tolerance is at most `1e-5` times every interval length, and positive on an increasing grid |
| BinaryApproximation.Clamp | src/pycombina/_binary_approximation.py:359-365 | values above `1 - threshold` become 1, values below the threshold (and not above `1 - threshold`) become 0, the rest stay, and values in `[0, 1]` stay in `[0, 1]` |
| BinaryApproximation.ClampedInColumn | src/pycombina/_binary_approximation.py:361 | the clamped count of an interval never exceeds the number of controls counted |
| BinaryApproximation.UnclampedColumn | src/pycombina/_binary_approximation.py:359-365 | an interval has a clamped count of zero exactly when clamping leaves its column unchanged |
| BinaryApproximation.ClampAll | src/pycombina/_binary_approximation.py:363-367 | clamping keeps the shape of `b_rel` |
| BinaryApproximation.ClampedCounts | src/pycombina/_binary_approximation.py:361-368 | `_clamped` holds one count per interval, each at most the number of controls |
| BinaryApproximation.ClampedIntoUnit | src/pycombina/_binary_approximation.py:355-365 | a `b_rel` that passed the range check still lies in `[0, 1]` after clamping |
| BinaryApproximation.Initialize | src/pycombina/_binary_approximation.py:397-415 | construction fails on a non-vector or non-increasing `t` first, then on a mis-shaped `b_rel`, then on values outside `[0, 1]`; on success it holds the clamped, oriented `b_rel`, the grid and the tolerance |
| BinaryApproximation.TruncateToInt | src/pycombina/_binary_approximation.py:446 | conversion to `int` truncates toward zero, for negative values as well |
| BinaryApproximation.Truncated | src/pycombina/_binary_approximation.py:446 | every entry of the vector is truncated toward zero |
| BinaryApproximation.Shifted | src/pycombina/_binary_approximation.py:499-500 | every duration is moved by exactly the tolerance |
| BinaryApproximation.ShiftedBack | src/pycombina/_binary_approximation.py:499-500 | shifting back by the same tolerance recovers the values the user gave |
| BinaryApproximation.PerControl | src/pycombina/_binary_approximation.py:488-497 | a per-control vector is accepted exactly when it has one value per control, and is then kept unchanged |
| BinaryApproximation.BBinPreCheck | src/pycombina/_binary_approximation.py:656-670 | `b_bin_pre` is accepted exactly when its sum is at most 1, it has one value per control and its values are 0 or 1, the first failing check naming the error |
| BinaryApproximation.BBinPreAtMostOne | src/pycombina/_binary_approximation.py:656-660 | an accepted `b_bin_pre` marks at most one control as active |
| BinaryApproximation.EtaCheck | src/pycombina/_binary_approximation.py:284-295 | `eta` is accepted exactly when it is a number at least zero, and is then stored as given |
| BinaryApproximation.BBinCheck | src/pycombina/_binary_approximation.py:264-281 | `b_bin` is accepted exactly when one orientation has `|t| - 1` columns and every entry is 0 or 1; the stored matrix is the oriented one |
| BinaryApproximation.BBinCheckAccepts | src/pycombina/_binary_approximation.py:264-281 | a correctly oriented 0/1 matrix is stored exactly as given |
| BinaryApproximation.WriteWindow | src/pycombina/_binary_approximation.py:722-728 | the columns whose start point lies in `[t_start, t_end)` take the given column and every other column keeps its values |
| BinaryApproximation.WriteWindowIdempotent | src/pycombina/_binary_approximation.py:722-728 | writing the same window twice is writing it once |
| BinaryApproximation.IntervalCheck | src/pycombina/_binary_approximation.py:701-720 | the call is accepted exactly when the bounds are a pair and the column has one 0/1 value per control, the first failing check naming the error |
| BinaryApproximation.ColumnOf | src/pycombina/_binary_approximation.py:792 | numpy's column index: a negative `b_i` counts from the end, one below `-n_c` has no column |
| BinaryApproximation.TransitionCheck | src/pycombina/_binary_approximation.py:761-792 | one control refuses the call, `b_i` is only checked from above, then the row size and the 0/1 values are checked, and a `b_i` below `-n_c` raises `IndexError` at the write |
| BinaryApproximation.WriteColumn | src/pycombina/_binary_approximation.py:792 | writing a column keeps the shape of `b_adjacencies` |
| BinaryApproximation.WriteColumnTransitions | src/pycombina/_binary_approximation.py:731-760 | corrected: under the documented reading, writing column `b_i` sets exactly the transitions out of `b_i` and leaves every other transition as before |
| BinaryApproximation.WriteColumnIntoTarget | src/pycombina/_binary_approximation.py:792 | as written, under the reading the solver's constraint uses, writing column `b_i` sets the transitions into `b_i` instead |
| BinaryApproximation.ReadingsDisagree | src/pycombina/_binary_approximation.py:792 | on a three-control example the two readings disagree on the same stored matrix |
| BinaryApproximation.BinApprox.constructor | src/pycombina/_binary_approximation.py:397-415 | the new object holds the validated setup, all controls valid on all intervals and all transitions allowed, and nothing else set |
| BinaryApproximation.BinApprox.NMaxSwitches | src/pycombina/_binary_approximation.py:144-153 | one value per control, `n_t` by default |
| BinaryApproximation.BinApprox.MinUpTimes | src/pycombina/_binary_approximation.py:157-166 | one value per control, zero by default |
| BinaryApproximation.BinApprox.MinDownTimes | src/pycombina/_binary_approximation.py:170-179 | one value per control, zero by default |
| BinaryApproximation.BinApprox.MaxUpTimes | src/pycombina/_binary_approximation.py:183-195 | one value per control, unbounded by default |
| BinaryApproximation.BinApprox.TotalMaxUpTimes | src/pycombina/_binary_approximation.py:199-211 | one value per control, unbounded by default |
| BinaryApproximation.BinApprox.BBinPre | src/pycombina/_binary_approximation.py:215-224 | one value per control, no control active by default |
| BinaryApproximation.BinApprox.CiaNorm | src/pycombina/_binary_approximation.py:228-236 | the set norm, `"max_norm"` by default |
| BinaryApproximation.BinApprox.SetNMaxSwitches | src/pycombina/_binary_approximation.py:417-458 | fails exactly on a wrong count and then changes nothing; otherwise stores the truncated values and changes no other setting |
| BinaryApproximation.BinApprox.SetMinUpTimes | src/pycombina/_binary_approximation.py:461-500 | fails exactly on a wrong count and then changes nothing; otherwise stores the values minus the tolerance |
| BinaryApproximation.BinApprox.SetMinDownTimes | src/pycombina/_binary_approximation.py:503-542 | fails exactly on a wrong count and then changes nothing; otherwise stores the values minus the tolerance |
| BinaryApproximation.BinApprox.SetMaxUpTimes | src/pycombina/_binary_approximation.py:545-584 | fails exactly on a wrong count and then changes nothing; otherwise stores the values plus the tolerance |
| BinaryApproximation.BinApprox.SetTotalMaxUpTimes | src/pycombina/_binary_approximation.py:587-626 | fails exactly on a wrong count and then changes nothing; otherwise stores the values plus the tolerance |
| BinaryApproximation.BinApprox.SetBBinPre | src/pycombina/_binary_approximation.py:629-672 | fails exactly when validation refuses, with its error and no change; otherwise stores the vector |
| BinaryApproximation.BinApprox.SetCiaNorm | src/pycombina/_binary_approximation.py:795-825 | accepts exactly the three known norm names; otherwise raises and changes nothing |
| BinaryApproximation.BinApprox.SetBBin | src/pycombina/_binary_approximation.py:264-281 | fails exactly when validation refuses, leaving `b_bin` as it was; otherwise stores the oriented matrix |
| BinaryApproximation.BinApprox.SetEta | src/pycombina/_binary_approximation.py:284-295 | fails exactly on a missing or negative `eta`, leaving it as it was; otherwise stores it |
| BinaryApproximation.BinApprox.SetValidControlsForInterval | src/pycombina/_binary_approximation.py:675-728 | fails exactly when validation refuses and changes nothing; otherwise writes the window into `b_valid` |
| BinaryApproximation.BinApprox.SetValidControlTransitions | src/pycombina/_binary_approximation.py:731-792 | fails exactly when validation refuses and changes nothing; otherwise writes the column numpy picks for `b_i` |
| BinaryApproximation.NewBinApprox | src/pycombina/_binary_approximation.py:397-415 | construction fails exactly when validation refuses, with their error; otherwise it gives a fresh, valid problem holding the validated setup |
| BinaryApproximation.Rows | src/pycombina/_binary_approximation.py:850-866 | every listed index is a control index |
| BinaryApproximation.RowsIncreasing | src/pycombina/_binary_approximation.py:850-866 | the listed indices are strictly increasing |
| BinaryApproximation.RowsMembership | src/pycombina/_binary_approximation.py:855-863 | a control is listed as active exactly when its `b_rel` row is not all zero |
| BinaryApproximation.RowsPartition | src/pycombina/_binary_approximation.py:850-866 | active and inactive controls split the controls between them |
| BinaryApproximation.DetermineActiveControls | src/pycombina/_binary_approximation.py:850-866 | the loop lists the controls with a nonzero row as active and the others as inactive, each in increasing order |
| BinaryApproximation.Range | src/pycombina/_binary_approximation.py:869-884 | the kept time points are `0, ..., n_t - 1` |
| BinaryApproximation.Select | src/pycombina/_binary_approximation.py:895-901 | indexing by an index array picks the listed entries in order |
| BinaryApproximation.Restrict | src/pycombina/_binary_approximation.py:887-893 | `np.ix_` indexing keeps exactly the listed rows and columns, in order |
| BinaryApproximation.Position | src/pycombina/_binary_approximation.py:923 | the index at which a listed row or column sits |
| BinaryApproximation.PositionOf | src/pycombina/_binary_approximation.py:923 | in an increasing index list each entry's position is its index |
| BinaryApproximation.Inflated | src/pycombina/_binary_approximation.py:917-925 | the inflated `b_bin` has one row per original control and one column per interval |
| BinaryApproximation.InflatedOutside | src/pycombina/_binary_approximation.py:917-925 | inflation leaves every entry outside the kept rows and columns zero |
| BinaryApproximation.RestrictInflated | src/pycombina/_binary_approximation.py:887-925 | restricting an inflated solution gives back the reduced solution |
| BinaryApproximation.InflatedRestrict | src/pycombina/_binary_approximation.py:887-925 | a full matrix that is zero outside the kept rows and columns is the inflation of its restriction |
| BinaryApproximation.Preprocessed.constructor | src/pycombina/_binary_approximation.py:904-914 | the reduced problem keeps the active controls and all intervals, and holds `b_rel`, `b_valid`, the adjacencies and the per-control settings restricted to them |
| BinaryApproximation.Preprocessed.InflateSolution | src/pycombina/_binary_approximation.py:935-939 | without a solution reading `_b_bin` fails and nothing changes; otherwise `b_bin` becomes the inflated solution |
| BinaryApproximation.Preprocess | src/pycombina/_binary_approximation.py:887-914 | preprocessing fails with `IndexError` exactly when every control's row is zero; otherwise it gives a fresh reduced problem with no solution yet |
| LegacyNodes.Cascade | pycombina/src/BnBNode.cpp:37-63 | deleting a node removes it and possibly some other nodes, and adds none |
| LegacyNodes.Doomed | pycombina/src/BnBNode.cpp:37-63 | the deleted nodes start with the node itself and are all nodes of the arena |
| LegacyNodes.DestroyedKeepsFields | pycombina/src/BnBNode.cpp:37-63 | destroying one node changes no field of a surviving node but its counter |
| LegacyNodes.DestroyedParentCount | pycombina/src/BnBNode.cpp:53-63 | a parent counting more than one live child survives the destructor with its counter decremented by one |
| LegacyNodes.CascadeCounted | pycombina/src/BnBNode.cpp:37-63 | deleting a childless node keeps every counter exact, however far the deletion climbs |
| LegacyNodes.DoomedChain | pycombina/src/BnBNode.cpp:37-63 | the deleted nodes are the node followed by its ancestors, each the parent of the one before |
| LegacyNodes.CascadeKeys | pycombina/src/BnBNode.cpp:37-63 | exactly the deleted nodes disappear from the arena |
| LegacyNodes.CascadeKeepsFields | pycombina/src/BnBNode.cpp:37-63 | a surviving node keeps every field but its counter |
| LegacyNodes.DoomedChildless | pycombina/src/BnBNode.cpp:53-63 | a node is deleted only after all its live children were deleted before it |
| LegacyNodes.LastDoomed | pycombina/src/BnBNode.cpp:53-63 | the last node a deletion removes was in the arena |
| LegacyNodes.CascadeStops | pycombina/src/BnBNode.cpp:53-63 | the deletion climbs only as far as it must: the first surviving ancestor still has a live child and a positive counter |
| LegacyNodes.NoChildOfChildless | pycombina/src/BnBNode.cpp:13-34 | in a counted arena no node names a node with a zero counter as its parent |
| LegacyNodes.SiblingStopsCascade | pycombina/src/BnBNode.cpp:53-63 | with a live sibling only the node itself is deleted and the parent's counter drops by one |
| LegacyNodes.OnlyChildTakesParent | pycombina/src/BnBNode.cpp:53-63 | an only child's deletion deletes its parent right after it |
| LegacyNodes.LegacyNodeArena.Create | pycombina/src/BnBNode.cpp:13-34 | the new node stores its arguments with a zero counter, the parent's counter goes up by one and the counters stay exact |
| LegacyNodes.LegacyNodeArena.Destroy | pycombina/src/BnBNode.cpp:37-63 | the loop of destructor and parent decrements leaves exactly the cascaded arena, with exact counters |
| ScalarNodes.BnBNodeComparison | pycombina/BnBNodeComparison.cpp:15-41 | `a` ranks below `b` exactly when `b` has a smaller lower bound, or an equal one and more depth, or equal both and fewer switches |
| ScalarNodes.ComparisonStrictWeakOrder | pycombina/BnBNodeComparison.cpp:15-41 | the comparator is irreflexive and transitive, and nodes it cannot tell apart agree on all three keys |
| ScalarNodes.TopIsLowestThenDeepest | pycombina/BnBNodeComparison.cpp:15-41 | a node no other node outranks has the smallest lower bound, then the largest depth, then the fewest switches |
| LegacyCia.ValidateInputDimensions | pycombina/src/CIA.cpp:90-101 | validation passes exactly when every row of `b_rel` has one entry per interval |
| LegacyCia.ValidateInputValuesT | pycombina/src/CIA.cpp:112-122 | validation passes exactly when `T` is strictly increasing |
| LegacyCia.ValidateRow | pycombina/src/CIA.cpp:129-137 | the inner loop passes exactly when every value of the row lies in `[0, 1]` |
| LegacyCia.ValidateInputValuesBRel | pycombina/src/CIA.cpp:125-139 | validation passes exactly when every value of `b_rel` lies in `[0, 1]` |
| LegacyCia.ValidateInputData | pycombina/src/CIA.cpp:22-75 | construction succeeds exactly on valid input; an empty `T` raises a length error and an empty `b_rel` an out-of-range error, each before the validation |
| LegacyCia.TimeGridPositive | pycombina/src/CIA.cpp:181-187 | increasing time points give positive interval lengths |
| LegacyCia.TimeGridTelescopes | pycombina/src/CIA.cpp:181-196 | the interval lengths add up to the length of the horizon, so the initial bound is `T[N_b] - T[0]` |
| LegacyCia.Switched | pycombina/src/CIA.cpp:258-268 | a change of control gives each real control of the two exactly one more switch and leaves the other counts |
| LegacyCia.TailEtaEmpty | pycombina/src/CIA.cpp:274-280 | a tail over no intervals leaves the deviations unchanged |
| LegacyCia.BudgetHitMeaning | pycombina/src/CIA.cpp:270-286 | the scan finds the first control whose switch count equals its budget, and reading past a shorter `sigma_max` raises |
| LegacyCia.ChildShape | pycombina/src/CIA.cpp:226-296 | a child fails exactly when the budget scan raises; otherwise it has control `ac`, the computed switch counts, and ends one level below the parent or at the horizon |
| LegacyCia.ChildSwitchCounts | pycombina/src/CIA.cpp:252-268 | a child that switches gives each real control of the change one switch; one that keeps the parent's control keeps its counts |
| LegacyCia.ChildAccumulates | pycombina/src/CIA.cpp:244-286 | a child's deviations are those of its partial solution: the parent's plus its own block |
| LegacyCia.ChildEtaValue | pycombina/src/CIA.cpp:244-286 | a child's deviation on a control is the parent's plus the block from its first interval to its end |
| LegacyCia.ChildBound | pycombina/src/CIA.cpp:289-296 | a child's bound is at least the parent's and at least every absolute deviation of the child |
| LegacyCia.CollectMembers | pycombina/src/CIA.cpp:226-305 | the loop over the controls succeeds exactly when every pass does, and then holds the child of pass `k` at position `k` |
| LegacyCia.AdmittedMembers | pycombina/src/CIA.cpp:298-303 | exactly the children whose bound is below `eta` are queued |
| LegacyCia.BatchMember | pycombina/src/CIA.cpp:222-305 | each queued node is the child of some pass and has a bound below `eta` |
| LegacyCia.BatchSize | pycombina/src/CIA.cpp:226 | one parent queues at most one node per control plus the no-control choice |
| LegacyCia.BatchShaped | pycombina/src/CIA.cpp:222-305 | every queued child is a well-formed node with exact deviations, deeper than its parent, with a bound at least the parent's |
| LegacyCia.BatchDepths | pycombina/src/CIA.cpp:230-286 | every queued child lies below its parent and within the horizon |
| LegacyCia.CiaNodeComparison | pycombina/src/BnBNodeComparison.cpp:15-32 | on different keys `a` ranks below `b` exactly when `b` has the smaller `eta_branch`, then the greater depth; on equal keys the result is the one the iterator comparison gives, a parameter here |
| LegacyCia.OutranksStrictWeakOrder | pycombina/src/BnBNodeComparison.cpp:15-25 | on the two defined keys the order is a strict weak order whose equivalent nodes agree on both keys |
| LegacyCia.TopIndexOf | pycombina/src/CIA.cpp:326-327 | `top()` returns a node that no other node outranks |
| LegacyCia.TopIsLowestThenDeepest | pycombina/src/BnBNodeComparison.cpp:15-25 | the top has the smallest `eta_branch` of the queue and, among the nodes sharing it, the greatest depth |
| LegacyCia.BatchLighter | pycombina/src/CIA.cpp:380-383 | replacing a node by its children lowers the search's potential, so the search terminates |
| LegacyCia.ShownDeviations | pycombina/src/CIA.cpp:392-435 | the incumbent's deviations are exactly those of the control sequence that shows its blocks |
| LegacyCia.PaintStep | pycombina/src/CIA.cpp:406-427 | painting one block over a sequence that shows the later blocks shows this block and the later ones |
| LegacyCia.Cia.constructor | pycombina/src/CIA.cpp:22-50 | the solver starts with the inputs, a zero bound, a zero time grid, no budgets, an empty queue, no incumbent and a zero `b_bin` |
| LegacyCia.Cia.ComputeTimeGrid | pycombina/src/CIA.cpp:181-187 | the loop computes the interval lengths of `T` |
| LegacyCia.Cia.ComputeInitialUpperBound | pycombina/src/CIA.cpp:190-196 | the loop adds the sum of the interval lengths to `eta` |
| LegacyCia.Cia.PrepareBnbData | pycombina/src/CIA.cpp:159-178 | the time grid is computed and `eta` grows by the length of the horizon, so a second call grows it again |
| LegacyCia.Cia.StepDeviations | pycombina/src/CIA.cpp:246-250 | the loop computes the step of every control's deviation on interval `d - 1` |
| LegacyCia.Cia.TailRow | pycombina/src/CIA.cpp:276-280 | the inner loop adds the deviations of intervals `d .. N_b - 1` |
| LegacyCia.Cia.AddTail | pycombina/src/CIA.cpp:274-282 | the nested loops add the tail for every control |
| LegacyCia.Cia.ScanBudgets | pycombina/src/CIA.cpp:270-286 | the scan finds the first reached budget, or raises reading past `sigma_max` |
| LegacyCia.Cia.ComputeChild | pycombina/src/CIA.cpp:228-296 | one pass computes the child the specification function `ChildOf` defines, or its exception |
| LegacyCia.Cia.SwitchCounts | pycombina/src/CIA.cpp:252-268 | the switch counts are the parent's, each real control of a change gaining one |
| LegacyCia.Cia.SwitchPass | pycombina/src/CIA.cpp:252-288 | the repeated switch-bookkeeping pass ends as the first one does: a reached budget extends the child to the horizon with its tail, an overread raises |
| LegacyCia.Cia.AddNodesToBnbQueue | pycombina/src/CIA.cpp:222-305 | the queue gains exactly the admitted children of the parent, or the loop's exception is returned after the passes before it |
| LegacyCia.Cia.QueueChild | pycombina/src/CIA.cpp:226-304 | one pass queues its child when its bound is below `eta`, or returns its exception |
| LegacyCia.Cia.Admit | pycombina/src/CIA.cpp:298-303 | a child is appended to the queue exactly when its bound is below `eta` |
| LegacyCia.Cia.InitializeBnbQueue | pycombina/src/CIA.cpp:199-219 | the queue gains exactly the admitted children of the root |
| LegacyCia.Cia.SearchStep | pycombina/src/CIA.cpp:324-347 | a popped leaf below `eta` becomes the incumbent and bounds the rest of the queue; any other step keeps `eta` and the incumbent and lowers the potential |
| LegacyCia.Cia.PopTop | pycombina/src/CIA.cpp:326-327 | the comparator's top node leaves the queue |
| LegacyCia.Cia.RunBnb | pycombina/src/CIA.cpp:308-354 | the search ends with an empty queue and nothing changed, or with a leaf incumbent whose bound is below the old `eta` and at most every bound still queued |
| LegacyCia.Cia.PaintBlock | pycombina/src/CIA.cpp:419-424 | the loop writes the control on exactly the block's intervals |
| LegacyCia.Cia.RetrieveSolution | pycombina/src/CIA.cpp:392-435 | without an incumbent `b_bin` is unchanged; with one, it shows the incumbent's blocks and has exactly its deviations |
| LegacyCia.Cia.Run | pycombina/src/CIA.cpp:142-150 | `run_cia` stores the budgets, raises `eta` by the horizon and ends as a search from there concludes |
| LegacyCia.Cia.Search | pycombina/src/CIA.cpp:146-148 | queueing the root's children, the search and the retrieval conclude as `Concluded` states |
| SingleCia.TailTablesDiffer | pycombina/cia.cpp:76-87 | the two tail tables differ by the number of intervals they cover |
| SingleCia.Held | pycombina/cia.cpp:166-177 | corrected: the solution a node that jumped to the end stands for is its path held at its last value, which starts with the path |
| SingleCia.PaddedWithRoot | pycombina/cia.cpp:224-236 | as written: the retrieved path padded with the root's value to the full length, which starts with the path |
| SingleCia.DevSnoc | pycombina/cia.cpp:162 | fixing one more interval adds `b[d] - p` to the deviation |
| SingleCia.DevHold | pycombina/cia.cpp:166-175 | holding a value to the end adds its tail-table entry, as the jump to the end does |
| SingleCia.PaddingGap | pycombina/cia.cpp:224-236 | the root padding has the held path's deviation when the first and last values agree, and differs by the padded length otherwise |
| SingleCia.LowerPaddingGap | pycombina/cia.cpp:232-236 | padding with the smaller value overshoots the held path's deviation by the padded length |
| SingleCia.UpperPaddingGap | pycombina/cia.cpp:232-236 | padding with the greater value undershoots the held path's deviation by the padded length |
| SingleCia.HeldSwitches | pycombina/cia.cpp:166-177 | holding the last value adds no switch |
| SingleCia.RanksBelowStrictTotal | pycombina/cia.cpp:253-271 | the queue order is a strict order, total on nodes with distinct numbers: smaller priority first, then greater `d`, then smaller `k` |
| SingleCia.TopIndex | pycombina/cia.cpp:144-145 | `top()` is a queued node that no queued node outranks |
| SingleCia.TopIsGreatest | pycombina/cia.cpp:253-271 | with distinct numbers the top outranks every other queued node and has the smallest priority |
| SingleCia.Child | pycombina/cia.cpp:157-182 | a child of a node on the last interval reads past the end of `b_rel`; a child otherwise lies later than its parent, within the horizon, with a priority at least its parent's |
| SingleCia.Root | pycombina/cia.cpp:126-137 | a root fixes interval 0 and stands for the one-entry path of its value |
| SingleCia.ChildOk | pycombina/cia.cpp:157-182 | a child stands for its parent's path extended by its value, with the exact deviation, switch count and a bound at least the parent's |
| SingleCia.ChildNumbers | pycombina/cia.cpp:159-181 | a child carries the new number and its parent's number as `k_prev` |
| SingleCia.HeldSolution | pycombina/cia.cpp:166-177 | a node that jumped to the end stands for a 0/1 path whose deviation is the node's `eta` and which spends exactly `sigma_max` switches |
| SingleCia.RootsSearch | pycombina/cia.cpp:126-137 | the two roots start the search with its invariant |
| SingleCia.PopStep | pycombina/cia.cpp:144-147 | popping the top and storing it in the tree keeps the search invariant, and the top has the greatest bound of the popped nodes |
| SingleCia.FoundStep | pycombina/cia.cpp:144-153 | popping a node that reached the end concludes the search with it |
| SingleCia.ExpandLighter | pycombina/cia.cpp:155-183 | replacing a node by its two children lowers the search's potential, so the search terminates |
| SingleCia.ExpandNode | pycombina/cia.cpp:157-182 | the two pushes queue the children `Child` defines and keep the invariant, or report the read past the end |
| SingleCia.InputValidation | pycombina/cia.cpp:39-51 | the input is refused exactly when some entry lies outside `[0, 1]` |
| SingleCia.PreparationPhase | pycombina/cia.cpp:65-94 | the loop fills both tail tables, and an empty input fails at the first write |
| SingleCia.PushRoots | pycombina/cia.cpp:126-137 | the first loop queues the two roots, and an empty input fails reading `b_rel[0]` |
| SingleCia.MainPhase | pycombina/cia.cpp:97-196 | the search ends on a node that reached the end, whose bound is at most every bound still queued, or reports the read past the end; an input of one entry always fails |
| SingleCia.DeepestEntry | pycombina/cia.cpp:215-218 | `max_element` by `d` returns the first of the deepest stored nodes |
| SingleCia.WalkChain | pycombina/cia.cpp:220-230 | the walk along `k_prev` reads back the final node's path and ends at its root |
| SingleCia.PostprocessingPhase | pycombina/cia.cpp:199-243 | as written: the output is the final node's path padded with its root's value |
| SingleCia.PostprocessingHeld | pycombina/cia.cpp:199-243 | corrected: the output is the final node's path held at its value, whose deviation and switch count are the ones the search computed |
| SingleCia.RetrieveSolution | cia.cpp:141-161 | as written: the retrieval of the top-level solver also pads with the root's value |
| SingleCia.RetrieveHeld | cia.cpp:141-161 | corrected: the retrieval pads with the popped node's value, giving the solution whose deviation was reported |
| SingleCia.WalkChainCounting | cia.cpp:141-155 | the walk with its counter reads back the path and leaves `n_b` minus its length in the counter |
| SingleCia.PyCia | pycombina/cia.cpp:15-36 | the solver refuses an out-of-range input, fails on inputs of fewer than two entries, and otherwise returns the root-padded path: the held, budget-spending solution when `sigma_max` is even and one with an extra switch when it is odd |
| SingleCia.RootCia | cia.cpp:38-217 | the top-level solver leaves the buffer unchanged on a fault and otherwise writes the root-padded path, with the same parity split |
| SingleCia.ToBuffer | cia.cpp:163-170 | the loop copies the retrieved entries into `b_opt` |
| SingleCia.WriteOut | cia.cpp:173-176 | the loop writes `b_opt` into the output buffer |
| SingleCia.SwitchParity | pycombina/cia.cpp:164 | on a 0/1 path the first and last values agree exactly when the number of switches is even |
| SingleCia.RootPaddingOverspends | pycombina/cia.cpp:232-236 | when the first and last values differ, the root padding adds a switch and differs from the held path |
| SingleCia.RootPaddingHeld | pycombina/cia.cpp:232-236 | padding with the first value is holding the path extended by it |
| SingleCia.RootPaddedSolution | pycombina/cia.cpp:199-243 | for a final node the root padding is the held solution when `sigma_max` is even and spends one switch too many when it is odd |
| SingleCia.RootPaddingExample | pycombina/cia.cpp:232-236 | on `b = [0, 1, 1]` with `sigma_max = 1` the output is `[0, 1, 0]`, with two switches and deviation 1, instead of `[0, 1, 1]` |
| SingleCia.ExampleHeld | pycombina/cia.cpp:166-177 | on that input the final node stands for `[0, 1, 1]`, deviation 0 |
| SingleCia.ExamplePadded | pycombina/cia.cpp:232-236 | on that input the root padding gives `[0, 1, 0]`, with two switches and deviation 1 |
| GridCia.Unsigned | pycombina/CIA.cpp:154 | the comparison `i < N` converts the counter to a 32-bit unsigned value: below 2^32, congruent to it, and equal for a non-negative counter |
| GridCia.ValidateInputData | pycombina/CIA.cpp:17-106 | construction succeeds exactly on valid input: `|T| = |b_rel| + 1`, `T` strictly increasing, `b_rel` in `[0, 1]`; an empty `T` raises a length error first |
| GridCia.UpperBoundAsWritten | pycombina/CIA.cpp:152-159 | as written, with the counter starting at `i0`: a negative start reads outside `Tg` and raises |
| GridCia.UpperBoundAsWrittenIntended | pycombina/CIA.cpp:152-159 | the loop adds the whole horizon exactly when the counter happens to start at 0 or there are no intervals |
| GridCia.UpperBoundExample | pycombina/CIA.cpp:152-159 | on `T = [0, 1, 2]` with the counter starting at 1 the bound is 1 instead of the horizon length 2 |
| GridCia.LastTailSums | pycombina/CIA.cpp:164-165 | the tables' last entries are `b_rel[N-1] - 1` and `b_rel[N-1]` |
| GridCia.Grid.constructor | pycombina/CIA.cpp:17-39 | after validation `N` and `ub` are 0 and `Tg`, both tables and `b_bin` are zero vectors of their sizes |
| GridCia.Grid.DetermineNumberOfControlIntervals | pycombina/CIA.cpp:138-141 | `N` is the number of entries of `b_rel` |
| GridCia.Grid.ComputeTimeGrid | pycombina/CIA.cpp:144-150 | the loop computes the interval lengths of `T` |
| GridCia.Grid.ComputeInitialUpperBoundAsWritten | pycombina/CIA.cpp:152-159 | as written: `ub` grows by the lengths from the counter's start on, or the first read raises and `ub` is unchanged |
| GridCia.Grid.ComputeInitialUpperBound | pycombina/CIA.cpp:152-159 | corrected, the counter starting at 0: `ub` grows by the sum of all interval lengths |
| GridCia.Grid.ComputeIntegratedDeltas | pycombina/CIA.cpp:162-173 | with no intervals the first write raises; otherwise the loop fills both tail tables |
| GridCia.FillTailTables | pycombina/CIA.cpp:162-171 | on tables sized to the controls, the backward loop leaves in every entry the sum of the deviations of that interval and all later ones from true (first table) and from false (second table) |
| GridCia.Grid.RunCiaPreparationPhase | pycombina/CIA.cpp:116-135 | as written: `N`, the time grid, the bound from the counter's start, then the tables, each failure stopping the phase |
| GridCia.Grid.RunCiaPreparationPhaseIntended | pycombina/CIA.cpp:116-135 | corrected: the bound grows by the horizon length, and the tables are filled unless there are no intervals |
| GridCia.Grid.RunCia | pycombina/CIA.cpp:109-113 | `run_cia` runs the preparation phase alone: `sigma_max` is not read and `b_bin` keeps its zeros |
| GridCia.Create | pycombina/CIA.cpp:17-39 | construction yields the validation's error, or a fresh solver in its initial state exactly on valid input |
| GridReduction.Count | pycombina/_binary_approximation.py:406-407 | a mask keeps at most as many entries as it has |
| GridReduction.Pick | pycombina/_binary_approximation.py:406-407 | boolean indexing keeps as many entries as the mask has `True` |
| GridReduction.PickColumns | pycombina/_binary_approximation.py:407 | `b[:, m]` keeps every row and the kept columns |
| GridReduction.PickAt | pycombina/_binary_approximation.py:406-407 | a kept entry sits at its rank among the kept entries |
| GridReduction.PickMembers | pycombina/_binary_approximation.py:406-407 | a value is picked exactly when some kept entry holds it |
| GridReduction.PickAll | pycombina/_binary_approximation.py:392 | an all-`True` mask keeps everything |
| GridReduction.Latest | pycombina/_binary_approximation.py:524-528 | the forward fill copies into an entry the last kept entry at or before it |
| GridReduction.PickLatest | pycombina/_binary_approximation.py:524-528 | when every dropped entry repeats the one before it, the forward fill finds every original entry among the kept ones |
| GridReduction.Expanded | pycombina/_binary_approximation.py:518-528 | the forward fill of a reduced solution has the original shape and holds the reduced entries at the kept columns |
| GridReduction.ExpandedDropped | pycombina/_binary_approximation.py:524-528 | a dropped column of the expansion copies the column before it |
| GridReduction.ExpandedPicked | pycombina/_binary_approximation.py:518-528 | expanding the kept columns of a matrix whose dropped columns repeat their predecessors gives the matrix back |
| GridReduction.Scattered | pycombina/_binary_approximation.py:519-522 | the NaN-filled matrix holds a value exactly at the kept columns |
| GridReduction.CopyColumn | pycombina/_binary_approximation.py:528 | the copy changes only the target column, in every row |
| GridReduction.ScatteredKept | pycombina/_binary_approximation.py:519-522 | a written column already holds the expansion |
| GridReduction.FillTurn | pycombina/_binary_approximation.py:524-528 | one turn of the fill loop extends the filled prefix by a column |
| GridReduction.ForwardFill | pycombina/_binary_approximation.py:518-528 | the fill loop produces exactly the expansion of the reduced solution |
| GridReduction.Passes | pycombina/_binary_approximation.py:394 | `range(n_b - 5)` has `n_b - 5` turns, none when there are fewer than five intervals |
| GridReduction.Mask | pycombina/_binary_approximation.py:392-403 | the mask after `k` turns has one entry per interval |
| GridReduction.MaskAhead | pycombina/_binary_approximation.py:401-403 | turn `k` touches only entry `k + 2`, so later entries are still `True` |
| GridReduction.MaskSettled | pycombina/_binary_approximation.py:394-403 | entries before `k + 2` are final after turn `k` |
| GridReduction.DropRule | pycombina/_binary_approximation.py:394-403 | interval `j` is dropped exactly when the five-column window starting at `j - 2` is 0/1 and constant in every row and interval `j - 1` is kept |
| GridReduction.KeptEnds | pycombina/_binary_approximation.py:392-403 | intervals 0 and 1 and the last three are never dropped |
| GridReduction.NoAdjacentDrops | pycombina/_binary_approximation.py:401-403 | no two neighbouring intervals are dropped in one pass |
| GridReduction.KeptRepeats | pycombina/_binary_approximation.py:396-403 | a dropped column equals the column before it in every row |
| GridReduction.DropMask | pycombina/_binary_approximation.py:392-403 | the loop computes the mask `Kept` defines |
| GridReduction.ReducedGrid | pycombina/_binary_approximation.py:406 | the reduced grid has the kept interval starts and ends at the final time point |
| GridReduction.Reduce | pycombina/_binary_approximation.py:385-407 | a pass keeps the problem consistent and the final time point, never grows it, and shrinks it exactly when some interval is dropped |
| GridReduction.AllKept | pycombina/_binary_approximation.py:431 | the size comparison that stops the repetition sees no drop exactly when the mask keeps everything |
| GridReduction.Repeated | pycombina/_binary_approximation.py:419-433 | the passes stop at a consistent problem that a further pass leaves unchanged |
| GridReduction.ReduceFixed | pycombina/_binary_approximation.py:385-407 | a pass that drops nothing leaves the problem as it is |
| GridReduction.ComposeAt | pycombina/_binary_approximation.py:385-407 | an original interval survives two passes when it survived the first and its reduced position survived the second |
| GridReduction.PickCompose | pycombina/_binary_approximation.py:406-407 | picking twice is picking once with the composed mask |
| GridReduction.RepeatsCompose | pycombina/_binary_approximation.py:396-403 | after two passes every dropped original column still repeats the one before it |
| GridReduction.FaithfulStart | pycombina/_binary_approximation.py:387-390 | the unreduced problem is its own faithful reduction |
| GridReduction.FaithfulStep | pycombina/_binary_approximation.py:385-407 | a pass keeps the reduction faithful to the original, with the composed mask |
| GridReduction.InGrid | pycombina/_binary_approximation.py:521 | `np.in1d` gives one entry per original interval |
| GridReduction.InGridKept | pycombina/_binary_approximation.py:521 | on a faithful reduction `np.in1d` recovers exactly the kept intervals |
| GridReduction.FaithfulRoundTrip | pycombina/_binary_approximation.py:518-528 | nothing is lost: the forward fill of a faithful reduction on the recovered mask gives the original controls back |
| LegacyFrontEnd.Validated | pycombina/_binary_approximation.py:151-202 | the input is refused when `t` squeezes to a scalar, then when neither orientation of `b_rel` fits, then when `t` is not increasing, then when `b_rel` leaves `[0, 1]`; otherwise `b_rel` is oriented with one column per interval |
| LegacyFrontEnd.SameAcceptance | pycombina/_binary_approximation.py:151-202 | the older and the current front end accept exactly the same problems; only the order of the messages differs |
| LegacyFrontEnd.RoundEntry | pycombina/_binary_approximation.py:205-208 | rounding gives 0, 1 or the entry itself, and keeps entries between `tol` and `1 - tol` |
| LegacyFrontEnd.RoundIdempotent | pycombina/_binary_approximation.py:205-208 | rounding twice is rounding once |
| LegacyFrontEnd.RoundAgreesWithClamp | pycombina/_binary_approximation.py:205-208 | for a tolerance of at most one half the sequential rounding agrees with the threshold clamp of the current front end |
| LegacyFrontEnd.RoundInUnit | pycombina/_binary_approximation.py:205-208 | rounded entries of a relaxed control stay in `[0, 1]` |
| LegacyFrontEnd.RoundAll | pycombina/_binary_approximation.py:205-208 | every entry of `b_rel` is rounded and the shape is kept |
| LegacyFrontEnd.Below | pycombina/_binary_approximation.py:313 | the mask `t < dt_lock` is true exactly at the points before `dt_lock` |
| LegacyFrontEnd.AtLeast | pycombina/_binary_approximation.py:315-316 | the mask `t >= dt_lock` is true exactly at the points from `dt_lock` on |
| LegacyFrontEnd.ThresholdIndex | pycombina/_binary_approximation.py:313-316 | on an increasing grid the locked points form a prefix |
| LegacyFrontEnd.LockTimes | pycombina/_binary_approximation.py:313-316 | the locked points are the prefix before the first point at or after `dt_lock`, and the remaining ones the rest |
| LegacyFrontEnd.LockColumns | pycombina/_binary_approximation.py:315 | the columns that stay are those of the intervals from the cut on |
| LegacyFrontEnd.LockSplitCuts | pycombina/_binary_approximation.py:311-316 | a lock splits the grid at the cut, keeps the columns from the cut on, and what remains is again a problem |
| LegacyFrontEnd.LockInitialBinarySequence | pycombina/_binary_approximation.py:311-316 | the masks split the grid at the first point at or after `dt_lock` and keep the columns from there |
| LegacyFrontEnd.CutShape | pycombina/_binary_approximation.py:311-316 | the locked prefix followed by the rest gives `t` back |
| LegacyFrontEnd.LockCheck | pycombina/_binary_approximation.py:288-308 | the lock is accepted exactly when it has one value per control and each is 0 or 1 after `int()`, the count failing first |
| LegacyFrontEnd.RelockAccepted | pycombina/_binary_approximation.py:272-276 | as written a locked problem is locked again, and the second lock's prefix and rest rebuild only the grid the first lock left, which is shorter than `t` |
| LegacyFrontEnd.RelockRefused | pycombina/_binary_approximation.py:272-276 | corrected: a locked problem refuses a second lock, and a single lock is undone exactly by putting the locked points back in front |
| LegacyFrontEnd.FirstOne | pycombina/_binary_approximation.py:492 | `np.where(... == 1)[0][0]` is the first index holding 1, and there is none when no entry is 1 |
| LegacyFrontEnd.InitActiveAsWritten | pycombina/_binary_approximation.py:488-500 | as written: without a lock the attribute is `n_c`; with one, the index is computed and dropped, or a lock without a 1 raises |
| LegacyFrontEnd.InitActive | pycombina/_binary_approximation.py:488-500 | corrected: with a lock the attribute holds the index of the initially active control |
| LegacyFrontEnd.InitActiveUnset | pycombina/_binary_approximation.py:488-500 | locking `[0, 1]` leaves the attribute unset as written, where control 1 was meant |
| LegacyFrontEnd.Without | pycombina/_binary_approximation.py:370 | the listed indices are the increasing control indices outside the inactive ones |
| LegacyFrontEnd.ZeroRows | pycombina/_binary_approximation.py:362-368 | the loop lists the all-zero rows in increasing order |
| LegacyFrontEnd.SplitRows | pycombina/_binary_approximation.py:360-372 | the removal lists the all-zero rows and the others, and keeps only the others |
| LegacyFrontEnd.WithoutInactive | pycombina/_binary_approximation.py:370 | the indices outside the inactive ones are exactly the active ones |
| LegacyFrontEnd.NoZeroRows | pycombina/_binary_approximation.py:360-372 | without an all-zero row nothing is removed |
| LegacyFrontEnd.ReducedRowsNonZero | pycombina/_binary_approximation.py:385-407 | a faithful reduction keeps every row that is not all zero |
| LegacyFrontEnd.Prefixed | pycombina/_binary_approximation.py:541-542 | every row of the retrieved solution is its lock value repeated over the locked intervals, followed by the solution |
| LegacyFrontEnd.Restored | pycombina/_binary_approximation.py:540 | putting the locked points back never shortens the grid |
| LegacyFrontEnd.SortedIncreasing | pycombina/_binary_approximation.py:175 | increasing on neighbours is the same as the strict-increase test |
| LegacyFrontEnd.LockStep | pycombina/_binary_approximation.py:311-354 | a lock keeps an unreduced problem unreduced, and a relock loses the points of the previous one |
| LegacyFrontEnd.Unlocked | pycombina/_binary_approximation.py:508-536 | the forward fill onto `t_orig` and the zero rows for the inactive controls give one row per original control and one column per original interval |
| LegacyFrontEnd.Retrieve | pycombina/_binary_approximation.py:508-542 | the retrieval succeeds, or reading a missing attribute raises, or a lock whose length is not the number of rows makes `np.concatenate` fail |
| LegacyFrontEnd.UnlockedParts | pycombina/_binary_approximation.py:508-536 | the first steps of the retrieval compute what `Unlocked` defines |
| LegacyFrontEnd.RetrieveParts | pycombina/_binary_approximation.py:508-542 | the retrieval on the stored attributes computes what `Retrieve` defines |
| LegacyFrontEnd.RetrieveOutcome | pycombina/_binary_approximation.py:508-542 | a successful retrieval has one row per control of the problem before removal and one column per interval of the grid before the lock |
| LegacyFrontEnd.RetrieveLocked | pycombina/_binary_approximation.py:538-542 | over the locked points every control keeps its `b_bin_lock` value, and after them comes the retrieved solution |
| LegacyFrontEnd.RetrieveRelaxed | pycombina/_binary_approximation.py:508-536 | retrieving the reduced `b_rel` itself gives back `t_orig`, the unreduced `b_rel` at the active rows and zero rows for the inactive controls |
| LegacyFrontEnd.InflatedZeroRows | pycombina/_binary_approximation.py:532-535 | the rows of the inactive controls are all zero |
| LegacyFrontEnd.RepeatedStep | pycombina/_binary_approximation.py:426-431 | a pass that drops an interval leaves the fixed point where it was; one that drops none has reached it |
| LegacyFrontEnd.FaithfulKeepsFirst | pycombina/_binary_approximation.py:385-407 | a faithful reduction of several intervals keeps the first one, so it never reaches a single time point |
| LegacyFrontEnd.ReducePass | pycombina/_binary_approximation.py:385-407 | one pass computes `Reduce` and the reduction stays faithful to the recorded original |
| LegacyFrontEnd.LockKeepsState | pycombina/_binary_approximation.py:311-354 | a lock keeps the problem's invariant, cutting the grid and the controls at `dt_lock` |
| LegacyFrontEnd.ReducedNoInactive | pycombina/_binary_approximation.py:360-372 | a reduced problem has no all-zero row left, so a second removal finds every control active |
| LegacyFrontEnd.ReducedFillable | pycombina/_binary_approximation.py:518-528 | a reduced problem can be retrieved: the kept intervals are found again in `t_orig` and the forward fill accepts them |
| LegacyFrontEnd.ReduceKeepsState | pycombina/_binary_approximation.py:436-465 | a reduction keeps the invariant: the first records the problem without its inactive controls, a later one finds it recorded |
| LegacyFrontEnd.BaseProblem.constructor | pycombina/_binary_approximation.py:226-259 | the new problem holds the validated grid and the rounded `b_rel`, with nothing locked, reduced or solved |
| LegacyFrontEnd.BaseProblem.Lock | pycombina/_binary_approximation.py:321-357 | as written a lock is refused only after a reduction; `_dt_lock` is stored even when the lock values are refused; a lock cuts the grid and the controls at `dt_lock` and stores the truncated values |
| LegacyFrontEnd.BaseProblem.CheckInitActiveControl | pycombina/_binary_approximation.py:488-500 | the method stores what `InitActiveAsWritten` gives, or raises |
| LegacyFrontEnd.BaseProblem.RemoveInactiveControls | pycombina/_binary_approximation.py:375-382 | the all-zero rows are recorded as inactive, the others as active, and only the active rows stay |
| LegacyFrontEnd.BaseProblem.ReduceNodes | pycombina/_binary_approximation.py:385-407 | the first pass records the original grid and controls; an empty grid makes numpy refuse the mask |
| LegacyFrontEnd.BaseProblem.RecordOriginal | pycombina/_binary_approximation.py:387-390 | the grid and controls are recorded only when nothing was recorded before; a problem already reduced keeps its record, and the record is faithful to a non-empty grid |
| LegacyFrontEnd.BaseProblem.ReduceNodeCount | pycombina/_binary_approximation.py:419-433 | the passes repeat until none drops an interval, recording the original once; only the first pass can fail |
| LegacyFrontEnd.BaseProblem.ReduceFurther | pycombina/_binary_approximation.py:426-433 | the loop after the first pass ends at the fixed point `Repeated` defines |
| LegacyFrontEnd.BaseProblem.ReduceProblemSize | pycombina/_binary_approximation.py:436-465 | the inactive controls are removed, then the grid shrinks to the fixed point; an empty grid raises, a single point divides by zero, and a second call records no inactive control |
| LegacyFrontEnd.BaseProblem.RemoveAndReduce | pycombina/_binary_approximation.py:460-461 | the two steps of the reduction, with their errors |
| LegacyFrontEnd.BaseProblem.Reducible | pycombina/_binary_approximation.py:436-465 | a valid problem has the shape the reduction needs, and a reduced one has no all-zero row left |
| LegacyFrontEnd.BaseProblem.RemoveForReduction | pycombina/_binary_approximation.py:460 | the first step of the reduction lists and removes the inactive controls |
| LegacyFrontEnd.BaseProblem.RetrieveSolution | pycombina/_binary_approximation.py:508-542 | `eta` is the solver's and `b_bin` is what `Retrieve` computes from the stored attributes |
| LegacyFrontEnd.NewBaseProblem | pycombina/_binary_approximation.py:226-259 | construction fails exactly when validation does; otherwise the problem holds `t`, the rounded `b_rel` and the counts of rows and intervals |
| CombinaFrontEnd.SwitchLimits | pycombina/_combina.py:384-385 | `list` of a number or of `None` raises `TypeError`; otherwise there is one limit per entry |
| CombinaFrontEnd.Falsy | pycombina/_combina.py:396 | the truth test of `min_up_time` raises exactly for an array of several entries |
| CombinaFrontEnd.MaxSwitchesAccepted | pycombina/_combina.py:378-391 | `max_switches` passes exactly when it is a list or an array with one entry per control, and each stored limit is its entry truncated toward zero |
| CombinaFrontEnd.MinUpTimeAccepted | pycombina/_combina.py:394-412 | a falsy `min_up_time` stands for zeros; otherwise a list or an array passes exactly with one entry per control; a non-zero number raises `TypeError` and an array of several entries has no truth value |
| CombinaFrontEnd.ZeroArrayDefaults | pycombina/_combina.py:396-412 | the array `[0.0]` is falsy and passes for any number of controls, while the list `[0.0]` passes only for one |
| CombinaFrontEnd.SolverCheck | pycombina/_combina.py:415-425 | a solver name is accepted exactly when it names an available solver |
| CombinaFrontEnd.SolveOutcomeOrder | pycombina/_combina.py:451-487 | `solve` succeeds exactly when the three checks pass, and a bad `max_switches` is reported whatever else is wrong |
| CombinaFrontEnd.ReductionLoop | pycombina/_combina.py:334-355 | one pass without `max_reduction`, passes until none drops an interval with it; the reduction stays faithful to the recorded original |
| CombinaFrontEnd.FurtherPasses | pycombina/_combina.py:343-352 | the repeated passes reach the fixed point of the first pass's result |
| CombinaFrontEnd.Combina.constructor | pycombina/_combina.py:265-297 | the new object holds the validated grid, the rounded controls, their counts and the available solvers, with nothing reduced or solved |
| CombinaFrontEnd.Combina.TimePoints | pycombina/_combina.py:27-38 | the `t` property always gives the validated time points, reduced or not |
| CombinaFrontEnd.Combina.RecordOriginal | pycombina/_combina.py:302-306 | the first reduction records the problem as `_t_orig` and `_b_rel_orig`; a later one keeps the record |
| CombinaFrontEnd.Combina.ReduceElementCount | pycombina/_combina.py:300-322 | one pass computes `Reduce` on the current grid and stays faithful to the recorded problem |
| CombinaFrontEnd.Combina.ReduceProblemSize | pycombina/_combina.py:334-355 | the reduction records the original once and ends at one pass, or at the fixed point with `max_reduction` |
| CombinaFrontEnd.Combina.ReduceRecorded | pycombina/_combina.py:340-355 | the loop with the counts and `dt` brought up to date keeps the object valid |
| CombinaFrontEnd.Combina.ReducedValid | pycombina/_combina.py:340-355 | a faithful reduction of the validated grid with its counts and `dt` updated is a valid state |
| CombinaFrontEnd.Combina.RetrieveSolution | pycombina/_combina.py:428-448 | `eta` is the solver's; an unreduced `b_bin` is stored as given, a reduced one is forward-filled onto the recovered mask, and retrieving the reduced relaxation gives the recorded one back |
| CombinaFrontEnd.Combina.Solve | pycombina/_combina.py:451-487 | `solve` ends as `SolveOutcome` says, keeps the limits it checked, and on success stores the solver's `eta` and the `b_bin` of `_retrieve_solution`: the solver's own on an unreduced problem, otherwise the solver's scattered onto the original grid, which gives back the recorded relaxation when the solver returns the reduced one |
| CombinaFrontEnd.NewCombina | pycombina/_combina.py:265-297 | construction fails without solvers, then exactly when validation fails, and otherwise holds the rounded, validated problem |
| CombinaFrontEnd.ReduceThenRepeat | pycombina/_combina.py:343-352 | one pass followed by the repetition ends where the repetition alone ends |
| LogProc.SkipSpaces | benchmark/util/logproc.py:25 | the first index at or after `i` that is not white space, with only white space before it |
| LogProc.FindFirst | benchmark/util/logproc.py:44 | the first index at or after `i` holding one of two characters, with neither before it |
| LogProc.TrimRight | benchmark/util/logproc.py:43 | the text without its trailing white space, ending in a character that is not white space |
| LogProc.Strip | benchmark/util/logproc.py:43 | `strip` leaves no white space at either end |
| LogProc.StripPadded | benchmark/util/logproc.py:43 | `strip` removes white-space padding and nothing of a word that neither starts nor ends with white space |
| LogProc.Split | benchmark/util/logproc.py:44 | `split` gives at least one piece, none holding the separator |
| LogProc.JoinSplit | benchmark/util/logproc.py:44 | joining the pieces of a split gives the text back |
| LogProc.SplitJoin | benchmark/util/logproc.py:44 | splitting a join of pieces free of the separator gives the pieces back |
| LogProc.DigitsAppend | benchmark/util/logproc.py:45 | appending digits shifts the value of the prefix |
| LogProc.LeadingZeros | benchmark/util/logproc.py:45 | leading zeros do not change the value `int` reads |
| LogProc.ParseInt | benchmark/util/logproc.py:45 | `int` of a field either gives a number or raises `ValueError` |
| LogProc.ParseFloat | benchmark/util/logproc.py:45 | `float` of a field either gives a number or raises `ValueError` |
| LogProc.MatchEndMeaning | benchmark/util/logproc.py:25 | the match is found exactly when the line starts with white space, `U` and more white space, and ends after that white space |
| LogProc.ParseRow | benchmark/util/logproc.py:41-45 | a line yields values, or raises, only when it matches the update pattern |
| LogProc.Scan | benchmark/util/logproc.py:34-45 | the loop yields no more rows than it reads lines, and a conversion error stops it with fewer lines left unread |
| LogProc.LineReader.ReadLine | benchmark/util/logproc.py:36 | `readline` gives the next line, and the empty string once every line is read |
| LogProc.UbSeqFrom | benchmark/util/logproc.py:34-45 | the loop over a reader yields what `Scan` defines on its lines, leaving the unread lines behind |
| LogProc.LoopBody | benchmark/util/logproc.py:36-45 | an empty read stops the loop with what it yielded; otherwise the line is passed over, stops the loop with its conversion error, or yields its values, each as Scan says |
| LogProc.ScanStep | benchmark/util/logproc.py:34-45 | one line is passed over, raises, or yields its values ahead of the rest |
| LogProc.SplitLines | benchmark/util/logproc.py:30 | the lines `io.StringIO` returns are never empty |
| LogProc.ConcatSplitLines | benchmark/util/logproc.py:30 | reading a string line by line loses nothing |
| LogProc.UbSeq | benchmark/util/logproc.py:27-45 | an object without `readline` raises `TypeError` before any line is read; a string or a stream yields what `Scan` defines on its lines |
| LogProc.SciBack | src/combina_bnb_solver/CombinaBnBSolver.cpp:402-436 | `float` of a double the solver prints in scientific notation, with white space around it, is the value the text shows |
| LogProc.NatBack | src/combina_bnb_solver/CombinaBnBSolver.cpp:402-436 | `int` of a printed count with white space after it is the count |
| LogProc.FieldsBack | src/combina_bnb_solver/CombinaBnBSolver.cpp:402-436 | the fields of a printed update row read back as the values it shows |
| LogProc.RowBack | src/combina_bnb_solver/CombinaBnBSolver.cpp:402-436 | a printed update row yields the values it shows, and any other printed row is passed over |
| LogProc.HeaderSkipped | src/combina_bnb_solver/CombinaBnBSolver.cpp:402-436 | neither header line of the solver's table is an update line |
| LogProc.ScanLog | benchmark/util/logproc.py:34-45 | the loop over the lines of a solver log yields the values of its update rows, in order, raises nothing and reads every line |
| LogProc.ReadBack | benchmark/util/logproc.py:27-45 | `ub_seq` of the text the solver prints yields exactly the values of its update rows, in order, and raises nothing |
| LogProc.NatText | src/combina_bnb_solver/CombinaBnBSolver.cpp:402-436 | the text `std::to_string` gives a count is its decimal digits, with no leading zero |
| LogProc.ZeroPadded | src/combina_bnb_solver/CombinaBnBSolver.cpp:402-436 | a number below `10^w` written in exactly `w` digits keeps its value |
| LogProc.SciText | src/combina_bnb_solver/CombinaBnBSolver.cpp:402-436 | a double in scientific notation starts with no white space and ends with a digit |
| LogProc.Pad10 | src/combina_bnb_solver/CombinaBnBSolver.cpp:402-436 | a field padded on the left to ten columns is ten characters long |
| LogProc.ExponentBack | src/combina_bnb_solver/CombinaBnBSolver.cpp:402-436 | the printed exponent reads back as the exponent |
| LogProc.MantissaBack | src/combina_bnb_solver/CombinaBnBSolver.cpp:402-436 | the printed mantissa reads back as its seven digits, six after the point |
| LogProc.RowShape | src/combina_bnb_solver/CombinaBnBSolver.cpp:402-436 | a printed row is its marker, the indent and its four fields joined by vertical bars |
| LogProc.FieldsRow | benchmark/util/logproc.py:41-45 | a line with the update marker, white space and fields joined by vertical bars yields what those fields convert to; any other marker is passed over |
| LogProc.ScanSkip | benchmark/util/logproc.py:41-42 | a line that is not an update line is passed over |
| LogProc.ScanYield | benchmark/util/logproc.py:41-45 | an update line yields its values ahead of what the rest yields |
| LogProc.ScanEntry | benchmark/util/logproc.py:34-45 | the lines of one printed entry yield its values, if it is an update, and the loop goes on |
| LogProc.SplitConcat | benchmark/util/logproc.py:30-36 | reading back a text made of whole lines gives those lines |

## Left out

- Clocks, real time and interrupts. Elapsed time, `Clock::now()` and the interrupt flag are parameters of the operations that read them.
- Printing, warnings and file output. This covers `print`, `py::print`, `warnings.warn` and the VBC file sink. The VBC sink is kept as the sequence of records written; its clock strings and compression filters are not modelled.
- Floating point. Doubles are `real`, with no rounding. `np.finfo(...).eps` in the SOS1 warning tolerance is therefore absent.
- The rounding of a double to the seven digits that `std::scientific` prints. A printed double is given by its digits and exponent. Infinite and NaN values in a printed row are not modelled.
- Integer widths. `short unsigned` counters in pycombina/cia.cpp and `unsigned int` counters elsewhere are unbounded `nat`. Widths are written out only where the code depends on them: the `size_t` comparison in pycombina/CIA.cpp.
- Memory management. `new`, `delete`, `delete this` and shared pointers become node values, or node ids in an arena map, where deletion removes the id.
- numpy aliasing. The threshold clamping of src/pycombina/_binary_approximation.py writes into the array the caller passed. The model returns the clamped values, and the caller's copy is not modelled.
- `np.inf` maximum up times are the `Infinite` bound of module BinaryApproximation. Arithmetic on them is not modelled beyond comparison.
- NaN entries of the reduced solution grid are `None` in module GridReduction.
- Foreign solvers. The solver objects that pycombina/_combina.py imports are out of scope. The names whose imports succeed, and the `eta` and `b_bin` a solver returns, are parameters. `solver.run` itself is not modelled.
- The solver accessors `get_eta`, `get_num_sol` and `get_dt` that the queues call are not in CombinaBnBSolver.cpp. Their results are parameters of the queue operations.
- The `up_time` and `total_up_time` members of `Node` (src/combina_bnb_solver/Node.cpp:40-41 and 54-55) are not modelled. No ordering or search step of the engine reads them.
- `b_valid` and `min_down_time` are stored by the engine (src/combina_bnb_solver/CombinaBnBSolver.cpp:57-58) but never read. The model stores them too and never reads them. Down time is enforced only from `min_down_time_pre`.
- pycombina/_combina_sur.py imports `BinApprox` and `BinApproxPreprocessed` from a sibling module that defines neither. The model reads those names as the classes of src/pycombina/_binary_approximation.py, where `BinApprox` begins at line 298 and `BinApproxPreprocessed` at line 827.
- pycombina/_combina_rounding.py `solve` and `_set_solution` are the same steps as pycombina/_combina_sur.py `_set_solution`, which module CombinaSurFrontEnd models. Module CombinaRounding models only the rounding loop `_run_sur`.
- src/pycombina/_binary_approximation.py `_add_inactive_time_points` is a placeholder that does nothing and is not modelled. `_check_sos1_constraint_fulfilled` and the spread test of `_compute_dwell_time_tolerance` only warn, so only the tolerance itself is modelled.
- The `_numpy_arrays_to_lists` and `_lists_to_numpy_arrays` conversions of the older front ends are not modelled. Both representations are sequences here.
- Python's full `int` and `float` grammars are not modelled. `ParseInt` and `ParseFloat` accept decimal digits with an optional sign, and `float` also accepts a fraction and an exponent. Underscores, `inf`, `nan` and hexadecimal forms are errors in the model.
- Generator laziness. `ub_seq` is a method that returns every value the generator yields, and the error that ends it. A consumer that stops early is not modelled.
- The `__main__` block of benchmark/util/logproc.py is file I/O and is not modelled.
- `max_switches` arguments nested deeper than one level, which numpy squeezes, are not modelled. Arguments are numbers, `None`, lists or one-dimensional arrays of numbers.
- The closing summary lines of `run_bnb` are absent from the log whose read-back module LogProc proves. So are counts of more than ten digits. For those, the count `10 - length` that `insert` receives wraps around in `size_t`, and the call throws `std::length_error`.
- LegacyCia.CiaNodeComparison: the third key of the comparator of pycombina/src/BnBNodeComparison.cpp is undefined. It is a free parameter `tie`. Among equally ranked entries, the top of the queue is taken to be the first entry, where `std::priority_queue` leaves the choice open.
- LegacyFrontEnd.BaseProblem.constructor: the rounding to tolerance at pycombina/_binary_approximation.py:205-208 writes into the caller's `b_rel` when that is already a two-dimensional float array. `np.atleast_2d` and `.T` at lines 159-168 return views, not copies. The model works on values, so the caller's array stays as it was passed.
- LegacyFrontEnd.NewBaseProblem: the same in-place rounding of the caller's `b_rel` is not modelled, for the same reason.
- CombinaFrontEnd.Combina.constructor: the rounding at pycombina/_combina.py:244-247 writes into the caller's `b_rel` through the views of lines 199-206. The model works on values, so the caller's array stays as it was passed.
- CombinaFrontEnd.NewCombina: the same in-place rounding of the caller's `b_rel` is not modelled, for the same reason.
- BestFirstQueue.BestFirstNodeQueue.Top: among nodes that tie under the comparator, `std::priority_queue` (src/combina_bnb_solver/BestFirstNodeQueue.hpp:52) may return any of them. The model returns `queue[TopIndex(queue)]`, the first minimal node, which is one of the orders the library permits.
- BestFirstQueue.BestFirstNodeQueue.Pop: removes the node `Top` returns, so the same choice among ties applies.
- DynamicBacktrackingQueue.DynamicBacktrackingNodeQueue.Top: among tied nodes of the `std::priority_queue` (src/combina_bnb_solver/DynamicBacktrackingNodeQueue.hpp:63), the model returns the first minimal one, which is one of the orders the library permits.
- DynamicBacktrackingQueue.DynamicBacktrackingNodeQueue.Pop: removes the node `Top` returns, so the same choice among ties applies.
- Nodes.SortWorstFirst: a stable insertion sort. `std::sort` is not stable, so among children that tie it may produce a different order. The stable order is one of the orders `std::sort` permits.
- DepthFirstQueue.DepthFirstNodeQueue.Push: pushes the children in the order `SortWorstFirst` gives. Among tied children this is one of the orders `std::sort` (src/combina_bnb_solver/DepthFirstNodeQueue.cpp:54) permits.
- DynamicBacktrackingQueue.DynamicBacktrackingNodeQueue.Push: orders the children by `SortWorstFirst`. Among tied children this is one of the orders `std::sort` (src/combina_bnb_solver/DynamicBacktrackingNodeQueue.cpp:74) permits.
- BestThenDiveQueue.PopHeap: follows the libstdc++ `pop_heap` layout, where the C++ standard only requires that the result be a heap. Another library may leave the remaining nodes in a different heap order and so pop ties in a different order.
- BnBSolver.CombinaBnBSolver.RetrieveSolution: the reported `ub_bnb` equals the max-norm deviation of the painted `b_bin` only on inputs in range (`dt >= 0`, `b_rel` in `[0, 1]`) and when every control may switch at least once. Without the first condition the bound is not monotone over a block. Without the second the code under-reports (see Findings), so only the upper bound is stated there.
- BnBSolver.CombinaBnBSolver.Run: the same two conditions on the equality of `ub_bnb` and the deviation of `b_bin`, for the same reasons.
- QueueRegistry.NodeQueueRegistry.RegisterType: requires a non-empty name. The empty name, which the source would accept as an ordinary key, is not modelled.

## Findings

| source | as written | input that shows it | evidently intended | confidence | as-written member | corrected member |
|---|---|---|---|---|---|---|
| pycombina/cia.cpp:232-236 | a node that jumped to the end is padded with the `p` of the root the chain walk stops at | `b = [0, 1, 1]`, `sigma_max = 1`: the node for `[0, 1]` reports deviation 0, but the output is `[0, 1, 0]`, with two switches and deviation 1 | hold the node's own last value to the end, giving `[0, 1, 1]` | not executed | SingleCia.RootPaddingExample | SingleCia.HeldSolution |
| cia.cpp:157-161 | the same padding with the root's value in the top-level solver | the same input as the row above | the same hold of the last value | not executed | SingleCia.RetrieveSolution | SingleCia.RetrieveHeld |
| pycombina/CIA.cpp:154 | the loop counter of `compute_initial_upper_bound` is never initialised, so the sum starts at whatever index it holds | `T = [0, 1, 2]` with the counter starting at 1: `ub` is 1 instead of the horizon length 2 | sum every interval length, starting at 0 | not executed | GridCia.UpperBoundExample | GridCia.Grid.RunCiaPreparationPhaseIntended |
| src/combina_bnb_solver/CombinaBnBSolver.cpp:209-222 | a switch that spends a budget reads `sum_eta` at the child's depth, which can be `n_t`, one past the end of a table row | two controls with one switch each, one interval, control 0 active before the horizon: the child for control 1 reads `sum_eta[..][..][1]` | no tail term once the block reaches the horizon | not executed | ChildNodes.SumEtaOverreadReachable | ChildNodes.ChildNodePropertiesInRange |
| src/combina_bnb_solver/queues/BestThenDiveNodeQueue.cpp:72-85 | `pop` drops the last limbo entry and then, independently, clears `curtop` or pops the store | a queue with one limbo node and a `curtop`: one `pop` removes both | remove only the node `top()` returns | not executed | BestThenDiveQueue.BestThenDiveNodeQueue.Pop | BestThenDiveQueue.PopOnceRemovesTop |
| src/combina_bnb_solver/queues/BestThenDiveNodeQueue.cpp:139-143 | the sift loop of `push` stops before the last stored entry | pushing two nodes onto a queue holding only `curtop`: the store ends as `[curtop, n2]`, with `n2` the earlier root but not in front | sift every stored entry, the last one included | not executed | BestThenDiveQueue.PushLeavesLastUnsifted | BestThenDiveQueue.SiftingLastCompletesHeap |
| src/combina_bnb_solver/NodeQueue.cpp:81 | `emplace` keeps the factory already registered under a name | re-registering `dfs` with the best-first factory keeps depth-first search | the documented overwrite | not executed | QueueRegistry.EmplaceIgnoresReRegistration | QueueRegistry.Overwrite |
| src/pycombina/_binary_approximation.py:792 | `set_valid_control_transitions(b_i, ...)` writes column `b_i` of `b_adjacencies`; read as the MILP formulation reads the matrix, that sets the transitions into `b_i` | `set_valid_control_transitions(1, [0, 1, 1])` on three controls: under that reading 0 -> 1 becomes forbidden and 1 -> 0 stays allowed | the transitions from `b_i`, as the docstring says | not executed; low, since the docstring of `b_adjacencies` (lines 86-105) reads the matrix the other way, under which the write is right | BinaryApproximation.ReadingsDisagree | BinaryApproximation.WriteColumnTransitions |
| pycombina/_binary_approximation.py:272-276 | the test for an earlier lock looks at the attributes of a reduced problem, so a locked problem is locked again | `t = [0, 1, 2, 3]`, lock at 1, then at 2: the second lock is accepted, and the retrieval rebuilds `[1, 2, 3]` without the point 0 | a second lock raises | not executed | LegacyFrontEnd.RelockAccepted | LegacyFrontEnd.RelockRefused |
| pycombina/_binary_approximation.py:488-500 | with a locked sequence the index of the initially active control is never stored | locking the sequence `[0, 1]` on two controls leaves the attribute unset | store the index of the first 1 | not executed | LegacyFrontEnd.InitActiveUnset | LegacyFrontEnd.InitActive |
| src/combina_bnb_solver/CombinaBnBSolver.cpp:190-197 | `eta` of a control is updated only while its switch count is below its budget, so a control with a budget of 0 is never counted, and its deviation never enters the bound | `n_c = 2`, `n_t = 1`, `dt = [1]`, `b_rel = [[1], [1]]`, `n_max_switches = [1, 0]`, `b_active_pre = 0`: the only leaf activates control 0 with bound 0, but its `b_bin = [[1], [0]]` deviates by 1 in control 1 | count the whole-horizon deviation of a control that may never switch from the start, so the bound of every leaf is its max-norm deviation | not executed | BnBSolver.UnswitchableControlUnderReported | BnBSolver.IntendedLeafBound |
