# A model of the classical planner's search core

The classical planner in this repository solves grounded emergency-services
logistics problems. Agents move, with or without a carrier. They fill boxes,
load them on carriers, deliver their contents to people and unload empty
boxes. The planner is a best-first search (`My_ASTAR`) guided by a
domain-specific heuristic (`MyHeuristic`). That heuristic is the SUM
heuristic over a delete-relaxed planning graph, plus three feasibility
gates. Two of them read per-node aggregates kept by `Node`. The third,
`tooMuchMoves`, walks the chain of parent nodes and compares each agent's
latest action with the node's own.

This Dafny project models that core as immutable datatypes and pure functions.
The search (`Search.Search`), its loop and the steps of one pass of the loop
(polling, pruning, expanding) are methods; everything else is functions and
lemmas.

| file | module | what it models |
|---|---|---|
| `results.dfy` | `Results` | `Option` (a Java reference that may be null) and `Result` (a runtime exception) |
| `planning.dfy` | `Planning` | facts, literals, states as `set<nat>`, ground actions with conditional effects, the successor state |
| `schemas.dfy` | `Schemas` | the five action schemas, case-insensitive name recognition, parameter roles, counter columns |
| `ordered_sets.dfy` | `OrderedSets` | `TreeSet<Integer>` as a strictly increasing `seq<int>` |
| `classifier.dfy` | `Classifier` | the role classifier of the heuristic's constructor and its `getNum*` / `get*AtIndex` lookups |
| `search_node.dfy` | `SearchNode` | `Node`: constructor updates of the agent counters, carrier loads and box map, and the aggregate getters |
| `relaxed_graph.dfy` | `RelaxedGraph` | the (action, conditional effect) pair table, `expandRelaxedPlanningGraph`, `isGoalReachable`, `getSumValue` |
| `heuristic.dfy` | `Heuristic` | the heuristic's construction, `estimate` with its gates, `tooMuchMoves` |
| `search_path.dfy` | `SearchPath` | the root node, nodes reachable from it, `extractPlan`, and what the aggregates count along a plan |
| `search.dfy` | `Search` | `My_ASTAR`: the frontier key, `poll`, pruning, successor generation and admission, the loop |

Two nodes are equal when their states are equal, so the explored set is a
`set<State>`. A missing role in the classifier's map is a null dereference
in the code, and the model returns `Err(NullRole(role))` for it. The
model follows the code here, because `getNum<Role>` calls `size()` on the
result of `mapping.get`.

## Model

| member | source | states |
|---|---|---|
| Schemas.KindOf | classical_planning/src/Node.java:130-143 | a name denotes a schema exactly when its lower-cased spelling is that schema's name; any other name denotes none |
| Schemas.ActionIndex | classical_planning/src/Node.java:130-144 | the counter column is -1 exactly for unrecognised names; otherwise it is the schema's own column, between 1 and 5 |
| Schemas.AgentAndCarrierPositions | classical_planning/src/MyHeuristic.java:100-215 | every schema holds its agent in parameter 0; every schema except move_agent holds its carrier in parameter 1 |
| OrderedSets.Insert | classical_planning/src/MyHeuristic.java:102-105 | adding to a role set keeps it strictly ascending; it gains exactly the new id and grows only if the id was absent |
| OrderedSets.Rank | classical_planning/src/MyHeuristic.java:329-332 | position i of the ascending array holds the id that has exactly i smaller ids in the set |
| Classifier.RegisterLemma | classical_planning/src/MyHeuristic.java:100-215 | one action adds to each role exactly the ids at that role's positions in its schema; it creates a role only when it adds an id to it |
| Classifier.ClassifyContents | classical_planning/src/MyHeuristic.java:94-217 | each role's set is exactly the distinct ids found at that role's positions in recognised actions; other names add nothing; a role exists iff it has such an id |
| Classifier.ClassifyRolesNonEmpty | classical_planning/src/MyHeuristic.java:102-105 | every role present in the mapping holds at least one id |
| Classifier.NumOf | classical_planning/src/MyHeuristic.java:325-381 | for a present role, the count is the number of distinct ids; for an absent role, the call faults with a null dereference |
| Classifier.AtIndex | classical_planning/src/MyHeuristic.java:329-386 | for ordinal i, the result is the role's i-th smallest id; a present role with an ordinal in 0 .. size-1 always succeeds; an absent role faults as null; an ordinal outside the set faults as an array index error |
| Planning.Apply | classical_planning/src/MyAlgorithm.java:241 | after one effect, a fact holds iff the effect adds it, or it held before and the effect does not delete it |
| Planning.ApplyTriggeredFact | classical_planning/src/MyAlgorithm.java:238-243 | after the triggered effects, a fact holds iff the last effect touching it adds it, or no effect touches it and it held before; conditions are read on the parent state |
| Planning.SuccessorFact | classical_planning/src/MyAlgorithm.java:235-243 | a child state keeps a parent fact unless a triggered effect deletes it last; it gains a fact only if a triggered effect adds it last |
| SearchNode.AddToRows | classical_planning/src/Node.java:69-71 | exactly the cells in the given column of rows with the given id change, each by delta; all other cells and the shape are unchanged |
| SearchNode.UpdateBoxes | classical_planning/src/Node.java:102-123 | fill maps box to content and keeps other boxes; deliver forgets the box only while it still maps to the delivered content; every other action leaves the map unchanged |
| SearchNode.MakeNode | classical_planning/src/Node.java:50-59 | the constructor stores state, parent, cost, action and depth; with no action it also stores the three aggregates unchanged |
| SearchNode.Child | classical_planning/src/MyAlgorithm.java:235-248 | a child links to its parent and records the action; cost and depth are one more; its state is the parent state with the triggered effects applied |
| SearchNode.ChildMatrices | classical_planning/src/Node.java:63-99 | cell by cell, a child's agent matrix is the parent's with one more action of the acting kind in the acting agent's row, its carrier matrix is the parent's with the kind's load change (+1 fill, -1 empty unload) in the acting carrier's row, and every other cell and the shapes are unchanged; its box map is the parent's updated by the action |
| SearchNode.ColumnSumAddToRows | classical_planning/src/Node.java:181-186 | adding delta to one column of the rows with an id changes that column's sum by delta per such row, and no other column's sum |
| SearchNode.CounterSums | classical_planning/src/Node.java:192-217 | one more action of kind k by an agent raises only k's getter total, by the number of rows carrying that agent's id |
| SearchNode.ChildAggregates | classical_planning/src/Node.java:63-99 | a child's move, fill and deliver totals and its loaded-box total differ from the parent's only in the action's kind, by its agent's and carrier's row counts |
| RelaxedGraph.PairsContents | classical_planning/src/MyHeuristic.java:265-313 | the pair table holds each (precondition ∪ effect condition, effect) pair of every action, and nothing else |
| RelaxedGraph.InitInv | classical_planning/src/MyHeuristic.java:428-446 | layer 0 gives level 0 to exactly the literals that hold in the state, the goal counter counts the goal literals with a level, and the layer invariant holds |
| RelaxedGraph.EnabledIff | classical_planning/src/MyHeuristic.java:456-490 | a pair fires in the layer that processes the last of its precondition literals; a pair without precondition literals fires in every non-empty layer |
| RelaxedGraph.EnabledReaches | classical_planning/src/MyHeuristic.java:496-520 | every effect literal of a fired pair has a level after the next layer |
| RelaxedGraph.StepLevels | classical_planning/src/MyHeuristic.java:517-538 | a new layer holds only literals never processed before; they get the next level, assigned levels stay, and level 0 still marks exactly the literals holding in the state |
| RelaxedGraph.StepInv | classical_planning/src/MyHeuristic.java:454-538 | one layer keeps the invariant, never reassigns a level, and strictly shrinks the set of literals still unprocessed |
| RelaxedGraph.ExpandGraph | classical_planning/src/MyHeuristic.java:452-539 | the expansion ends with the goal counter at the goal's size or with an empty layer; levels once assigned are kept |
| RelaxedGraph.Relaxed | classical_planning/src/MyHeuristic.java:408-541 | a finished expansion from a state satisfies the invariant, gives every literal holding in the state level 0, and stops only for the goal or saturation |
| RelaxedGraph.GoalReachedIff | classical_planning/src/MyHeuristic.java:543-545 | the goal counter equals the goal's size exactly when every goal literal has a level |
| RelaxedGraph.SaturatedClosed | classical_planning/src/MyHeuristic.java:452-539 | in a saturated graph, a pair whose precondition literals all have levels has all its effect literals leveled too |
| RelaxedGraph.ReachableWithin | classical_planning/src/MyHeuristic.java:452-539 | every literal holding after any plan of the problem's actions has a level in the saturated graph |
| RelaxedGraph.UnreachableSound | classical_planning/src/MyHeuristic.java:573-575 | when the expansion leaves a goal literal without a level, no plan of the problem's actions reaches the goal from the state |
| RelaxedGraph.SumFromZeroIff | classical_planning/src/MyHeuristic.java:550-561 | the SUM value is 0 exactly when every goal literal is at level 0 |
| RelaxedGraph.SumFromAtLeast | classical_planning/src/MyHeuristic.java:550-561 | the SUM value is at least the level of every goal literal |
| RelaxedGraph.SumZeroIffGoalHolds | classical_planning/src/MyHeuristic.java:603-606 | after a finished expansion, the SUM value is 0 exactly when the goal holds in the state |
| Heuristic.Build | classical_planning/src/MyHeuristic.java:72-323 | the role sets hold exactly the ids the problem's actions carry at each role's positions; the pair table holds exactly the problem's pairs; the goal and fact count are the problem's |
| Heuristic.PriorMoveIff | classical_planning/src/MyHeuristic.java:614-627 | the walk up the parent links finds a move exactly when the latest action by that agent on the extracted plan is a move |
| Heuristic.TooMuchMovesIff | classical_planning/src/MyHeuristic.java:609-634 | the gate fires exactly when the node's action is a move and the latest earlier action by the same agent is a move too |
| Heuristic.Estimate | classical_planning/src/MyHeuristic.java:566-607 | the estimate is infinite whenever a goal literal has no level; with the goal reachable, the role lookups fault in code order (box, box place, then, only once the load gate passes, agent and carrier), a failing load gate gives infinity, and with all four roles present the result is finite exactly when all three gates pass; a finite value equals the SUM value, which is 0 iff the goal holds |
| Heuristic.UnreachableMeansNoPlan | classical_planning/src/MyHeuristic.java:573-575 | an infinite estimate from reachability discards only nodes from which no plan of the problem's actions reaches the goal |
| SearchPath.Root | classical_planning/src/MyAlgorithm.java:133-147 | the root holds the initial state, zero counters and loads, an empty box map, cost and depth 0; row i carries the i-th smallest agent or carrier id; a missing agent or carrier role faults, agents first |
| SearchPath.RootIds | classical_planning/src/MyAlgorithm.java:134-141 | the root's id columns list the agent and carrier sets in ascending order |
| SearchPath.ActionRoles | classical_planning/src/MyHeuristic.java:94-217 | parameter 0 of every problem action is a classified agent; parameter 1 of every action but move_agent is a classified carrier |
| SearchPath.ReachedShape | classical_planning/src/MyAlgorithm.java:246-248 | every node reached from the root has a well-formed parent chain, the root's matrix shapes and id columns, and cost = depth = plan length |
| SearchPath.ReachedRuns | classical_planning/src/MyAlgorithm.java:297-310 | the plan extracted from a reached node uses problem actions and, run from the root's state, ends in that node's state |
| SearchPath.ChildReached | classical_planning/src/MyAlgorithm.java:229-248 | the child of a reached node by an applicable problem action is reached |
| SearchPath.AgentRowOnce | classical_planning/src/Node.java:69-71 | the acting agent has exactly one row in a reached node's agent matrix |
| SearchPath.ReachedCounts | classical_planning/src/Node.java:181-217 | on a reached node, the move, fill and deliver totals count those kinds on its plan, and the loaded boxes are fills minus empty unloads |
| SearchPath.CountAll | classical_planning/src/Node.java:181-217 | a kind's count never exceeds the plan's length and reaches it exactly when every action is of that kind |
| SearchPath.FillsOnly | classical_planning/src/MyHeuristic.java:581-586 | fills minus empty unloads equal the plan's length exactly when every action is a fill |
| SearchPath.LoadGateMeaning | classical_planning/src/MyHeuristic.java:581-586 | on a reached node, the loaded boxes equal the depth exactly when every action so far was fill_box_and_load_it_on_carrier |
| Search.Wrap32 | classical_planning/src/MyAlgorithm.java:156 | a Java int result is the 32-bit value congruent to the exact one, and equals it when it fits |
| Search.TimeoutMillis | classical_planning/src/MyAlgorithm.java:156 | the millisecond timeout is a Java int congruent to seconds × 1000 modulo 2^32, and equal to it whenever that fits |
| Search.KeyCounts | classical_planning/src/MyAlgorithm.java:124-129 | on a reached node, the frontier key is twice the moves on its plan plus its empty unloads |
| Search.PollIndex | classical_planning/src/MyAlgorithm.java:166 | the chosen position holds a node of least key, the first such |
| Search.Poll | classical_planning/src/MyAlgorithm.java:166 | poll removes one node of least key and leaves the rest of the frontier as a multiset |
| Search.ScoresValues | classical_planning/src/MyAlgorithm.java:196-198 | a successful scoring pairs each frontier node with its own estimate |
| Search.ScoresFault | classical_planning/src/MyAlgorithm.java:196-198 | a failed scoring passes on some frontier node's fault |
| Search.FilterCounts | classical_planning/src/MyAlgorithm.java:211-213 | a node survives the filter as often as it occurs when its estimate is at most the best, and not at all otherwise |
| Search.Prune | classical_planning/src/MyAlgorithm.java:195-217 | the rebuilt frontier holds only frontier nodes; a fault comes only from an absent role |
| Search.PruneOkIff | classical_planning/src/MyAlgorithm.java:195-217 | pruning faults exactly when some frontier node's estimate faults |
| Search.PruneCounts | classical_planning/src/MyAlgorithm.java:195-217 | pruning keeps every node estimated at most the new best as often as the frontier held it, drops every other node, and is empty when none qualifies |
| Search.ChildOk | classical_planning/src/MyAlgorithm.java:232-248 | the child of a reached node by an applicable problem action fits its matrices, is reached and can be estimated |
| Search.Offspring | classical_planning/src/MyAlgorithm.java:229-256 | one action's contribution faults only from an absent role |
| Search.OffspringInsertable | classical_planning/src/MyAlgorithm.java:229-256 | an action contributes its child exactly when that child is applicable, unexplored and finitely estimated, and nothing otherwise |
| Search.Successors | classical_planning/src/MyAlgorithm.java:229-258 | collecting successors faults only from an absent role |
| Search.SuccessorsSound | classical_planning/src/MyAlgorithm.java:229-258 | every collected child is the insertable child of one of the actions |
| Search.SuccessorsComplete | classical_planning/src/MyAlgorithm.java:229-258 | every insertable child of one of the actions is collected |
| Search.SuccessorsReached | classical_planning/src/MyAlgorithm.java:229-258 | every collected child is reached from the root |
| Search.Admitted | classical_planning/src/MyAlgorithm.java:265-276 | what an expansion admits comes from the collected children; deeper down, with fewer children than the depth, nothing is admitted |
| Search.DivAtMost | classical_planning/src/MyAlgorithm.java:268-269 | the prefix length size / depth never exceeds the number of children |
| Search.AdmittedAll | classical_planning/src/MyAlgorithm.java:252-276 | the frontier gains exactly the collected children, so the two fallback branches never add a node |
| Search.ZeroSolves | classical_planning/src/MyAlgorithm.java:180-185 | a reached node estimated 0 yields a plan of problem actions, as long as its depth, that runs from the initial state to a goal state |
| Search.Improve | classical_planning/src/MyAlgorithm.java:192-218 | the best estimate never rises; it drops to the current estimate exactly when that is smaller, and only then is the frontier pruned |
| Search.SuccessorsChildren | classical_planning/src/MyAlgorithm.java:229-258 | collecting without a fault yields the reference list of children: one child per occurrence of an action, in the problem's action order, whose child is applicable, unexplored and finitely estimated |
| Search.AllReachedOk | classical_planning/src/MyAlgorithm.java:196-198 | every node of a frontier reached from the root can be estimated, so pruning it is defined |
| Search.PassFault | classical_planning/src/MyAlgorithm.java:192-258 | the fault that ends a pass after a non-zero estimate comes only from an absent role |
| Search.Expand | classical_planning/src/MyAlgorithm.java:221-276 | the expansion faults exactly when collecting the successors faults, with that fault; otherwise the frontier gains the reference list of children, one per insertable action occurrence in action order, each a child of the current node by an applicable problem action, unexplored and finitely estimated, and every such child among them |
| Search.Iterate | classical_planning/src/MyAlgorithm.java:163-281 | each pass polls a node of least key, leaving the other frontier nodes as a multiset, and adds its state to the explored set before scoring it; an estimate fault ends the search with that fault, an estimate of 0 ends it with that node's extracted plan, which solves the problem, and the explored set's size; otherwise the pass ends with the fault of pruning (only when the best drops) or, failing that, of collecting the successors, and when neither faults it goes on: the best drops to the estimate exactly when that is smaller, and the next frontier is the remaining nodes, pruned when the best dropped, followed by the reference list of the node's insertable children |
| Search.Advance | classical_planning/src/MyAlgorithm.java:192-276 | after a popped node estimated other than 0, the best drops to that estimate exactly when it is smaller; the pass stops exactly when pruning (done only when the best drops) or collecting the successors faults, and then with that fault, the pruning fault first; otherwise the new frontier is the rest, pruned to the nodes estimated at most the new best when the best dropped, followed by the reference list of the popped node's insertable children, all reached from the root |
| Search.Start | classical_planning/src/MyAlgorithm.java:110-151 | the start is the root built from the initial state with its estimate, and that root is the root of the problem's reachable nodes; a fault in building the root comes first, otherwise the fault of estimating it |
| Search.Begin | classical_planning/src/MyAlgorithm.java:110-151 | the root is the one built from the initial state, and the first best is its estimate; a missing agent role faults before a missing carrier role, and both before the root is estimated; an estimate fault of the root ends the start |
| Search.Loop | classical_planning/src/MyAlgorithm.java:163-287 | the loop's history is a trace of snapshots from the frontier holding only the root, each step one pass that went on; the search ends with no plan only when the timeout is not positive (nothing explored) or the frontier of the last snapshot is empty, runs out of fuel only after exactly `fuel` passes with a non-empty frontier, and otherwise ends in one more pass from the last snapshot that polls a node of least key: its estimate fault, or its plan when estimated 0, or else the fault of pruning or of collecting the successors, whichever comes first; a found plan solves the problem |
| Search.Search | classical_planning/src/MyAlgorithm.java:103-288 | My_ASTAR returns only plans that reach the goal; a failed start (absent agent or carrier role, or a fault estimating the root) is the outcome before any pass; otherwise the loop's trace starts from the root and its estimate and every guarantee of the loop holds; null (no plan) comes only from an exhausted frontier or a non-positive timeout |

## Left out

- pddl4j collaborators are not part of this model: parsing and grounding, `Action.isApplicable`, `State.satisfy` and `State.apply`. States are fact sets. A precondition holds when every literal in it holds. `State.apply` is taken to delete first and then add (`Planning.Apply`).
- Unrecognised action names are excluded by `ProblemOk`. For them `getActionIndex` returns -1. The Node constructor then indexes column -1, and throws, only when some agent row's id equals parameter 0; otherwise it leaves the agent counters unchanged. The model represents neither outcome.
- Schemas.Lower: lower-cases ASCII letters only; Java's locale-dependent `toLowerCase` on other characters is not modelled.
- Heuristic.Estimate: the SUM value, the levels and the counters are unbounded naturals, not 32-bit ints. `double` values become `Est = Fin(n) | Inf`, with `Inf` standing for `Double.MAX_VALUE`.
- SearchNode.ChildAggregates: the aggregate matrices hold unbounded integers, so `int` overflow of a counter is not modelled.
- The copying getters (`getAgentFacts`, `getCarrierFacts`, `getBoxFacts`) are the identity, because nodes are immutable values, so a child can never alter its parent. The `[0].length` read on an empty matrix inside those getters is not modelled. The root's matrices come from the classifier and hold at least one row whenever the corresponding role exists.
- Search.Loop: the wall-clock bound is modelled only as the initial test `0 < timeout`, because `time` is never advanced. A `fuel` parameter bounds the number of iterations instead. A run that would need more iterations ends in `OutOfFuel` after exactly `fuel` passes, so the model does not say what happens to searches longer than the fuel.
- Search.PollIndex: `PriorityQueue` tie-breaking among equal keys is not modelled. The first node of least key in frontier order is taken.
- Search.Search: `isSupported` always returns true, so the unsupported-problem exception is not modelled.
- Instrumentation and the entry point: logging, `main`, `getStatistics` and the `GraphLayout` memory sampling.
- Write-only fields of the heuristic never affect an estimate: `operatorsLevel`, `operatorsDifficulty`, `unconditionalEffects`, `effectsEdges` and `isAdmissible`.
- `getTypeOfParameter` depends on `HashMap` iteration order and is never called by the search.
- `temporal_planning/launch/temporal_planning_launch.py` is launch configuration with no planning logic.
