# Weighted Sokoban search, modelled in Dafny

The system solves weighted Sokoban puzzles. An agent (`@`) moves on a grid of
walls (`#`), stones (`$`), switches (`.`) and stones already on a switch
(`*`). Each stone carries a weight read from the first input line, in
reading order. A move is one of eight letters:

- `u`, `d`, `l`, `r` is a **walk** onto a cell holding neither a wall nor a
  stone. It costs nothing.
- `U`, `D`, `L`, `R` is a **push**. A stone is in front of the agent and the
  cell beyond holds neither a wall nor a stone. The stone moves one cell,
  the agent takes its place, and the move costs the stone's weight.

A puzzle is solved when the stones stand exactly on the switches.

Five scripts share this rule:

- `Checker.py` replays a move string and reports validity and total weight.
- `BFS.py` and `DFS.py` search breadth-first and depth-first. They keep a
  visited set keyed on the agent and the frozen set of (stone, weight) items.
- `UCS.py` runs uniform-cost search. Its `State` objects compare by agent
  and stones, a heap is ordered by accumulated weight, and a ledger of
  settled weights discards stale pops.
- `A.py` runs A* with a heuristic that is the minimum, over every
  assignment of the stones to the first as many switches as there are
  stones (in reading order), of weight times Manhattan distance.
  It rebuilds the path from parent links.

The project has one module per concern:

| file | module | what |
|---|---|---|
| rules.dfy | `Rules` | positions, the validator's per-letter rule `ApplyMove`, its replay `Replay`, the solvers' `Walk`/`Push`, visited keys |
| bounded.dfy | `Bounded` | the enclosure the grid's walls form, and the finite set of configurations inside it that bounds every search |
| gridscan.dfy | `GridScan` | the row-major scan of `parse_grid`, strict (Checker.py, UCS.py) and lenient (BFS.py, DFS.py) |
| checker.dfy | `Checker` | `parse_grid` and `simulate_solution` |
| frontier.dfy | `Frontier` | what BFS.py and DFS.py share: lenient parsing, the eight tries per expansion, the visited filter |
| bfs.dfy | `Bfs` | `bfs` over a FIFO queue |
| dfs.dfy | `Dfs` | `dfs` over a LIFO stack |
| ucs.dfy | `UniformCost` | classes `State` and `Ucs`, and `Search` |
| heuristic.dfy | `AStarHeuristic` | `get_heuristic` and `is_goal` |
| astate.dfy | `AStarState` | A.py's `State` ordering, equality and hash, and `is_valid` |
| astar.dfy | `AStar` | A.py's reading loop, successor construction, search loop and path reconstruction |

Loops of the original are methods with loop invariants. Each method is
proved equal to a specification function, or to the invariant it keeps.
The class `UniformCost.State` keeps its `neighbors` list as a field that
`MovePlayer` and `GetNeighbors` reassign.

The code is followed where it departs from the puzzle's intended rules.
These departures are stated as lemmas rather than corrected:

- UCS.py's goal test is a subset test (`AllOnSwitchesAcceptsUncoveredSwitch`).
- UCS.py's exhausted search returns four values to a caller that unpacks five (`UniformCost.Search`, outcome `Crash`).
- A.py reads `last` after an empty queue (`AStar.Search`, outcome `LastUnbound`).
- A.py's blocked push leaves the agent on the stone (`AStar.SuccessorShape`).
- A.py's reader ignores `*` cells (`AStar.ReadAllFinds`).
- A.py's heuristic and goal test use only the first as many switches as there are stones (`AStarHeuristic.HeuristicUsesFirstSwitches`), so a stone on a later switch is not counted as placed (`AStarHeuristic.LaterSwitchIgnored`).

A* returns a cheapest chain of the successors it explores. The heuristic is
consistent across every successor (`AStar.HeuristicConsistent`) and never
exceeds the weight of a chain of successor steps to a goal
(`AStar.HeuristicAdmissible`), so with non-negative weights the first goal
popped is no dearer than any such chain (`AStar.Cheapest`). The blocked-push
successor is not a legal move, so this graph is larger than the puzzle's
move graph, and its cheapest chain can be cheaper than the cheapest legal
solution.

## Model

| member | source | states |
|---|---|---|
| Rules.UpperWalkIsPush | UCS.py:42 | upper-casing a direction's walk letter gives its push letter |
| Rules.Without | UCS.py:92 | popping entry `i` of a frontier (`heappop`, `queue.get`) leaves exactly the other entries, in order |
| Rules.DecodeMove | Checker.py:73-85 | exactly the eight letters u d l r U D L R decode; an upper-case letter decodes to a push and a lower-case letter to a walk in the same direction |
| Rules.MoveStone | Checker.py:113 | the pushed stone alone moves, keeping its weight; every other stone stays and the stone count is unchanged |
| Rules.ItemsInjective | BFS.py:59 | two stone dictionaries with the same frozen set of items are equal |
| Rules.KeyOfCanonical | BFS.py:99 | two configurations have the same visited key exactly when they have the same agent and the same stone dictionary |
| Rules.MoveFacts | Checker.py:84-122 | an unknown letter is rejected as invalid; an accepted move puts the agent on the adjacent non-wall cell and keeps the stone count and stones off walls; an accepted walk keeps the stones, costs 0 and ends on a stone-free cell; an accepted push needs a stone ahead and a free non-wall cell beyond it, moves that stone there, and costs its weight |
| Rules.Replay | Checker.py:84-122 | a rejected replay stops at a step inside the string; a completed replay keeps the stone count |
| Rules.ReplaySnoc | Checker.py:84-122 | replaying one more letter applies the move rule to where the prefix ended, and a stopped replay stays stopped |
| Rules.ReplayStopsAtFirstIllegal | Checker.py:84-119 | a stopped replay stops at the first illegal letter: the prefix before it completes with the reported weight, and that letter is rejected for the reported reason |
| Rules.ReplayStoppedSticky | Checker.py:84-87 | once a prefix is rejected, the whole string is rejected at the same step with the same weight |
| Rules.ReplayStep | Checker.py:84-122 | from a completed prefix, the next letter either stops the replay there with the prefix's weight or extends it by the move's cost |
| Rules.ReplayMoved | Checker.py:112-122 | an accepted next letter extends a completed prefix by its configuration and cost |
| Rules.ReplayRejected | Checker.py:85-119 | a rejected next letter stops the whole replay at that step with the prefix's weight |
| Rules.ReplayPrefix | Checker.py:84-122 | every prefix of a completed replay completes |
| Rules.ApplyMove | Checker.py:84-122 | the validator's one-letter rule; characterised by `Rules.MoveFacts` and `Rules.ValidatorMovesAreSolverMoves` |
| Rules.IsGoal | Checker.py:125-129 | the final test, stone positions equal to the switches; `Checker.Simulate` states that a valid verdict is exactly a legal replay ending in it |
| Rules.Walk | BFS.py:89-104 | the solvers' walk; `Rules.SolverRuleIsValidatorRule` proves it is the validator's lower-case move |
| Rules.Push | BFS.py:107-127 | the solvers' push; `Rules.SolverRuleIsValidatorRule` proves it is the validator's upper-case move with the stone's weight |
| Rules.WalksMoveNoStone | Checker.py:116-122 | a completed string of walks leaves every stone in place and weighs 0 |
| Rules.ReplayWeightMonotone | Checker.py:114 | with non-negative weights, a prefix's total lies between 0 and the whole string's total, and weights stay non-negative |
| Rules.SolverRuleIsValidatorRule | BFS.py:89-127 | the solvers' walk exists exactly when the validator accepts the lower-case letter, with the same configuration and cost 0; the push exists exactly when it accepts the upper-case letter, with the same configuration and the stone's weight |
| Rules.ValidatorMovesAreSolverMoves | Checker.py:97-122 | every move the validator accepts is the solvers' walk or push in its direction, with the matching letter case and cost |
| Bounded.MoveStaysConfined | BFS.py:89-127 | inside a region enclosed by walls, a legal move keeps the agent and stones in the region and off walls, and the weights unchanged |
| Bounded.ConfinedInUniverse | BFS.py:58-59 | a confined configuration, and its visited key, belong to the finite universe the searches count against |
| GridScan.ReadCell | Checker.py:31-52 | one cell of the scan equals the specification step `ScanCell` |
| GridScan.ScanCell | Checker.py:31-52 | one cell of the scan; characterised by `GridScan.ScanCellSorts` and `GridScan.ScanAssignsWeightsInOrder` |
| GridScan.StrictParse | Checker.py:29-56 | the strict parse; `GridScan.StrictParseMatchesCounts` states when it succeeds and what it finds |
| GridScan.LenientParse | BFS.py:29-45 | the lenient parse; `GridScan.LenientParseAssigns` states which stones get which weights |
| GridScan.ScanAll | BFS.py:29-45 | the lenient scan never fails |
| GridScan.ScanNoneSticky | Checker.py:37-39 | a strict scan that fails on a prefix of the cells fails on all of them |
| GridScan.StrictFailsEarly | Checker.py:37-39 | a strict scan failure inside the grid makes the whole parse fail |
| GridScan.ScanAssignsWeightsInOrder | Checker.py:29-52 | the scan fails exactly when it is strict and more stone cells than weights appear; otherwise the k-th stone cell in reading order carries the k-th weight, for as many stones as there are weights, and no other cell has a stone |
| GridScan.ScanCellSorts | Checker.py:31-52 | one cell adds to the switches exactly when it is `.` or `*`, to the walls exactly when it is `#`, and moves the agent exactly when it is `@` |
| GridScan.ScanFindsSwitches | Checker.py:40-52 | the switches are exactly the `.` and `*` cells |
| GridScan.ScanFindsWalls | Checker.py:42-43 | the walls are exactly the `#` cells |
| GridScan.ScanFindsPlayer | Checker.py:31-32 | no agent is found exactly when no `@` appears; otherwise the agent stands on the last `@` cell |
| GridScan.CellsDistinct | Checker.py:29-30 | the row-major cells have distinct positions whose rows are in range |
| GridScan.ParseWithinGrid | Checker.py:29-52 | the agent and the stones found lie on the grid and off walls |
| GridScan.ParsedWeightsAreGiven | Checker.py:33-36 | every stone weight is one of the weights given |
| GridScan.StrictParseMatchesCounts | Checker.py:29-56 | the strict parse succeeds exactly when stone cells and weights are equal in number, and then the k-th stone cell is the stone with the k-th weight |
| GridScan.LenientParseAssigns | BFS.py:29-45 | the lenient parse gives the first stone cells the weights in order, one each, and no stone to the stone cells beyond the last weight |
| Checker.Simulate | Checker.py:65-129 | with an agent, the verdict is valid exactly when every move is legal and the final stone positions equal the switches; without an agent, it crashes exactly when the first letter is a move letter |
| Checker.ParseGrid | Checker.py:22-63 | the nested loop computes the strict parse, with failure as None |
| Checker.MoveOnce | Checker.py:88-122 | one loop turn gives the validator's step result for the letter |
| Checker.SimulateSolution | Checker.py:65-129 | the loop computes `Simulate`: the verdict and the weight pushed before stopping |
| Checker.InvalidLetterFails | Checker.py:84-87 | a letter outside the eight, reached after a legal prefix, gives an invalid verdict carrying the prefix's weight |
| Checker.WalksOnlyWeighNothing | Checker.py:116-122 | a string of lower-case letters reports weight 0 |
| Frontier.ParseGrid | BFS.py:22-52 | the nested loop computes the lenient parse |
| Frontier.FreshFacts | BFS.py:99-104 | the entries an expansion appends are tried successors with unseen, pairwise distinct keys, and they mark exactly the tried keys not seen before |
| Frontier.DistinctKeysCount | BFS.py:101-104 | entries with distinct keys add as many keys as entries |
| Frontier.FreshStep | BFS.py:99-104 | one try appends its entry exactly when it exists and its key is unseen, and marks that key |
| Frontier.WalkTry | BFS.py:89-103 | the k-th walk try exists exactly when the next cell holds neither wall nor stone; it keeps the stones and weight and appends the lower-case letter |
| Frontier.PushTry | BFS.py:107-127 | a push try exists exactly when a stone is in front and the cell beyond is free; that stone moves there and the weight grows by its weight, with the upper-case letter appended |
| Frontier.Expand | BFS.py:89-128 | one expansion appends the fresh successors to the frontier, marks their keys and counts them as nodes |
| Frontier.TryWalks | BFS.py:89-104 | the walk loop appends, marks and counts the fresh walk successors in u, d, l, r order |
| Frontier.TryPushes | BFS.py:107-128 | the push loop continues with the fresh push successors in U, D, L, R order |
| Frontier.Offer | BFS.py:101-104 | one try is appended, marked and counted exactly when it is fresh |
| Frontier.AttemptIsMove | BFS.py:89-127 | each successor is one validator move longer, with the validator's configuration and cost |
| Frontier.DirIndex | BFS.py:62-75 | every direction has its place in the try order |
| Frontier.MoveIsAttempt | BFS.py:89-127 | every legal move's result is among the tried successors |
| Frontier.FreshAreReplayed | BFS.py:103 | appended entries replay to their configuration and weight, one letter longer than their parent |
| Frontier.AttemptReplayed | BFS.py:127 | a tried successor replays to its configuration and weight, one letter longer |
| Frontier.FreshConfined | BFS.py:89-127 | successors in an enclosure stay in it |
| Frontier.FreshAreSuccessors | BFS.py:89-128 | what one expansion appends is replayable, confined, one letter longer, freshly keyed and covers every legal move |
| Frontier.KeysOfConcat | BFS.py:99-102 | the keys of two frontiers together are the union of their keys |
| Frontier.StepCount | BFS.py:102-104 | marking distinct unseen keys inside the universe adds exactly their number and stays inside it |
| Frontier.ClosedReach | BFS.py:79-130 | if every move out of an expanded state is marked and the start is expanded, every replayable string ends in an expanded state |
| Frontier.SeenReachable | BFS.py:99-104 | every marked key belongs to a replayable entry, queued or expanded, so the validator reaches it from the start |
| Bfs.Step | BFS.py:79-128 | one pop and expansion keeps the BFS invariant (sound entries, FIFO depths, distance ledger, closure) and the node count stays below the universe's size |
| Bfs.StepQueue | BFS.py:80-127 | the popped front plus appended successors stays sound, FIFO-ordered and ledgered |
| Bfs.StepRest | BFS.py:80-128 | the expanded set stays closed within one more move, holds no goal, and the node count grows by the appended entries |
| Bfs.StepFifo | BFS.py:80-127 | appending entries one move deeper than the popped front keeps path lengths non-decreasing and within one |
| Bfs.StepDist | BFS.py:99-127 | the distance ledger after an expansion gives the new keys the popped depth plus one |
| Bfs.StepClosed | BFS.py:89-128 | after an expansion every move from an expanded state reaches a key at most one move further |
| Bfs.StepBehind | BFS.py:80 | expanded entries are never deeper than the queue front |
| Bfs.ShallowIsDone | BFS.py:79-80 | a seen key shallower than the queue front has been expanded |
| Bfs.ReachWithin | BFS.py:79-128 | every state a string shorter than the front's path reaches is already seen at no greater depth |
| Bfs.Shortest | BFS.py:79-86 | no solution is shorter than the path at the front of the queue |
| Bfs.Accepted | BFS.py:85-86 | a popped goal entry's path replays in the validator as valid with its weight and is a shortest solution |
| Bfs.Exhausted | BFS.py:130 | an empty queue means every reachable configuration was seen and none is a goal |
| Bfs.Init | BFS.py:56-59 | the one-entry queue with the start marked satisfies the invariant |
| Bfs.InitLedger | BFS.py:58-59 | the start is recorded at distance 0 |
| Bfs.Bfs | BFS.py:54-130 | a found path is accepted by the validator with the reported weight and is a shortest solution; no solution means none exists; nodes count the distinct non-start keys marked, and every marked key is reachable from the start by moves the validator accepts |
| Bfs.Solve | BFS.py:22-130 | parse then search: it crashes exactly when the agent is missing and the start is not a goal; a found path is valid for the validator and shortest; no solution means none exists |
| Dfs.Pop | DFS.py:80 | the stack is what remains plus its last entry |
| Dfs.StepSound | DFS.py:80-130 | popping the top and pushing its successors keeps every entry replayable and confined |
| Dfs.StepSeen | DFS.py:100-104 | the marked keys stay those on the stack or expanded |
| Dfs.StepClosed | DFS.py:89-130 | after an expansion every move from an expanded state reaches a marked key |
| Dfs.Step | DFS.py:79-130 | expanding the most recently pushed entry keeps the DFS invariant and the node count below the universe's size |
| Dfs.Accepted | DFS.py:85-86 | a popped goal entry's path replays in the validator as valid with its weight |
| Dfs.Exhausted | DFS.py:132 | an empty stack means every reachable configuration was seen and none is a goal |
| Dfs.Dfs | DFS.py:53-132 | a found path is accepted by the validator with the reported weight; no solution means none exists; nodes count the distinct non-start keys marked, and every marked key is reachable from the start by moves the validator accepts |
| Dfs.Solve | DFS.py:21-132 | parse then search, with the crash, validity and completeness facts of `Dfs` |
| UniformCost.NeighborPushes | UCS.py:29-45 | with a stone in front, a neighbour exists exactly when the solvers' push does, appends the upper-case letter and is the validator's push with its cost |
| UniformCost.NeighborWalks | UCS.py:29-56 | with no stone in front, a neighbour exists exactly when the solvers' walk does, appends the lower-case letter and is the validator's walk at no cost |
| UniformCost.NeighborIsMove | UCS.py:26-56 | a neighbour exists exactly when the solvers' walk or push does; it appends that direction's letter and is the validator's move with its cost |
| UniformCost.Neighbor | UCS.py:26-56 | `movePlayer` for one direction; `UniformCost.NeighborIsMove`, `UniformCost.NeighborPushes` and `UniformCost.NeighborWalks` characterise it |
| UniformCost.Neighbors | UCS.py:15-24 | the neighbour list in u, d, l, r order; `UniformCost.NeighborsComplete`, `UniformCost.NeighborsAreMoves` and `UniformCost.NeighborPosition` characterise it |
| UniformCost.NodeLess | UCS.py:71-77 | `__lt__` on weight then move length; `UniformCost.NodeLessIsStrictOrder` proves it a strict order |
| UniformCost.AllOnSwitches | UCS.py:58-59 | the subset goal test; `UniformCost.AllOnSwitchesIsGoal` and `UniformCost.AllOnSwitchesAcceptsUncoveredSwitch` relate it to the validator's test |
| UniformCost.NeighborPosition | UCS.py:15-24 | a direction's neighbour sits in the list after those of the earlier directions in u, d, l, r order |
| UniformCost.MoveIsNeighbor | UCS.py:26-56 | every legal move gives the neighbour in its direction, with the same configuration and cost |
| UniformCost.NeighborsComplete | UCS.py:15-24 | every legal move's result and cost appear among the neighbours |
| UniformCost.NeighborsAreMoves | UCS.py:15-56 | every neighbour is one legal move longer, costing the weight difference |
| UniformCost.NeighborsAdjacent | UCS.py:15-24 | there are at most four neighbours, each with the agent one cell away and one letter more |
| UniformCost.NodeLessIsStrictOrder | UCS.py:71-77 | `__lt__` is irreflexive, asymmetric and transitive; two states are unordered exactly when weight and move length tie |
| UniformCost.AllOnSwitchesIsGoal | UCS.py:58-59 | with as many stones as switches, the subset test is the set-equality goal |
| UniformCost.AllOnSwitchesAcceptsUncoveredSwitch | UCS.py:58-59 | with more switches than stones, the subset test accepts a state the validator rejects |
| UniformCost.State.constructor | UCS.py:6-13 | the fields take the arguments and the neighbour list is empty |
| UniformCost.State.EqualsIsSameHash | UCS.py:64-69 | `__eq__` holds exactly when the hashes agree, exactly when agent and stones agree |
| UniformCost.State.Equals | UCS.py:68-69 | `__eq__` on agent and stones; characterised by `UniformCost.State.EqualsIsSameHash` |
| UniformCost.State.Hash | UCS.py:64-66 | `__hash__` on the agent and the frozen stone items; characterised by `UniformCost.State.EqualsIsSameHash` |
| UniformCost.State.Less | UCS.py:71-77 | `__lt__` through `UniformCost.NodeLess`, a strict order by `UniformCost.NodeLessIsStrictOrder` |
| UniformCost.State.ReachedGoal | UCS.py:58-59 | `reachedGoal` through `UniformCost.AllOnSwitches` |
| UniformCost.State.BuiltSnoc | UCS.py:37-56 | appending a state on the same board extends the neighbour list's views |
| UniformCost.State.MovePlayer | UCS.py:26-56 | appends to the field exactly the neighbour of its direction, if any, as a fresh state, and keeps the earlier entries |
| UniformCost.State.GetNeighbors | UCS.py:15-24 | returns fresh states on the same board whose views are the neighbours in u, d, l, r order |
| UniformCost.RelaxedExactly | UCS.py:99-102 | the pushed entries are exactly the neighbours unseen in the ledger or strictly cheaper, each with its own weight as priority |
| UniformCost.PushNeighbors | UCS.py:99-102 | the loop appends exactly those entries |
| UniformCost.PopMin | UCS.py:92 | the popped entry has the least priority |
| UniformCost.CoveredKept | UCS.py:93-95 | a configuration accounted for stays accounted for after the pop is recorded |
| UniformCost.Skip | UCS.py:93-94 | a pop already settled at no greater weight is dropped and the invariant holds |
| UniformCost.MoveCostNonNegative | UCS.py:36 | with non-negative weights a move costs at least 0 |
| UniformCost.QueuedAfterMove | UCS.py:36-56 | a state one legal move from a queued state is queued-valid and no cheaper |
| UniformCost.NeighborIsOneMove | UCS.py:15-56 | every listed neighbour is one legal move with its cost |
| UniformCost.NeighborQueued | UCS.py:99-102 | a neighbour is a valid queue entry and costs no less than its parent |
| UniformCost.QueuedRemove | UCS.py:92-102 | the queue stays valid after a pop and pushes |
| UniformCost.RelaxedQueued | UCS.py:99-102 | every pushed entry is valid and costs no less than the popped state |
| UniformCost.RecordLedger | UCS.py:95-102 | after recording the least pop, no ledger weight exceeds a queued priority |
| UniformCost.ExpandedCovered | UCS.py:95-102 | every move out of the recorded state is accounted for at its cost |
| UniformCost.NeighborCovered | UCS.py:99-102 | each neighbour is settled or queued at no more than its weight |
| UniformCost.RecordCover | UCS.py:95-102 | recording a pop keeps every ledger configuration's moves accounted for and the start accounted for at 0 |
| UniformCost.Record | UCS.py:93-102 | recording a fresh least pop keeps the invariant and grows the ledger inside the finite universe |
| UniformCost.ReachCovered | UCS.py:90-102 | any replayable string's end is settled or queued at no more than its weight, or some queued priority is at most that weight |
| UniformCost.Cheapest | UCS.py:92-98 | the least queued priority is at most the weight of any way to reach the goal |
| UniformCost.Settled | UCS.py:96-98 | a popped goal state's moves reach the goal with its weight, and no way to the goal is cheaper |
| UniformCost.NoneReachable | UCS.py:105-106 | an empty queue means no move string reaches the goal |
| UniformCost.Init | UCS.py:84-86 | the queue holding the start at weight 0 with an empty ledger satisfies the invariant |
| UniformCost.StatesRemove | UCS.py:92 | popping adds no state to the queue |
| UniformCost.StatesPushed | UCS.py:99-102 | after a step the queue holds only earlier states and new neighbours |
| UniformCost.Ucs.constructor | UCS.py:80-81 | the solver holds the start state |
| UniformCost.Ucs.Run | UCS.py:83-106 | with non-negative weights, a found move string reaches the goal with the reported weight and no way to the goal is cheaper; exhaustion means none exists; a start on the goal gives the empty string at weight 0 after one pop |
| UniformCost.Search | UCS.py:108-161 | input errors exactly when the strict parse fails; "no solution" exactly when every stone starts on a switch; a crash exactly when, otherwise, the agent is missing or no goal is reachable; a reported solution is non-empty and cheapest, and with as many switches as stones the validator accepts it with its weight |
| AStarHeuristic.Terms | A.py:66-69 | the k-th term is stone k's weight times its Manhattan distance to its assigned switch |
| AStarHeuristic.SpreadHas | A.py:64 | inserting at each position below k is among the spread |
| AStarHeuristic.SpreadOnly | A.py:64 | the spread holds only such insertions |
| AStarHeuristic.InsertEverywhereHas | A.py:64 | every insertion into every shorter arrangement is generated |
| AStarHeuristic.InsertEverywhereOnly | A.py:64 | only such insertions are generated |
| AStarHeuristic.InsertPerm | A.py:64 | inserting n into an arrangement of n values gives an arrangement of n + 1 |
| AStarHeuristic.RemovePerm | A.py:64 | removing the largest value from an arrangement gives an arrangement of one fewer, and inserting it back restores it |
| AStarHeuristic.PermsSound | A.py:64 | every generated sequence is an arrangement of range(n) |
| AStarHeuristic.PermsComplete | A.py:64 | every arrangement of range(n) is generated |
| AStarHeuristic.Identity | A.py:64 | range(n) itself is an arrangement |
| AStarHeuristic.PermsNonEmpty | A.py:64 | at least one arrangement is generated |
| AStarHeuristic.MinCostIsLeast | A.py:63-71 | the running minimum is finite on a non-empty list, at most every arrangement's cost, and equal to one of them |
| AStarHeuristic.ArrangementCost | A.py:65-69 | the inner loop sums the terms of one arrangement |
| AStarHeuristic.GetHeuristic | A.py:60-73 | the nested loops compute the heuristic |
| AStarHeuristic.HeuristicIsMinimum | A.py:60-73 | the heuristic is at most the cost of every assignment of the stones to distinct switches among the first as many switches as there are stones, and equals one of them |
| AStarHeuristic.MinCostUsesFirstSwitches | A.py:63-71 | the running minimum over arrangements of range(n) is the same when the switch list is cut to its first n entries |
| AStarHeuristic.HeuristicUsesFirstSwitches | A.py:60-73 | the heuristic depends only on the first as many switches as there are stones |
| AStarHeuristic.LaterSwitchIgnored | A.py:60-76 | as written, one stone of weight 1 on (1, 1) with switches (5, 5) and (1, 1) has heuristic 8 and is not a goal, although it stands on a switch |
| AStarHeuristic.HeuristicNonNegative | A.py:60-73 | with non-negative weights the heuristic is at least 0 |
| AStarHeuristic.SumPermuted | A.py:66-69 | the total does not depend on the order of its terms |
| AStarHeuristic.CostReorder | A.py:66-69 | reordering the stones and the assignment alike keeps the cost |
| AStarHeuristic.HeuristicReorder | A.py:60-73 | reordering the stone list leaves the heuristic unchanged |
| AStarHeuristic.TermZero | A.py:68-69 | a positive-weight stone's term is non-negative, and zero exactly on its switch |
| AStarHeuristic.GoalIffMatched | A.py:75-76 | with positive weights, `is_goal` holds exactly when some assignment to the first as many switches as there are stones puts every stone on its switch |
| AStarHeuristic.MatchedCovers | A.py:75-76 | with equal counts, such an assignment puts the stones exactly on the switch set |
| AStarHeuristic.CoveredMatched | A.py:75-76 | distinct stones covering exactly the switch set have such an assignment |
| AStarHeuristic.GoalIffOnSwitches | A.py:75-76 | with positive weights, equal counts and distinct stones, `is_goal` holds exactly when the stone positions equal the switch set |
| AStarHeuristic.Heuristic | A.py:60-73 | the minimum assignment cost; characterised by `AStarHeuristic.HeuristicIsMinimum`, `AStarHeuristic.HeuristicNonNegative` and `AStarHeuristic.HeuristicIgnoresOrder` |
| AStarHeuristic.IsGoalState | A.py:75-76 | a zero heuristic; `AStarHeuristic.GoalIffMatched` and `AStarHeuristic.GoalIffOnSwitches` relate it to stones on switches |
| AStarHeuristic.WeightsNonNegativeTransfer | A.py:60-73 | non-negative weights stay non-negative when the stones are reordered |
| AStarHeuristic.TermShift | A.py:68-69 | moving a stone one cell lowers its term by at most its weight |
| AStarHeuristic.CostShift | A.py:65-69 | moving one stone one cell lowers an assignment's cost by at most that stone's weight |
| AStarHeuristic.HeuristicShift | A.py:60-73 | moving one stone one cell lowers the heuristic by at most that stone's weight |
| AStarHeuristic.Matching | A.py:50-54 | two lists holding the same items are rearrangements of each other by an arrangement of their indices |
| AStarHeuristic.HeuristicIgnoresOrder | A.py:60-73 | the heuristic depends only on which stones there are, not on their order |
| AStarState.StoneLessIsStrictTotal | A.py:35-40 | comparing stone lists [r, c, w] is a strict total order |
| AStarState.Insert | A.py:35-36 | inserting into a sorted list keeps it sorted with one more copy of the stone |
| AStarState.Sort | A.py:35-36 | `sorted` gives a sorted list with the same stones |
| AStarState.SortedSameHead | A.py:50 | two sorted lists of the same stones start alike |
| AStarState.SortedUnique | A.py:50 | two sorted lists of the same stones are equal |
| AStarState.SortIgnoresOrder | A.py:50-54 | sorted lists agree exactly when the lists hold the same stones |
| AStarState.EqualsIgnoresStoneOrder | A.py:43-54 | `__eq__` holds exactly when f, x, y, g agree and the stones agree in any order, exactly when the hashes agree |
| AStarState.StonesLessIsStrictTotal | A.py:38-41 | the stone loop of `__lt__` is a strict total order on equally long lists |
| AStarState.LessIsStrictTotal | A.py:25-41 | `__lt__` is irreflexive, asymmetric and transitive, and orders any two states with different hashes |
| AStarState.IsValid | A.py:56-58 | a cell is valid exactly when it lies within the grid's height and the first row's width and is not `#` |
| AStarState.Equals | A.py:43-50 | `__eq__`; characterised by `AStarState.EqualsIgnoresStoneOrder` |
| AStarState.Hash | A.py:52-54 | `__hash__`; `AStarState.EqualsIgnoresStoneOrder` proves equal hashes exactly for equal states |
| AStarState.Less | A.py:25-41 | `__lt__`; `AStarState.LessIsStrictTotal` proves it a strict order, total across hashes |
| AStar.ReadAllFinds | A.py:100-108 | reading succeeds exactly when there are enough weights for the `$` cells; the k-th `$` cell gets the k-th weight, the switches are the `.` cells in order, the agent stands on the last `@` or at (0, 0), and every other character, `*` included, is ignored |
| AStar.ReadNoneSticky | A.py:104-106 | running out of weights on a prefix fails the whole read |
| AStar.ReadNext | A.py:100-108 | one more cell applies the one-cell step to what was read |
| AStar.ReadInput | A.py:95-108 | the nested loop computes the specification read, with running out of weights as None |
| AStar.ReadCell | A.py:102-108 | one cell of the reading loop; `AStar.ReadAllFinds` and `AStar.ReadNext` characterise it |
| AStar.ReadAll | A.py:100-108 | the reading loop; characterised by `AStar.ReadAllFinds` and `AStar.ReadNoneSticky` |
| AStar.CellsWithDistinct | A.py:100-108 | on a grid, the cells holding one character are listed once each and are grid cells |
| AStar.ReadApart | A.py:100-106 | the stones read from a grid stand on distinct cells |
| AStar.ProbeStones | A.py:145-154 | check1 holds exactly when a stone is on the target and then pos1 indexes such a stone (pos1 is -1 otherwise); check2 holds exactly when a stone is on the cell beyond |
| AStar.SuccessorOfMoved | A.py:137-162 | the successor is the moved state with f set to g plus the heuristic |
| AStar.SuccessorShape | A.py:137-162 | a successor exists exactly when the target is valid; the agent stands on the target with f = g + h; a walk keeps stones and g; a free push moves that stone one cell and adds its weight to g; a blocked push keeps stones and g with the agent on the stone |
| AStar.Moved | A.py:137-160 | the moved state; `AStar.SuccessorShape` characterises it |
| AStar.Successor | A.py:137-162 | the successor with its f; characterised by `AStar.SuccessorShape` and `AStar.SuccessorOfMoved` |
| AStar.SuccessorApart | A.py:149-160 | a successor keeps the stones on distinct cells |
| AStar.PushCongruent | A.py:145-158 | for two lists of the same stones on distinct cells, the stone found ahead is the same stone and lands on the same cell |
| AStar.MovedCongruent | A.py:137-160 | two states with the same agent, g and stones, in any order and on distinct cells, move alike in every direction |
| AStar.SuccessorCongruent | A.py:137-162 | two states with one hash, stones on distinct cells, have successors in the same directions, with one hash |
| AStar.SuccessorWeights | A.py:149-160 | a successor keeps the stones' weights non-negative |
| AStar.HeuristicConsistent | A.py:137-162 | across every successor the heuristic drops by at most the weight the step adds to g |
| AStar.SameHash | A.py:52-54 | states with one hash have the same f, agent and g, the same stones in some order, and the same heuristic |
| AStar.HeuristicAdmissible | A.py:137-162 | along a chain of successor steps the heuristic is at most the weight the chain adds plus the heuristic at its end, so at most the weight to a goal |
| AStar.SuccessorAt | A.py:137-160 | a successor's agent stands on the neighbouring cell in its direction |
| AStar.DirectionsDiffer | A.py:110-162 | successors in different directions have different hashes |
| AStar.Successors | A.py:110-162 | the four successors of a state in l, r, u, d order |
| AStar.SuccessorsApart | A.py:110-162 | the four successors have pairwise different hashes |
| AStar.OrderCovers | A.py:110-111 | the direction list covers every direction |
| AStar.ScanStones | A.py:145-154 | the stone loop computes check1, check2 and pos1 |
| AStar.MoveAgent | A.py:137-160 | the loop body builds the moved state |
| AStar.MakeSuccessor | A.py:137-162 | the loop body builds the successor with its f |
| AStar.DecodeLabels | A.py:112 | each direction's letters decode back to it |
| AStar.RecordQueue | A.py:171 | putting a well-formed state keeps every queued state well-formed and recorded |
| AStar.RecordLinks | A.py:168 | a new link from an earlier recorded state to its successor keeps every link valid |
| AStar.RecordScores | A.py:169-170 | `f_score` and `g_score` keep each recorded state's own f and g |
| AStar.RecordKeys | A.py:168-170 | the recorded keys stay the linked ones plus the start, ranked in recording order |
| AStar.Record | A.py:168-171 | recording an unrecorded successor keeps the search invariant |
| AStar.SkipIffRecorded | A.py:164-166 | a successor is skipped exactly when its key is already recorded |
| AStar.TryMove | A.py:137-171 | a direction with no valid target, or whose successor is recorded at no greater f, changes nothing; otherwise the successor is queued and recorded with its f, g and its link to the popped state |
| AStar.TryEffect | A.py:164-171 | one try adds its successor to the queue exactly when the successor exists and is unrecorded, and records its hash |
| AStar.Added | A.py:110-171 | what the direction loop adds to the queue has at most one state per direction |
| AStar.ExpansionStep | A.py:110-171 | one more direction extends the queue and the recorded hashes by exactly what it adds, records its successor and leaves the later directions' successors as they were |
| AStar.AddedStep | A.py:110-171 | one more direction appends what it adds |
| AStar.StepKeys | A.py:164-171 | the recorded hashes after one more direction are those before plus the hashes of the states queued so far |
| AStar.StepUntouched | A.py:164-171 | one direction does not record a later direction's successor |
| AStar.FreshKeys | A.py:164-171 | recording a try's hash adds exactly the hash of what it queues, if anything |
| AStar.QueueKeysConcat | A.py:171 | the hashes of two queues together are the union of their hashes |
| AStar.Expand | A.py:136-171 | one direction keeps the search invariant; the queue gains exactly that direction's successor when it exists and its hash is unrecorded, and the recorded hashes gain exactly the successor's hash |
| AStar.ExpandAll | A.py:110-171 | the four directions in l, r, u, d order keep the search invariant; the queue gains exactly the successors whose hashes were unrecorded, in that order, the recorded hashes gain exactly theirs, and afterwards every successor of the popped state is recorded |
| AStar.StartInv | A.py:115-125 | the start state alone in the queue, recorded with its f and g and no links, satisfies the invariant |
| AStar.QueueSizes | A.py:130 | every queued state has the start's number of stones |
| AStar.Popped | A.py:130 | a popped state is well-formed and recorded with its own f, and the rest keeps the invariant |
| AStar.PopFirst | A.py:130 | the popped state has no queued state below it under `__lt__` |
| AStar.PopQueue | A.py:130 | the queue without the popped state stays well-formed |
| AStar.LinkedCons | A.py:185-194 | prefixing a step keeps a chain linked |
| AStar.LinkedLetters | A.py:185-194 | every letter of a linked path is a move letter |
| AStar.Reverse | A.py:194 | `reversed` puts the letters back in chronological order |
| AStar.LinkStep | A.py:188-190 | a link read back, upper-cased exactly when g changed, is a step of the path |
| AStar.BackStep | A.py:187-192 | one turn of the reconstruction extends the chain with an earlier recorded state |
| AStar.Reconstruct | A.py:184-194 | the path is a chain of successor steps from the start to `last`, each letter upper-case exactly when g changes across it; every letter is one of the eight move letters |
| AStar.LinkedTail | A.py:185-194 | dropping the first step of a chain leaves a chain |
| AStar.QueueKeysWithout | A.py:130 | popping an entry removes at most its hash from the queued hashes |
| AStar.PopClosure | A.py:130 | after a pop, every recorded hash is expanded, still queued or the popped state's |
| AStar.AddedApart | A.py:110-171 | what the direction loop adds has its stones on distinct cells when the successors do |
| AStar.QueueGrow | A.py:110-171 | after an expansion the queue keeps its stones on distinct cells, and its hashes grow by those added |
| AStar.ClosedGrow | A.py:130-171 | an expanded non-goal state joins the expanded states with every successor recorded |
| AStar.CloseTop | A.py:130-171 | after an expansion every recorded hash is still expanded or queued |
| AStar.ClosedStep | A.py:137-171 | a move from an expanded state leads to a recorded hash |
| AStar.ClosedChain | A.py:129-171 | when every recorded hash is expanded, no chain of successor steps from an expanded state reaches a goal |
| AStar.Exhausted | A.py:129-132 | an empty queue with the start recorded means no chain of successor steps from the start reaches a goal |
| AStar.StepWeights | A.py:156-160 | a successor step keeps every stone weight non-negative |
| AStar.FrontierBound | A.py:128-171 | a chain from a recorded state to a goal costs at least the f of some queued state: its first unexpanded state is queued, and the heuristic from there is admissible |
| AStar.ChainNoCheaper | A.py:128-134 | a popped goal state's g is at most the final g of any one chain of successor steps from the start to a goal |
| AStar.Cheapest | A.py:128-134 | the goal state `queue.get()` returns is no dearer than every chain of successor steps from the start to a goal |
| AStar.StartState | A.py:114-118 | the start state; `AStar.Solve` states what the search reports from it |
| AStar.Search | A.py:120-194 | a reported path leads step by step from the start to a state whose heuristic is zero, and the reported weight is that state's g, equal to its `f_score`; an empty queue is the unbound `last`, and then, with the start's stones on distinct cells, no chain of successor steps from the start reaches a goal state; with the start's stones on distinct cells and non-negative weights, the reported weight is at most the final g of every chain of successor steps from the start to a goal state; the node count is between 1 and the pop budget |
| AStar.Solve | A.py:95-194 | missing weights exactly when the read fails; too few switches exactly when stones outnumber them; a reported path is a chain of successor steps from the start state to a goal state, with that state's g as weight; an empty queue means no chain of successor steps from the start state reaches a goal state; with non-negative weights the reported weight is the least over all such chains to a goal state |

## Left out

- File and standard-input reading, file writing, printing and every `main` loop over input files are left out. The models take the weight list and the grid as values.
- Timing (`time.time`) and memory figures (`tracemalloc`, `psutil`, `sys.getsizeof`) are left out. They are instrumentation with floating-point results.
- The graphical front end (`main.py`, `src/`) is not part of this model.
- The libraries `deque`, `heapq`, `PriorityQueue` and `itertools.permutations` are modelled by their pop discipline only.
- A.py's printed position list (A.py:175-178) and its memory, time and node lines (A.py:180-182) are left out. `AStar.Search` returns the weight, the path and the node count.
- Bfs.Bfs, Dfs.Dfs, UniformCost.Ucs.Run, UniformCost.Search: require the walls to enclose every cell the agent and stones can reach. The original never checks bounds, and without a wall border its search need not end.
- Bfs.Bfs, Dfs.Dfs: take the agent's position as given. A grid without `@` is handled one level up by `Bfs.Solve` and `Dfs.Solve`, which report the original's crash.
- UniformCost.Ucs.Run, UniformCost.Search: require non-negative stone weights. With a negative weight the original's ledger need not settle, and the cheapest-solution claim is false.
- UniformCost.Ucs.Run: does not pin down which of several equally cheap entries `heapq` pops first. `PopMin` returns some entry of least priority, and the node count is stated only for a start that is already a goal.
- UniformCost.Search: states the outcome of each input class but not the node count written to the output file.
- AStar.Search: stops after `fuel` pops with `OutOfFuel`. A.py's key includes g, so on an unsolvable puzzle its search need not end.
- AStar.Search: states exhaustion only when the start's stones stand on distinct cells. With two stones on one cell, states with one hash can move differently. Reading a grid always gives distinct cells (`AStar.ReadApart`), so `AStar.Solve` states exhaustion unconditionally.
- AStar.Search, AStar.Solve: state the least weight over chains of A.py's successor steps, not over legal move strings. The successor rule as written lets the agent step onto a stone whose push is blocked, so a chain can pass a stone that a legal solution must push, and A*'s weight can then undercut the legal optimum that `UniformCost.Search` finds.
- AStar.Search: states the least weight only for a start whose stones stand on distinct cells and weigh at least 0. `AStar.Solve` supplies distinct cells (`AStar.ReadApart`) and states it for non-negative weights.
- AStar.Search, AStar.Solve: require every row to be at least as long as the first. `is_valid` bounds columns by the first row, so a shorter row lets the original index past its end.
- AStarHeuristic.GetHeuristic: enumerates the arrangements in a different order than `itertools.permutations`. Only their minimum is used, so the value is the same.
- AStarState.Less: is defined for states with equal numbers of stones. The queue holds only such states, and the original reads past the shorter list otherwise.
