# Runner navigation stack: a verified model

A Dafny model of the hard parts of an autonomous runner's navigation stack, with proofs that hold for every input, run or
reachable state. `dafny verify dfyconfig.toml` checks the whole project.

- **Planner search.** `BestFirstSearch` and `Grid` hold the theory: exact costs over a settled frontier, consistent Euclidean
  estimates. `ObstacleHeuristic` is the lazily grown obstacle table, which agrees with plain shortest paths for every
  sequence of queries; `AStar2D` is the grid search with duplicate queue entries, which is optimal; `AnalyticExpansion` is
  the parent graph of the hybrid search, into which curves are spliced.
- **Mission protocol.** `MissionSpec` is the runtime and the node around it as a state machine over all callback orders,
  `MissionInvariants` and `MissionRedispatch` prove what holds over every run, `MissionProgress` what each request and
  callback brings about, and `MissionRuntime` that the objects with mutable fields follow the machine.
- **Cusp execution.** `PathHandler` prunes the plan; `CuspExecution` gates cusps, decides which speed profile is trusted and
  records every cusp passed; `LateMatch` has the runs in which a profile comes too late.
- **MCAP recovery.** `McapFormat`, `McapRecovery` and `McapRoundTrip` give the meaning of framed records with nested chunks,
  what any truncation recovers and the round trip; `McapContents` says what the tables hold of a file; `McapReader` is the reader with its offset and mutable tables. Record
  layout follows the MCAP specification, sections "Records", "Chunk (op=0x06)" and "Message (op=0x05)".
- **Smoother, drive controller, encoder.** `PathSmoother`, `DriveAdapter`, `EncoderState`.
- **Integer and filesystem algorithms.** `Bresenham`, `ScanRebinner`, and the map migration: `MapTree` (trees and names),
  `MapSafety` (what every state keeps), `MapRerun` (when a map is settled), `MapRun` (what a run makes of a root),
  `MapMigration` (the operations) and `MapRerunFails` (runs that are not idempotent).

Floats are exact reals; where the program tests for finiteness a separate non-finite value stands for the rest. Square
roots, distances, curve samples, transforms, profile and bundle validation are parameters with the laws they need. Clocks,
cancellation, action servers and disk faults are choices of the environment, so the statements hold for all of them.

What the code does differently from what its comments suggest:

- Splicing a curve that starts at the goal itself closes a cycle of parents exactly when a sample leaves the goal's cell
  (`SetAnalyticPath`); the search never does so, because a curve from the goal to itself is below the least length
  (src/nav2_smac_planner/src/analytic_expansion.cpp:189).
- A profile matched late, when the plan is already pruned past a stop it marks, does not hold the index back. With the index
  one past the stop the unsigned window is empty and every cycle fails; farther past it the window is the whole remaining
  plan and the stop is ignored (`WindowPastCusp`, and `LateMatch` for runs that get there). `ReceiveProfile` says exactly
  when a match is in time.
- Without an active cusp and with a first spacing above the search distance, the start of the stretch is an iterator before
  the beginning of the plan (`FindBegin`); the model reports this case as an outcome of its own.
- An update of the smoother cannot leave the range of the values it mixes exactly for weights with data + 2 smooth at most 1
  (`StaysBetween`, `OvershootsOtherwise`), and then no waypoint leaves the input's box. The code accepts larger weights; for
  paths of three poses the exact weights are given (`ThreePosesStay`, `ThreePosesLeave`).
- The trial poses of a curve are not fully undone when the curve meets a node twice (`RestoredExactly`).
- The migration script calls itself idempotent. A second run is a no-op exactly when nothing is left over before the first
  (`MigrateTwice`), provided no two maps that get published share a raster: such a map must not have a skipped file that
  the next run takes up. That happens when the YAML names another raster, under the root or elsewhere, while `<id>.pgm` is
  there too, or when the raster has the extension of a core file (`SecondRunMovesRaster` is such a run).
- After a failure the same mission stays barred even across an invalidation, as long as the pose stays and no select is
  accepted: an invalidation drops the mission, and only a select brings one back.

## Model

| member | source | states |
|---|---|---|
| BestFirstSearch.CheapestOpenIsExact | src/nav2_smac_planner/src/node_hybrid.cpp:611-617 | in a settled state, an open node of least cost plus consistent heuristic has the exact cheapest path cost, whatever the heuristic's target |
| BestFirstSearch.CloseAndRelax | src/nav2_smac_planner/src/node_hybrid.cpp:616-686 | closing a node of exact cost and relaxing all its edges leaves the state settled: every closed cost is exact and every open cost is the best over closed predecessors |
| BestFirstSearch.FrontIsExact | src/nav2_smac_planner/src/node_hybrid.cpp:604-615 | with stale duplicates in the heap, the front entry is either closed already or has its exact cost |
| BestFirstSearch.CheapestEntry | src/nav2_smac_planner/src/node_hybrid.cpp:604-609 | the entry taken from the heap has the least priority of all entries |
| BestFirstSearch.PushKeepsPriorities | src/nav2_smac_planner/src/node_hybrid.cpp:675-683 | lowering an open cost and queueing it again leaves a current entry for every open node |
| BestFirstSearch.PopKeepsPriorities | src/nav2_smac_planner/src/node_hybrid.cpp:605-617 | removing an entry loses no open node's current entry once its own node is closed |
| BestFirstSearch.ExhaustedIsComplete | src/nav2_smac_planner/src/node_hybrid.cpp:604-691 | when nothing is open, exactly the nodes with a path from the source have a cost |
| BestFirstSearch.ExactIsUnique | src/nav2_smac_planner/src/node_hybrid.cpp:542-575 | a node has at most one exact cost |
| BestFirstSearch.PathByEdges | src/nav2_smac_planner/src/node_hybrid.cpp:620-675 | a path of the reference graph starts at the source and goes along an edge at every step |
| Grid.StepLengthIsNorm | src/nav2_smac_planner/src/node_hybrid.cpp:666-672 | the table's step length 1 or the root of 2 is the Euclidean distance of the two cells |
| Grid.StepChangesDistance | src/nav2_smac_planner/src/node_hybrid.cpp:478-485 | a step to an 8-adjacent cell changes the Euclidean distance to any point by at most the step length |
| Grid.Triangle | src/nav2_smac_planner/src/node_hybrid.cpp:478-485 | the triangle inequality of the Euclidean norm, from a square root alone |
| Grid.DistanceIsEuclidean | src/nav2_smac_planner/src/node_2d.cpp:85-95 | the distance is the nonnegative number whose square is the sum of the squared coordinate differences |
| ObstacleHeuristic.EstimateConsistent | src/nav2_smac_planner/src/node_hybrid.cpp:611-615 | for every target cell the distance estimate is consistent with the travel costs, for every nonnegative cost penalty, linear or quadratic |
| ObstacleHeuristic.OffsetNeverWraps | src/nav2_smac_planner/src/node_hybrid.cpp:620-662 | an index offset that passes the bounds and border filters leads to an 8-adjacent cell: no row wrap and no unsigned underflow |
| ObstacleHeuristic.OffsetsCoverNeighbours | src/nav2_smac_planner/src/node_hybrid.cpp:599-602 | every 8-adjacent cell is reached by one of the eight offsets |
| ObstacleHeuristic.OffsetsAreEdges | src/nav2_smac_planner/src/node_hybrid.cpp:620-675 | the filtered offsets of a cell are exactly the edges of the reference grid graph, with its weights |
| ObstacleHeuristic.ExpansionSettles | src/nav2_smac_planner/src/node_hybrid.cpp:616-691 | after the eight offsets of a newly closed cell the whole table is settled again |
| ObstacleHeuristic.PrioritisedIsQueued | src/nav2_smac_planner/src/node_hybrid.cpp:585-691 | a cell is negative exactly when it is queued and not closed, and only known cells are queued |
| ObstacleHeuristic.ClosedAnswers | src/nav2_smac_planner/src/node_hybrid.cpp:572-575 | a positive cell holds the only answer the reference graph admits |
| ObstacleHeuristic.ExhaustedAnswers | src/nav2_smac_planner/src/node_hybrid.cpp:604-712 | when the heap runs empty, a zero cell is one that no path reaches |
| ObstacleHeuristic.AnswerIsUnique | src/nav2_smac_planner/src/node_hybrid.cpp:542-713 | two answers for a cell, from queries in any order and number, are equal |
| ObstacleHeuristic.CellOnTable | src/nav2_smac_planner/src/node_hybrid.cpp:557-570 | the cell of a point on the map holds the point: its column and row are the floors of the coordinates, or of their halves when downsampling |
| ObstacleHeuristic.OneCellContains | src/nav2_smac_planner/src/node_hybrid.cpp:557-570 | no other cell holds it |
| ObstacleHeuristic.BlockCostIsLeast | src/nav2_smac_planner/src/node_hybrid.cpp:629-645 | the cost of a block of two by two is at most that of each of its map cells and equal to one of them |
| ObstacleHeuristic.CellCostIsLeast | src/nav2_smac_planner/src/node_hybrid.cpp:629-645 | the cost of a table cell is the least cost of the map cells under it, one or up to four |
| ObstacleHeuristic.PenaltyScale | src/nav2_smac_planner/src/node_hybrid.cpp:666-672 | the penalty is 0 at cost 0, the cost penalty at cost 252, and in between linear or quadratic in the cost |
| ObstacleHeuristic.EnterableOnMap | src/nav2_smac_planner/src/node_hybrid.cpp:647-662 | a cell can be entered exactly when some map cell under it costs less than 253 and it is more than three cells from every side |
| ObstacleHeuristic.GraphOnMap | src/nav2_smac_planner/src/node_hybrid.cpp:620-672 | the reference graph on the map itself: the steps between touching cells, and their lengths and penalties |
| ObstacleHeuristic.ObstacleTable.Reset | src/nav2_smac_planner/src/node_hybrid.cpp:487-540 | the goal is the cell that holds the goal's coordinates; the table becomes all zero but for its tiny open seed, and the invariant of the table and heap holds; clearing overruns the table exactly when it shrinks |
| ObstacleHeuristic.ObstacleTable.Reprioritise | src/nav2_smac_planner/src/node_hybrid.cpp:583-591 | every heap entry gets the priority of the new target; the open cells stay queued and the table is unchanged |
| ObstacleHeuristic.ObstacleTable.RelaxOffset | src/nav2_smac_planner/src/node_hybrid.cpp:620-685 | one offset: the edge, if it is one, is relaxed, everything else is unchanged, and every open cell is still queued with the right priority |
| ObstacleHeuristic.ObstacleTable.RelaxNeighbours | src/nav2_smac_planner/src/node_hybrid.cpp:599-686 | all eight offsets of a closed cell are relaxed |
| ObstacleHeuristic.ObstacleTable.PopFront | src/nav2_smac_planner/src/node_hybrid.cpp:605-617 | a popped open cell is closed with its exact cost; a popped closed cell changes nothing |
| ObstacleHeuristic.ObstacleTable.ExpandFront | src/nav2_smac_planner/src/node_hybrid.cpp:604-691 | one turn keeps the invariant and either closes a cell or shortens the heap |
| ObstacleHeuristic.ObstacleTable.ExpandUntilClosed | src/nav2_smac_planner/src/node_hybrid.cpp:604-691 | the loop terminates by the number of unclosed cells and the heap length, with the start closed or nothing left open |
| ObstacleHeuristic.ObstacleTable.Query | src/nav2_smac_planner/src/node_hybrid.cpp:542-713 | for a point on the map, in every state reachable by queries since a reset, the answer is that of the cell which holds the point: never negative, 0 exactly when the cell is unreachable, and otherwise the seed plus the exact cheapest 8-connected cost from the goal, doubled when downsampling; cells closed before keep their value |
| AStar2D.GoalDistanceConsistent | src/nav2_smac_planner/src/node_2d.cpp:68-95 | the distance to the continuous goal coordinates is consistent with the traversal costs and nonnegative, wherever the goal lies in or off its cell |
| AStar2D.OffsetsCoverNeighbours | src/nav2_smac_planner/src/node_2d.cpp:110-153 | under 64-bit unsigned index arithmetic every 8-adjacent cell on the map is the target of one offset |
| AStar2D.NeighborsComplete | src/nav2_smac_planner/src/node_2d.cpp:114-153 | the neighbours found are, apart from visited ones, all successors in the reference graph |
| AStar2D.ChainIsPath | src/nav2_smac_planner/src/a_star.cpp:367-377 | from any node with a cost, the parents lead to the start along a path whose cost is the accumulated cost |
| AStar2D.Reparent | src/nav2_smac_planner/src/a_star.cpp:371-373 | giving an unvisited node a visited parent keeps every parent link sound and acyclic |
| AStar2D.NextIsExact | src/nav2_smac_planner/src/a_star.cpp:319-337 | the node popped, if not yet visited, has its exact cost despite duplicate entries |
| AStar2D.Exhausted | src/nav2_smac_planner/src/a_star.cpp:306-386 | with an empty queue and the goal unvisited, no collision-free path to the goal exists |
| AStar2D.CollidesMeansBarred | src/nav2_smac_planner/src/collision_checker.cpp:172-183 | a cell collides exactly when its cost is 253 or 254, or 255 where unknown space may not be traversed |
| AStar2D.GraphOnMap | src/nav2_smac_planner/src/node_2d.cpp:68-84 | the reference graph on the map itself: the steps onto touching cells that are not barred, and what each costs by the child's cell cost |
| AStar2D.BacktraceIsDrivable | src/nav2_smac_planner/src/node_2d.cpp:155-173 | a backtraced path leads through touching cells of the map, none of them barred but possibly the start |
| AStar2D.Search2D.SetStart | src/nav2_smac_planner/src/a_star.cpp:137-151 | a start with a third dimension is refused with nothing changed; otherwise its cell is the start and in the graph |
| AStar2D.Search2D.SetGoal | src/nav2_smac_planner/src/a_star.cpp:191-207 | a goal with a third dimension is refused; otherwise its cell and continuous coordinates are recorded |
| AStar2D.Search2D.IsNodeValid | src/nav2_smac_planner/src/node_2d.cpp:54-66 | the collision state is computed once, then answered from the cache, and agrees with the costmap |
| AStar2D.Search2D.GetNeighbors | src/nav2_smac_planner/src/node_2d.cpp:114-153 | exactly the unvisited collision-free 8-neighbours are returned; costs, parents and visited flags are unchanged |
| AStar2D.Search2D.PushWithHeuristic | src/nav2_smac_planner/src/a_star.cpp:416-437 | the node is queued with its priority, and the closest node so far is remembered |
| AStar2D.Search2D.RelaxNeighbor | src/nav2_smac_planner/src/a_star.cpp:367-377 | a strictly cheaper approach replaces cost and parent and is queued; the search invariant holds |
| AStar2D.Search2D.Expand | src/nav2_smac_planner/src/a_star.cpp:358-378 | all neighbours of the visited node are relaxed, so the search is settled again |
| AStar2D.Search2D.GetNextNode | src/nav2_smac_planner/src/a_star.cpp:319-337 | the popped node is skipped if visited, otherwise it is marked visited with exact cost |
| AStar2D.Search2D.BacktracePath | src/nav2_smac_planner/src/node_2d.cpp:155-173 | the cells from a node back to the start form a path of the accumulated cost; false exactly at the start |
| AStar2D.Search2D.Run | src/nav2_smac_planner/src/a_star.cpp:306-386 | through the goal test the cost is optimal and the path is the goal-to-start one, a tolerance exit returns a sound path to the closest node reached, an empty queue means unreachable, and without a path no node reached is within tolerance; the iteration limit is returned only after that many nodes were visited, and cancellation and timeout only if the environment asked for them |
| AStar2D.Search2D.CreatePath | src/nav2_smac_planner/src/a_star.cpp:236-387 | on a fresh graph: invalid inputs are reported exactly when they hold, an occupied goal exactly when its cost is 253 or 254, or 255 without traversing unknown space; every path returned goes through touching cells whose costs, apart from the start's, are below 253 or 255 with unknown space traversed; one returned at the goal is a cheapest one, one within tolerance leads to the closest node reached; the iteration limit needs that many visited nodes and none within tolerance |
| AnalyticExpansion.TraceEndsAtStart | src/nav2_smac_planner/src/node_hybrid.cpp:871-892 | following parents from a visited node, or one with a parent, ends at the start |
| AnalyticExpansion.TraceUnchanged | src/nav2_smac_planner/src/analytic_expansion.cpp:304-317 | rewriting unvisited nodes and adding nodes leaves the trace of every visited node as it was |
| AnalyticExpansion.Planner.Visit | src/nav2_smac_planner/src/a_star.cpp:336-337 | marking a node visited keeps parents acyclic |
| AnalyticExpansion.Planner.SetParent | src/nav2_smac_planner/src/a_star.cpp:370-373 | an unvisited node may get any visited parent; parents stay acyclic |
| AnalyticExpansion.Planner.BacktracePath | src/nav2_smac_planner/src/node_hybrid.cpp:871-892 | terminates with exactly the trace, and is false exactly when there is no parent |
| AnalyticExpansion.Planner.Place | src/nav2_smac_planner/src/analytic_expansion.cpp:304-316 | a sample outside the goal's cell extends the chain by its pose; a node already visited is replaced by a fresh detached copy |
| AnalyticExpansion.Planner.Lay | src/nav2_smac_planner/src/analytic_expansion.cpp:303-317 | the samples are chained one after another onto the node, repeated and visited nodes included |
| AnalyticExpansion.PlacedAre | src/nav2_smac_planner/src/analytic_expansion.cpp:303-317 | the samples that become nodes are exactly those outside the goal's cell, the last of the curve first |
| AnalyticExpansion.Planner.Close | src/nav2_smac_planner/src/analytic_expansion.cpp:318-323 | the goal hangs on the end of the curve |
| AnalyticExpansion.Planner.SetAnalyticPath | src/nav2_smac_planner/src/analytic_expansion.cpp:295-324 | from a node other than the goal the trace from the goal is the goal, the curve backwards and the node's old trace; from the goal itself the parents form a cycle exactly when some sample leaves the goal's cell |
| AnalyticExpansion.Planner.Ancestor | src/nav2_smac_planner/src/analytic_expansion.cpp:86-108 | the node reached by following parents, the given number of hops or up to the start, and it is visited |
| AnalyticExpansion.Planner.Expand | src/nav2_smac_planner/src/a_star.cpp:358-378 | every move that improves an unvisited node hangs it on the expanded node and queues it, nothing is hung on any other node, visited nodes stay as they are, and every node with a parent is visited or queued |
| AnalyticExpansion.RestoredExactly | src/nav2_smac_planner/src/analytic_expansion.cpp:203-247 | trying a curve and writing the saved poses back leaves all poses as they were, whatever they were, exactly when the curve meets no node twice |
| AnalyticExpansion.RepeatedKeepsTrialPose | src/nav2_smac_planner/src/analytic_expansion.cpp:282-286 | a node that the curve meets again keeps the trial pose of its meeting before the last |
| AnalyticExpansion.Planner.TryPoses | src/nav2_smac_planner/src/analytic_expansion.cpp:213-235 | every node holds the last trial pose written to it, and each saved pose is the one found at its sample |
| AnalyticExpansion.Planner.Trial | src/nav2_smac_planner/src/analytic_expansion.cpp:203-286 | after the write-back every node has the pose that the saves, written first to last, leave it; parents, visits and ranks are untouched |
| AnalyticExpansion.Planner.Splice | src/nav2_smac_planner/src/analytic_expansion.cpp:83-155 | a path is found: it ends at the start, and unless the curve meets a node twice it is the goal, the placed samples backwards and the old trace of the ancestor |
| AnalyticExpansion.Planner.Turn | src/nav2_smac_planner/src/a_star.cpp:319-378 | a node popped for the first time ends the search with a path if it is the goal, other than the start, or if a curve was found, or if the best node settles it, and otherwise its moves are made; a found path is the trace of the goal or of the best node |
| AnalyticExpansion.Planner.CreatePath | src/nav2_smac_planner/src/a_star.cpp:260-387 | over a whole search: a found path is the trace of the goal or of the best node and ends at the start; without one no curve was spliced in, the goal was not popped, nothing came close, and unless all turns were made every node that was reached was visited |
| MissionInvariants.StepKeepsInv | src/runner_bringup/runner_bringup/navigation_runtime.py:630-910 | every event, whatever the action servers do in it, keeps: in flight iff dispatching, active or canceling, iff exactly one of pending dispatch, send future and goal handle exists |
| MissionInvariants.RunKeepsInv | src/runner_bringup/runner_bringup/navigation_runtime.py:190-498 | that invariant after every event sequence from start-up |
| MissionInvariants.OneGoalAtATime | src/runner_bringup/runner_bringup/navigation_runtime.py:676-894 | in every run at most one sent goal is unresolved, and it is the current generation's |
| MissionInvariants.HistoriesGrow | src/runner_bringup/runner_bringup/navigation_runtime.py:297-438 | no event takes back an ended generation, an accepted revision or a sent goal |
| MissionInvariants.HistoriesOfARun | src/runner_bringup/runner_bringup/navigation_runtime.py:244-295 | over the whole run accepted revisions strictly increase and each generation ends at most once |
| MissionInvariants.EndKeeps | src/runner_bringup/runner_bringup/navigation_runtime.py:388-426 | ending the live generation records it once and leaves nothing of it held |
| MissionInvariants.ResolveKeeps | src/runner_bringup/runner_bringup/navigation_runtime.py:693-707 | a cancel that finds nothing delivered ends the generation on the spot |
| MissionInvariants.CancelKeeps | src/runner_bringup/runner_bringup/navigation_runtime.py:456-462 | cancelling what is in flight keeps the invariant, whether pending, sent or accepted |
| MissionInvariants.DispatchKeeps | src/runner_bringup/runner_bringup/navigation_runtime.py:297-334 | a dispatch keeps the invariant, including the residual cancel and a send that raises |
| MissionInvariants.SelectKeeps | src/runner_bringup/runner_bringup/navigation_runtime.py:244-295 | a selection, accepted or not, in flight or not, keeps the invariant |
| MissionInvariants.ObserveKeeps | src/runner_bringup/runner_bringup/navigation_runtime.py:217-242 | a mode report, same session or not, keeps the invariant |
| MissionInvariants.GoalResponseKeeps | src/runner_bringup/runner_bringup/navigation_runtime.py:757-782 | an acceptance, rejection or raised send, late or current, keeps the invariant |
| MissionInvariants.ResultKeeps | src/runner_bringup/runner_bringup/navigation_runtime.py:800-823 | a result for a stale or the live future keeps the invariant |
| MissionInvariants.TickKeeps | src/runner_bringup/runner_bringup/navigation_runtime.py:898-911 | the timer's retries keep the invariant |
| MissionInvariants.HeldByStep | src/runner_bringup/runner_bringup/navigation_runtime.py:217-295 | a mission held after an event was just accepted or was held before in the same epoch and map |
| MissionInvariants.HeldSinceItsSelect | src/runner_bringup/runner_bringup/navigation_runtime.py:217-295 | a held mission was accepted by a selection of this run and has been held ever since in one AUTONOMY session, under one epoch and map |
| MissionRedispatch.StepSendsHeld | src/runner_bringup/runner_bringup/navigation_runtime.py:714-755 | every goal sent is the mission held at that moment |
| MissionRedispatch.FailureBars | src/runner_bringup/runner_bringup/navigation_runtime.py:388-426 | a failed result with a known pose bars the mission that was in flight |
| MissionRedispatch.BarHolds | src/runner_bringup/runner_bringup/navigation_runtime.py:309-317 | while barred, an event that neither is an accepted select nor moves the robot away sends no goal of that mission and keeps the bar |
| MissionRedispatch.NoRedispatchStorm | src/runner_bringup/runner_bringup/navigation_runtime.py:484-498 | for every later quiet event sequence no goal of the barred mission is sent |
| MissionRedispatch.FailedMissionIsNotResent | src/runner_bringup/runner_bringup/navigation_runtime.py:388-422 | in any run, after a failed result with a known pose no goal with that mission id is sent until an accepted select or an observed pose outside the tolerance |
| MissionProgress.DispatchSends | src/runner_bringup/runner_bringup/navigation_runtime.py:297-334 | in every state of a run, a dispatch with a mission held, nothing in flight and no failure of it here sends exactly that mission under the next generation and is dispatching; it stays pending if the server is not ready, and fails the generation if the send raises |
| MissionProgress.DispatchRefused | src/runner_bringup/runner_bringup/navigation_runtime.py:297-317 | any other dispatch sends and changes nothing, but for the error code of the failure that bars it |
| MissionProgress.SelectHolds | src/runner_bringup/runner_bringup/navigation_runtime.py:244-295 | a selection with id, kind, valid poses, AUTONOMY, epoch, map and a revision above all accepted ones is held, and cancels what is in flight; any other changes nothing |
| MissionProgress.CancelCancels | src/runner_bringup/runner_bringup/navigation_runtime.py:336-349 | a cancel ends a pending dispatch at once, asks a delivered goal to cancel, and keeps the mission |
| MissionProgress.ModeReport | src/runner_bringup/runner_bringup/navigation_runtime.py:217-242 | a mode report is taken over; the mission is kept exactly in the same AUTONOMY session, otherwise what is in flight is canceled |
| MissionProgress.ResponseOutcome | src/runner_bringup/runner_bringup/navigation_runtime.py:757-782 | the live send future: rejected or raised it ends FAILED, accepted it is ACTIVE, or CANCELING with the cancel asked for; the result is requested |
| MissionProgress.ResultOutcome | src/runner_bringup/runner_bringup/navigation_runtime.py:388-426 | the live result: status 4 ends SUCCEEDED, 5 CANCELED and any other FAILED, the generation is ended, and only a failure with a known pose is remembered |
| MissionProgress.TickProceeds | src/runner_bringup/runner_bringup/navigation_runtime.py:898-911 | the timer sends a pending goal once the server is ready, and asks again for a cancel or a result that is due |
| MissionProgress.FeedbackActivates | src/runner_bringup/runner_bringup/navigation_runtime.py:374-381 | feedback of the live generation makes a dispatched goal active and executing; any other changes nothing |
| MissionProgress.PoseIsObserved | src/runner_bringup/runner_bringup/navigation_runtime.py:383-386 | a valid odometry pose is where the robot is from then on, and nothing else changes; an invalid one changes nothing |
| MissionProgress.UnusablePose | src/runner_bringup/runner_bringup/navigation_runtime.py:134-144 | a pose with a wrong number of components, or one that is not finite, is invalid in every frame |
| MissionProgress.SelectedMissionIsSent | src/runner_bringup/runner_bringup/navigation_runtime.py:217-334 | from any state of any run with nothing in flight: AUTONOMY reported, a well-formed mission of that session with a new revision selected, then dispatched with the server ready: it is sent under the next generation and the state is DISPATCHING |
| MissionProgress.BlockedMeansFailedHere | src/runner_bringup/runner_bringup/navigation_runtime.py:484-498 | the bar holds exactly when the held mission failed last within 0.10 m and the yaw tolerance of where the robot is |
| MissionProgress.FinitePose | src/runner_bringup/runner_bringup/navigation_runtime.py:134-144 | a pose of finite components is valid exactly in its own frame with a quaternion norm of at least 1e-6 |
| MissionRuntime.Runtime.Invalidate | src/runner_bringup/runner_bringup/navigation_runtime.py:464-478 | drops the mission and its failure and cancels what is in flight |
| MissionRuntime.Runtime.ObserveRuntime | src/runner_bringup/runner_bringup/navigation_runtime.py:217-242 | a new session key or lost autonomy invalidates; the same key does not |
| MissionRuntime.Runtime.Accepts | src/runner_bringup/runner_bringup/navigation_runtime.py:244-283 | the selection is accepted exactly under the machine's condition: id, kind, valid map-frame poses, count, autonomy, epoch, map and a new revision |
| MissionRuntime.Runtime.Select | src/runner_bringup/runner_bringup/navigation_runtime.py:244-295 | refines the machine's select |
| MissionRuntime.Runtime.Dispatch | src/runner_bringup/runner_bringup/navigation_runtime.py:297-334 | refines the machine's dispatch, with the refused redispatch and the residual cancel before the goal |
| MissionRuntime.Runtime.Cancel | src/runner_bringup/runner_bringup/navigation_runtime.py:336-349 | refines the machine's cancel |
| MissionRuntime.Runtime.OnGoalResponse | src/runner_bringup/runner_bringup/navigation_runtime.py:351-372 | refines the machine's goal response: stale ignored, rejection ends, acceptance of a canceled goal cancels it |
| MissionRuntime.Runtime.OnFeedback | src/runner_bringup/runner_bringup/navigation_runtime.py:374-381 | stale feedback changes nothing; otherwise dispatching becomes active |
| MissionRuntime.Runtime.ObserveRobotPose | src/runner_bringup/runner_bringup/navigation_runtime.py:383-386 | only a valid odometry pose is kept |
| MissionRuntime.Runtime.OnResult | src/runner_bringup/runner_bringup/navigation_runtime.py:388-426 | a stale result changes nothing; otherwise the generation ends and only a failure with a known pose is remembered |
| MissionRuntime.RuntimeNode.PumpSend | src/runner_bringup/runner_bringup/navigation_runtime.py:714-755 | hands over the pending goal only if current, not canceling, nothing outstanding and the server ready |
| MissionRuntime.RuntimeNode.PumpCancel | src/runner_bringup/runner_bringup/navigation_runtime.py:825-849 | asks for a cancel only with a handle, none outstanding and attempts left |
| MissionRuntime.RuntimeNode.ResolveUndeliveredCancel | src/runner_bringup/runner_bringup/navigation_runtime.py:693-707 | a cancel with nothing delivered becomes a canceled result |
| MissionRuntime.RuntimeNode.RunCommands | src/runner_bringup/runner_bringup/navigation_runtime.py:676-691 | commands run in order, then an undelivered cancel is resolved |
| MissionRuntime.RuntimeNode.GoalResponseCallback | src/runner_bringup/runner_bringup/navigation_runtime.py:757-782 | a callback of another future is ignored; the handle is kept only while current |
| MissionRuntime.RuntimeNode.ResultCallback | src/runner_bringup/runner_bringup/navigation_runtime.py:800-823 | a callback of another future is ignored; otherwise the action is cleared and the result delivered |
| MissionRuntime.RuntimeNode.Tick | src/runner_bringup/runner_bringup/navigation_runtime.py:898-911 | send, cancel and result retries in that order |
| MissionRuntime.RuntimeNode.Handle | src/runner_bringup/runner_bringup/navigation_runtime.py:570-911 | any event takes the node where the machine goes, so the invariant of all runs is the node's |
| McapFormat.LeRoundTrip | tools/analyze_localization_bag.py:61-68 | little-endian integers read back |
| McapFormat.FrameRoundTrip | tools/analyze_localization_bag.py:449-460 | a serialised record is read back, whatever follows it |
| McapFormat.FramesRoundTrip | tools/analyze_localization_bag.py:449-460 | a serialised record list reads back as that list |
| McapFormat.FramesOfPrefix | tools/analyze_localization_bag.py:527-546 | the complete records of any prefix of any bytes are exactly those of the whole that end within it |
| McapRecovery.TopLoopProcessesFrames | tools/analyze_localization_bag.py:527-556 | the loop processes exactly the complete frames, in order, until a fault or the footer |
| McapRecovery.ProcessExtends | tools/analyze_localization_bag.py:472-519 | processing a record, faulty or not, only appends messages |
| McapRecovery.TruncationRecoversPrefix | tools/analyze_localization_bag.py:463-571 | for every byte string with the magic and every cut after it: the tables recovered are those of the records wholly before the cut, and the messages a prefix of the full file's |
| McapRoundTrip.ProcessEncoded | tools/analyze_localization_bag.py:472-519 | processing a serialised schema, channel, message or nested chunk does to the tables what the record means |
| McapRoundTrip.RecoverEncoded | tools/analyze_localization_bag.py:463-571 | a serialised file frames exactly its records and yields the tables they mean |
| McapRoundTrip.TruncatedFileRecovers | tools/analyze_localization_bag.py:463-571 | a cut serialised file yields exactly its wholly contained top-level records, a prefix of the messages |
| McapRoundTrip.ChunksAreTransparent | tools/analyze_localization_bag.py:516-519 | however records are grouped into nested chunks, the tables are those of the flat record list |
| McapContents.KnownChannels | tools/analyze_localization_bag.py:478-499 | a channel is known exactly when a record before declares it, with the latest topic, and reading goes on exactly while messages are on known channels |
| McapContents.MessagesAre | tools/analyze_localization_bag.py:489-515 | the messages are exactly those on retained topics, with topic, data and receive time, in order |
| McapContents.CountIs | tools/analyze_localization_bag.py:503-503 | the count is that of all messages, on whatever topic |
| McapContents.SpanIs | tools/analyze_localization_bag.py:504-513 | start and end are the least and the greatest receive time of all messages |
| McapContents.RecoveredContents | tools/analyze_localization_bag.py:463-571 | all of this of the bytes of any serialised file whose messages are on declared channels, however its records are grouped into chunks |
| McapReader.BufferReader.Take | tools/analyze_localization_bag.py:53-59 | the next bytes and the advanced offset, or failure with the offset unchanged when short or negative |
| McapReader.BufferReader.String | tools/analyze_localization_bag.py:70-71 | the length-prefixed UTF-8 string at the offset, or failure |
| McapReader.BufferReader.Bytes64 | tools/analyze_localization_bag.py:73-74 | the length-prefixed bytes at the offset, or failure |
| McapReader.ReadChunk | tools/analyze_localization_bag.py:419-446 | the nested bytes of an uncompressed chunk whose size and checksum agree, else failure |
| McapReader.Recovery.ProcessRecord | tools/analyze_localization_bag.py:472-519 | the mutable tables follow the value-level processing, with the state at a fault kept |
| McapReader.Recovery.ProcessNestedRecords | tools/analyze_localization_bag.py:449-460 | nested records are processed up to the first cut or faulty one |
| McapReader.Recovery.RecoverRecords | tools/analyze_localization_bag.py:527-556 | the stream loop equals the value-level loop: tables, error and footer flag |
| McapReader.RecoverFile | tools/analyze_localization_bag.py:463-571 | a file without the magic is refused, any other yields the value-level recovery and truncation flag |
| PathHandler.FirstAfterIntegratedDistance | src/nav2_regulated_pure_pursuit_controller/src/path_handler.cpp:102-104 | the first pose whose arc length exceeds the limit, or the end |
| PathHandler.ClosestPose | src/nav2_regulated_pure_pursuit_controller/src/path_handler.cpp:119-124 | the closest pose of the window |
| PathHandler.ArcOfSuffix | src/nav2_regulated_pure_pursuit_controller/src/path_handler.cpp:178-183 | arc lengths of a pruned plan and of the pruned part add up |
| PathHandler.Handler.SetPlan | src/nav2_regulated_pure_pursuit_controller/src/path_handler.cpp:49-56 | nothing is pruned, progress and segments restart |
| PathHandler.Handler.SetSegmentTerminalIndices | src/nav2_regulated_pure_pursuit_controller/src/path_handler.cpp:58-63 | the terminals are replaced and the first segment is active |
| PathHandler.Handler.AdvanceSegment | src/nav2_regulated_pure_pursuit_controller/src/path_handler.cpp:71-81 | advances exactly at a terminal that is not the last, bumping the offset; the index is still not past the active cusp |
| PathHandler.Handler.FindBegin | src/nav2_regulated_pure_pursuit_controller/src/path_handler.cpp:102-134 | the window and the closest pose in it; the start lies before the plan exactly when no cusp is active and the first spacing exceeds the search distance |
| PathHandler.Handler.TakeStretch | src/nav2_regulated_pure_pursuit_controller/src/path_handler.cpp:136-172 | the longest stretch from the start that stays within the costmap and before the cusp, a single pose doubled; fails exactly when one of its poses cannot be transformed |
| PathHandler.Handler.Prune | src/nav2_regulated_pure_pursuit_controller/src/path_handler.cpp:176-186 | index plus remaining poses stays the original count, the plan is that suffix and the offset grows by the pruned arc length |
| PathHandler.Handler.Locate | src/nav2_regulated_pure_pursuit_controller/src/path_handler.cpp:83-172 | each error exactly when it is the first that applies; otherwise the cut is at the closest pose of the window and the stretch from there is the longest |
| PathHandler.Handler.TransformGlobalPlan | src/nav2_regulated_pure_pursuit_controller/src/path_handler.cpp:83-193 | the plan is pruned to that cut and never past the active cusp; counted on the plan as it was set, what is handed over ends at most one pose after the index of the active stop, holds no pose beyond the extent, and is shorter than up to that stop or the plan's end only at a pose beyond it; every error raised before pruning leaves the handler as it was, an empty stretch is one after it |
| PathHandler.Handler.EligibleOnOriginal | src/nav2_regulated_pure_pursuit_controller/src/path_handler.cpp:138-149 | before the index has passed the active stop, the poses that may be handed over end with that stop, or with the plan when there is none |
| PathHandler.Handler.CutIsHandedOver | src/nav2_regulated_pure_pursuit_controller/src/path_handler.cpp:136-172 | such a stretch, counted on the plan as it was set, ends at the active stop or where the next pose is beyond the extent |
| PathHandler.Handler.WindowPastCusp | src/nav2_regulated_pure_pursuit_controller/src/path_handler.cpp:106-114 | in unsigned arithmetic the window reaches up to the cusp while it lies ahead, is empty exactly when the index is one past it, and is the whole plan when the index is farther past |
| CuspExecution.StopPointsAreMarked | src/nav2_regulated_pure_pursuit_controller/src/regulated_pure_pursuit_controller.cpp:663-672 | the stops are exactly the points marked as stops, ascending |
| CuspExecution.TerminalsAscend | src/nav2_regulated_pure_pursuit_controller/src/regulated_pure_pursuit_controller.cpp:663-678 | the terminals ascend and end at the last point |
| CuspExecution.FirstStopAhead | src/nav2_regulated_pure_pursuit_controller/src/regulated_pure_pursuit_controller.cpp:663-678 | an index is not past the first stop exactly when no earlier point is marked |
| CuspExecution.LastTargetingIs | src/nav2_regulated_pure_pursuit_controller/src/regulated_pure_pursuit_controller.cpp:627-661 | a profile names a path by pose count, hash and stamp; of the profiles that do, the last is taken, and none only if none does |
| CuspExecution.CachedIsLatest | src/nav2_regulated_pure_pursuit_controller/src/regulated_pure_pursuit_controller.cpp:577-585 | despite eviction, the newest cached profile naming a path is the newest ever received that does |
| CuspExecution.Controller.ConfigureExecutionSegments | src/nav2_regulated_pure_pursuit_controller/src/regulated_pure_pursuit_controller.cpp:663-678 | the handler's terminals are those of the active profile |
| CuspExecution.Controller.MatchCachedProfile | src/nav2_regulated_pure_pursuit_controller/src/regulated_pure_pursuit_controller.cpp:627-661 | matches exactly when the latest cached profile naming the path is valid for it, and then holds that one |
| CuspExecution.Controller.SetPlan | src/nav2_regulated_pure_pursuit_controller/src/regulated_pure_pursuit_controller.cpp:562-575 | a match is made exactly when the latest cached profile naming the path is valid; terminals follow it or are empty, nothing is pruned and no wait is on |
| CuspExecution.Controller.Reconsider | src/nav2_regulated_pure_pursuit_controller/src/regulated_pure_pursuit_controller.cpp:592-616 | a match stays exactly when the new profile equals the matched one or does not name the path; otherwise terminals and wait are dropped |
| CuspExecution.Controller.ReceiveProfile | src/nav2_regulated_pure_pursuit_controller/src/regulated_pure_pursuit_controller.cpp:577-625 | a matched profile is always the latest one naming the path; a match made late holds the index back exactly when no pruned pose is a marked stop of it |
| CuspExecution.Controller.EncoderSample | src/nav2_regulated_pure_pursuit_controller/src/regulated_pure_pursuit_controller.cpp:113-120 | a sample is counted and is the latest |
| CuspExecution.Controller.UpdateCuspExecution | src/nav2_regulated_pure_pursuit_controller/src/regulated_pure_pursuit_controller.cpp:680-706 | the segment advances exactly at a cusp, while waiting there, with a fresh stationary sample received since the wait began; advancing ends the wait, and every passage is recorded with its wait and sample |
| CuspExecution.Controller.Cycle | src/nav2_regulated_pure_pursuit_controller/src/regulated_pure_pursuit_controller.cpp:239-245 | in one control cycle the index passes the active cusp only if the gate advanced, and the poses handed over never go past the stop that is then active; a cycle that succeeds waits exactly at a stop and does not wait on once a fresh stationary sample came after the wait began; a wait counts samples from its start; with an empty window the cycle fails and changes nothing |
| CuspExecution.Controller.Handle | src/nav2_regulated_pure_pursuit_controller/src/regulated_pure_pursuit_controller.cpp:562-706 | any plan, profile, sample or cycle keeps the record; a plan aligns the index with its stops, and only a match whose profile marks a pruned pose puts it past an active one |
| CuspExecution.Controller.StopsBehindWereWaitedAt | src/nav2_regulated_pure_pursuit_controller/src/regulated_pure_pursuit_controller.cpp:680-706 | unless a match came too late, every marked stop behind the pruned index has a recorded passage |
| CuspExecution.Controller.Run | src/nav2_regulated_pure_pursuit_controller/src/regulated_pure_pursuit_controller.cpp:562-706 | over every run each cusp was passed on a stationary, fresh sample received after the wait at that very stop began, no sample served two cusps, and unless a match since the last plan came too late no marked stop behind the index was skipped |
| LateMatch.MatchLate | src/nav2_regulated_pure_pursuit_controller/src/regulated_pure_pursuit_controller.cpp:618-624 | a plan pruned without a profile to any pose, then the profile: the index stands there with the stop still active |
| LateMatch.OnePast | src/nav2_regulated_pure_pursuit_controller/src/path_handler.cpp:106-114 | a run that ends one past the stop: the window is empty, the next cycle fails whatever its inputs, and the state that makes it fail stays |
| LateMatch.FartherPast | src/nav2_regulated_pure_pursuit_controller/src/path_handler.cpp:106-114 | runs that end farther past the stop: the window is the whole remaining plan |
| PathSmoother.StaysBetween | src/nav2_smac_planner/src/smoother.cpp:142-154 | for nonnegative weights with data + 2 smooth at most 1 an updated waypoint stays between the extremes of the four values it mixes |
| PathSmoother.OvershootsOtherwise | src/nav2_smac_planner/src/smoother.cpp:142-154 | for any larger nonnegative weights there are four values whose single update leaves their range |
| PathSmoother.Pulls | src/nav2_smac_planner/src/smoother.cpp:151-151 | each pull alone moves a waypoint by its weight's share of the distance to the original, or to a neighbour |
| PathSmoother.Smoother.SweepIsGaussSeidel | src/nav2_smac_planner/src/smoother.cpp:142-154 | in a sweep every inner waypoint is updated once, from its new predecessor and its old successor |
| PathSmoother.Smoother.ThreePosesStay | src/nav2_smac_planner/src/smoother.cpp:116-178 | a path of three poses stays in its box under any number of sweeps for nonnegative weights with smooth at most 1/2 and, unless smooth is 0, data + 2 smooth at most 2 |
| PathSmoother.Smoother.ThreePosesLeave | src/nav2_smac_planner/src/smoother.cpp:116-178 | under all other nonnegative weights a spike of three poses leaves its box within two sweeps |
| PathSmoother.Smoother.Sweep | src/nav2_smac_planner/src/smoother.cpp:142-175 | the in-place sweep is the Gauss-Seidel sweep and its change is how far the waypoints moved; it stops at the first waypoint that fails the cost check |
| PathSmoother.Smoother.SmoothImpl | src/nav2_smac_planner/src/smoother.cpp:98-190 | for all weights: a round ends with the first sweep whose change is below the tolerance and is then refined while refinements are left; it fails exactly at the iteration limit, out of time, or at a waypoint that fails the check; the result is what the complete sweeps give, with ends and count kept, and is the input or fully checked; with convex weights no waypoint leaves a box holding the input |
| PathSmoother.FindDirectionalPathSegments | src/nav2_smac_planner/src/smoother.cpp:217-265 | segments cover the path in order, meet exactly at reversals and rotations in place, and have none inside |
| DriveAdapter.FeedforwardInRange | src/runner_drive_adapter/runner_drive_adapter/drive_adapter.py:107-190 | in a valid configuration feedforward lies in the output range at every speed from the minimum moving to the maximum commanded one |
| DriveAdapter.EarlierDoNotApply | src/runner_drive_adapter/runner_drive_adapter/drive_adapter.py:55-70 | no reason earlier in the precedence than the one chosen applies |
| DriveAdapter.CascadeFollowsPrecedence | src/runner_drive_adapter/runner_drive_adapter/drive_adapter.py:646-672 | the order in which the code tests the reasons is the declared precedence |
| DriveAdapter.ClearExactly | src/runner_drive_adapter/runner_drive_adapter/drive_adapter.py:646-672 | the integrator moves exactly with a fresh finite moving command, a fresh encoder, no wheelspin, the matching direction, both outputs fresh and equal, two samples at most 0.5 s apart, an integral gain, and no push farther into saturation |
| DriveAdapter.ThrottleCorrects | src/runner_drive_adapter/runner_drive_adapter/drive_adapter.py:522-593 | the throttle is feedforward plus integrator in the output range without a fresh measurement, never less than that while the wheel is slower than the target, never more while it is faster, and by the gain unless at a limit |
| DriveAdapter.CandidateIntegrates | src/runner_drive_adapter/runner_drive_adapter/drive_adapter.py:558-580 | the integrator steps by gain, error and time, never down while the wheel is too slow nor up while it is too fast, within its bound |
| DriveAdapter.Adapter.SetLiveParameters | src/runner_drive_adapter/runner_drive_adapter/drive_adapter.py:324-339 | applied exactly when finite and valid, atomically; a new integral gain clears the integrator and its sample; the integrator bound holds |
| DriveAdapter.Adapter.TakeIntegrationDt | src/runner_drive_adapter/runner_drive_adapter/drive_adapter.py:635-644 | the interval since the previous sample that a cycle asked for, if positive |
| DriveAdapter.Adapter.WheelspinGuard | src/runner_drive_adapter/runner_drive_adapter/drive_adapter.py:699-721 | wheelspin is reported exactly when the excess held in every cycle since one at least the qualification time ago |
| DriveAdapter.Adapter.FeedbackReason | src/runner_drive_adapter/runner_drive_adapter/drive_adapter.py:646-697 | the first applicable reason of feedback, wheelspin, direction and arbitration |
| DriveAdapter.Adapter.UpdateIntegrator | src/runner_drive_adapter/runner_drive_adapter/drive_adapter.py:635-672 | of a moving cycle: the reason is the first applicable, and the integrator and the record of integrated intervals change only without one |
| DriveAdapter.Adapter.Drive | src/runner_drive_adapter/runner_drive_adapter/drive_adapter.py:453-634 | a moving cycle: first applicable reason, clamped signed output, integrator changed only without a reason |
| DriveAdapter.Adapter.Step | src/runner_drive_adapter/runner_drive_adapter/drive_adapter.py:453-672 | in every cycle the integrator is within its bound, the reason is the first applicable in the precedence, any reason leaves the integrator unchanged, none never pushes farther into saturation, the throttle and the integrator act against the speed error, and with nondecreasing stamps integrated intervals are disjoint |
| EncoderState.RateBounded | src/runner_encoder/runner_encoder/encoder_state.py:169-188 | within the lookback every estimate is between 2 and 10000 Hz |
| EncoderState.SteadyRate | src/runner_encoder/runner_encoder/encoder_state.py:169-188 | edges a constant gap apart, the newest no longer ago than the gap: the estimate is the reciprocal of the gap |
| EncoderState.RateIs | src/runner_encoder/runner_encoder/encoder_state.py:169-188 | the estimate is the average over the retained gaps, and at most one edge per time since the last once that exceeds the last gap |
| EncoderState.SpanAtLeast | src/runner_encoder/runner_encoder/encoder_state.py:102-110 | accepted edges are at least 100 microseconds apart, so a span bounds their number |
| EncoderState.HistoryDebounced | src/runner_encoder/runner_encoder/encoder_state.py:102-124 | the retained history has gaps of at least 100 microseconds |
| EncoderState.Encoder.Make | src/runner_encoder/runner_encoder/encoder_state.py:59-88 | starts stationary with nothing recorded |
| EncoderState.Encoder.UpdateDirection | src/runner_encoder/runner_encoder/encoder_state.py:90-100 | only a valid nonzero direction is remembered; the active one is unchanged |
| EncoderState.Encoder.PruneHistory | src/runner_encoder/runner_encoder/encoder_state.py:160-167 | drops a prefix: everything older than the lookback, never the newest |
| EncoderState.Encoder.RecordEdge | src/runner_encoder/runner_encoder/encoder_state.py:102-124 | an early edge changes nothing; an edge after a confirmed stop starts the epoch and latches the direction; any other extends the epoch with the direction unchanged |
| EncoderState.Encoder.TakeMeasurement | src/runner_encoder/runner_encoder/encoder_state.py:126-158 | stationary exactly on no edge, a clock gone backwards or a long enough silence; the rate is 0 or between 2 and 10000 Hz; the direction is unchanged |
| Bresenham.Line | src/runner_bringup/runner_bringup/navigation_bag_analyzer.py:61-77 | for all endpoints max(|dx|,|dy|)+1 cells from one end to the other, 8-adjacent, each within half a cell of the ideal line along the minor axis |
| Bresenham.TurnAlongX | src/runner_bringup/runner_bringup/navigation_bag_analyzer.py:71-77 | with x the longer axis each turn moves x once and keeps y within half a cell of the line |
| Bresenham.TurnAlongY | src/runner_bringup/runner_bringup/navigation_bag_analyzer.py:71-77 | the same with y the longer axis |
| Bresenham.EndsTogether | src/runner_bringup/runner_bringup/navigation_bag_analyzer.py:67-70 | at the end of the longer axis the shorter one has arrived |
| ScanRebinner.SameCount | src/runner_bringup/runner_bringup/scan_rebinner.py:40-48 | with as many sources as bins, copying already gives every bin its nearest source |
| ScanRebinner.TargetIsNearest | src/runner_bringup/runner_bringup/scan_rebinner.py:14-16 | the computed bin is a nearest integer, halves upward |
| ScanRebinner.Monotone | src/runner_bringup/runner_bringup/scan_rebinner.py:55-59 | later sources never fall into earlier bins |
| ScanRebinner.InRange | src/runner_bringup/runner_bringup/scan_rebinner.py:55-59 | all bins are in range, the first and last source at the ends |
| ScanRebinner.NoCollision | src/runner_bringup/runner_bringup/scan_rebinner.py:50-77 | with no more sources than bins no two share a bin |
| ScanRebinner.EveryBinFilled | src/runner_bringup/runner_bringup/scan_rebinner.py:50-77 | with at least as many sources as bins every bin receives one |
| ScanRebinner.SelectSources | src/runner_bringup/runner_bringup/scan_rebinner.py:50-77 | a bin holds a source falling into it none of which is nearer beyond the tie tolerance, or none if none falls into it |
| ScanRebinner.RebinScan | src/runner_bringup/runner_bringup/scan_rebinner.py:19-90 | too few bins or samples are refused exactly; every output bin holds the range and intensity of an angularly nearest source, or infinity and 0; no bin is empty with at least as many sources as bins, and no source is lost with at most as many |
| ScanRebinner.NoFartherIsAsNear | src/runner_bringup/runner_bringup/scan_rebinner.py:60-77 | nearest is meant on the angles: the source's angle against the bin's centre, with ties up to 1e-12 |
| MapTree.OwnerIsUnique | scripts/migrate_maps.py:71-93 | a legacy file name determines its map id |
| MapTree.NotAFlatNameOfALater | scripts/migrate_maps.py:93-93 | no id is a flat file name of an id that is migrated after it |
| MapTree.DiscoverLegacyIds | scripts/migrate_maps.py:76-93 | exactly the safe ids with a flat file under the root, strictly ascending |
| MapTree.NamedLegacy | scripts/migrate_maps.py:221-237 | with rasters named after their map, the files archived are the map's five flat files |
| MapSafety.StagingIsFree | scripts/migrate_maps.py:181-215 | no change inside the staging directory, complete or interrupted, affects what is kept |
| MapSafety.PublishKeeps | scripts/migrate_maps.py:217-218 | publishing under a free name keeps every file, directory and backup |
| MapSafety.MoveKeeps | scripts/migrate_maps.py:248-253 | moving a published map's file to a free backup name keeps every file at its old or backup path |
| MapSafety.MovedOnlyOncePublished | scripts/migrate_maps.py:146-152 | with rasters named after their map: in any state passed through, a file no longer at its path is in the backup with its content, and the one map it belongs to has a validated directory |
| MapRerun.Members | scripts/migrate_maps.py:225-237 | which of the map's flat files are archived: a core file unless the raster has its extension, the usual raster only if it is the one the YAML leads to |
| MapRerun.LeftoverExact | scripts/migrate_maps.py:221-254 | after a map was archived, the next run finds something to archive exactly when the tree before tells so: a skipped usual raster or a displaced core file, unless YAML and raster stay |
| MapRerun.BuildChanges | scripts/migrate_maps.py:140-218 | building a map that is not settled raises, publishes, or changes the staging directory, or archiving is due |
| MapRerun.ArchiveChanges | scripts/migrate_maps.py:237-254 | archiving that is due moves a file and says so |
| MapRerun.ProcessedSettles | scripts/migrate_maps.py:263-282 | migrating a map settles it exactly unless it is published and something is left over |
| MapRun.PublishedAsForeseen | scripts/migrate_maps.py:263-282 | in a root whose published maps share nothing (`Separate`): when its turn comes a map is published exactly if the tree at the start of the run says so, also when an earlier map frees its place |
| MapRun.DormantStaysSo | scripts/migrate_maps.py:263-282 | in such a root, a map that the tree at the start does not publish would not be published at any point of the run |
| MapRun.DormantTurn | scripts/migrate_maps.py:263-282 | in such a root, the turn of a map that is not published changes at most the staging directory and settles it |
| MapRun.NextMap | scripts/migrate_maps.py:263-282 | in such a root, migrating one more published map brings its files, backups and directory to the state foreseen from the start and leaves the earlier maps' |
| MapRun.KeepsGoing | scripts/migrate_maps.py:263-282 | in such a root, every turn of the run, of a published map or another, keeps the state foreseen |
| MapRun.RunSettles | scripts/migrate_maps.py:257-285 | in such a root, after a full run every map is settled exactly when nothing was left over before it, and what was left over is due next |
| MapRun.NamedIsClean | scripts/migrate_maps.py:229-235 | rasters named after their map share nothing and leave nothing over |
| MapMigration.MapRoot.FillStaging | scripts/migrate_maps.py:186-211 | the staged directory is the one built from the legacy contents, or none on a failing operation or validation |
| MapMigration.MapRoot.BuildNewBundle | scripts/migrate_maps.py:140-218 | per case of existing directory, incomplete bundle, dry run, blocked staging, failed or published build: the exact result and new tree |
| MapTree.Publishes | scripts/migrate_maps.py:156-218 | a map with its posegraph, data, YAML and raster nonempty under the root is published with exactly the five bundle files, if no operation fails and they validate |
| MapTree.IncompleteIsLeft | scripts/migrate_maps.py:164-177 | with one of the four missing or empty nothing is built and nothing changes |
| MapMigration.MapRoot.ArchiveLegacyFiles | scripts/migrate_maps.py:221-254 | what remains is backed up under a name that was taken before; nothing else moves; the result tells whether anything moved |
| MapMigration.MapRoot.MigrateOne | scripts/migrate_maps.py:263-282 | nothing changes and nothing is counted exactly when the map is settled; otherwise a count, a change of the staging directory or an exception tells |
| MapMigration.MapRoot.Migrate | scripts/migrate_maps.py:257-285 | after any prefix of operations every file's content is at its old or backup path; a dry run changes nothing; a full run changes nothing exactly when every map is settled; unless two published maps share a raster its result is the one foreseen from the start |
| MapMigration.MapRoot.MigrateTwice | scripts/migrate_maps.py:30-36 | unless two published maps share a raster, a second full run changes nothing and returns 0 exactly when nothing is left over before the first, and otherwise does not return 0; rasters named after their map meet the condition |
| MapRerunFails.SecondRunMovesRaster | scripts/migrate_maps.py:229-235 | a root whose YAML names floor.pgm under the root, or a raster outside it, while the usual raster is there too: the second run moves the usual one to the backup |

## Left out

- Rounding, overflow and NaN payloads of floating-point arithmetic.
- Hybrid and lattice traversal costs, motion tables and the curves themselves: trigonometry without a crisp invariant; curve samples are parameters.
- The scoring of refined analytic expansions: any ancestor and any curve may be chosen in the model.
- Obstacle-table caching across costmap changes: the table is stated between resets on a fixed costmap.
- What clearing a table that shrinks overwrites past its new end: `Reset` says when it happens, the model's table is then all zero.
- PathSmoother.Smoother.Sweep: checks the waypoint itself; in the code a waypoint off the map is checked at the cell that the conversion leaves, which may be the previous waypoint's.
- Wall-clock limits, cancel retry delays and anything that depends on Nav2 answering; they are environment choices.
- Mission detail texts, error names, published state and heartbeat messages.
- zstd and lz4 chunks count as malformed, and the checksum function is a parameter.
- Lengths beyond what the interpreter can address, and its recursion limit on nested chunks.
- Deserialising messages and merging several MCAP files of a bag.
- `validateProfile` and `pathIdentity` beyond counts, hash and stamp; the rest of validity is a parameter.
- Speed regulation, look-ahead, collision checks and goal approach of the controller.
- Smoothing a path segment by segment, orientations and the boundary-condition curves at both ends.
- Steering, manual commands, active-mode reports, shutdown and diagnostics of the drive controller.
- Header, timing and angle fields of the rebinned scan, which are copied.
- Parsing, rewriting and validating map bundles: parameters of the migration, with validity a property of the bundle directory's own contents.
- Text that cannot be decoded, and disk errors outside staging: the run ends there, which any prefix of operations covers.
- MapMigration.MapRoot.MigrateTwice: supposes that staging a map fails in both runs or in neither, because a fault that goes away lets the second run finish the first one's work; from the tree before the first run the condition is exact unless two maps that get published share a raster, one's raster stands in the place or for the manifest of another, or a raster elsewhere changes although the root's subdirectories stay; for such roots it is exact on the tree between the runs (`Migrate`).
- PathSmoother.Smoother.ThreePosesStay: for longer paths the weights between data + 2 smooth <= 1, which suffices, and these, which are needed, are open.
- Localisation, report printing, calibration, battery, captive portal and launch code: wiring or only easy members.
