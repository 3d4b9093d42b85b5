# Composition fabric and resource allocators

This project models how the orchestrator compiles video walls into a fabric of containers and how it hands out
CPU cores and multicast addresses, and proves properties of that model with Dafny 4.11.
`dafny verify dfyconfig.toml` checks everything.

A wall is a list of placed windows and overlays. A wall that is too heavy for one container is compiled into
*nodes*: one per element that several walls show (shared nodes) and one per group of the other windows (shards).
An *assembler*, which is the wall's own container, tiles the outputs of the nodes. A reconciliation pass moves the
running containers towards the plan: it keeps, rebinds in place or creates nodes, switches the walls, and tears
down what nobody reads any more. Around it, an allocator dedicates physical cores to containers, a ledger reserves
multicast addresses, a cascade cleans up after a destroyed container, and two monitors follow CPU pressure and
clock drift.

## How the model is laid out

| file | what it holds |
|---|---|
| Collections, Signatures | sequences and dictionaries; signed elements, walls, node signatures |
| Geometry, Cutting, Guillotine | bounding boxes, straight cuts, the recursive partition |
| Plan, Planner | the plan as functions; the planner as loops over dictionaries, proved equal to them |
| Conservation, Picture, PictureLimits, Layouts | what the tiles of a wall contain and show, and when they do not show the wall; small layouts worked out |
| Elimination | dropping walls that would get one tile |
| Lines, Cascade | the registry, and what destroying containers removes from it; destruction as a recursive method on a class |
| Fabric, Orchestrator | one reconciliation pass as a function of the state and of what the pass observes; the same pass as methods of a class that update the registry and the dictionaries in place |
| Rebinding, Wiring | what rebinding and creating nodes keep; what the assemblers are told to read |
| Assemblers, Waiting, Refresh | runs of passes: which walls are assemblers, deferred switches, deferred teardown, what is remembered without reports |
| Settled, Repeating, Convergence | the states that a pass leaves as they are, the same pass repeated, runs that settle |
| Counterexamples | concrete passes and runs in which a property fails |
| Placement, CorePool, CoreRuns, CoreSharing, Cpuset | choosing cores over sockets, the table of dedicated cores as a class, runs of requests, engine and shared pools, the text form of a set of cores |
| Multicast | the ledger of addresses as a class, the address plan, runs |
| Episodes | alerts with hysteresis and a store that survives restarts |
| Drift | least squares, relative histories, the referent clock |

Conventions. A signature stands for the content that the source hashes, so that equal signatures mean equal contents.
What the outside world answers is part of the input of a pass: which rebinds are accepted, which containers
produce, what each wall reports before and after the switch, where the pass finds that it is out of date, which
containers the database knows when teardown starts, and which removals fail. Theorems quantify over all of it.
Integers are unbounded and areas, latencies and clock values are exact.

A property that the code does not have in full is stated with the exact condition under which it holds, and with an
input on which it fails:

- The partition is a permutation of its cells exactly when no cut taken runs through a cell of non-positive extent
  (`Guillotine.PartitionConservesExactly`, `Layouts.CrossedWindowLost`).
- Boxes are said never to overlap (app/compositor_fabric.py:298-302, 337-338). Those of a cut may when the cut is odd
  (`Geometry.CutBoxesDisjointExactly`, `Geometry.OddCutOverlaps`); those of the groups of even cells may exactly when
  those of the slices of a block that no line can cut do (`Guillotine.EvenGroupsApartExactly`,
  `Layouts.PinwheelOverlaps`).
- Sharding keeps the picture exactly when no tile is drawn over an element of an earlier tile
  and no shared overlay comes last over one that the assembler draws (`Picture.TilesShowWallExactly`,
  `Picture.PictureExactly`); a shared overlay over a wall's own window, and a shared window inside the box of a shard,
  are hidden (`PictureLimits`, `Counterexamples.PassHidesSharedCell`).
- Created outputs can take the name of a running one (`Rebinding.OutputsStayDistinct`,
  `Counterexamples.OutputsCollide`).
- Without wall reports, a wall restored for being restorable keeps the memory of what was pushed to it and is left
  restored when it is wanted again soon (`Refresh.RestoredWallLeftAlone`, `Counterexamples.RestoredWallStaysRestored`).
- A producer that somebody reads is not to be destroyed (app/compositor_fabric.py:1095-1110), and step 3 is to leave
  planned nodes alone; but destroying any orphan runs the cascade of app/containers.py:38-80, which judges rows by the
  assemblers among their recorded parents. What survives is exact in `Waiting.DestroyedExactlyWhen` and
  `Waiting.PlannedRowSurvives`; the two losses are `Counterexamples.ReadShardDestroyed` and
  `Counterexamples.DeferredWallLosesShards`. The parents of a row that is kept are those recorded when it was written.
- A pass is said to be idempotent (app/compositor_fabric.py:840). The states that it leaves as they are are exact in
  `Settled.FixpointExactly`. After a pass that did what it had to do, and with no wall both saturated and restorable
  (`Repeating.TornWallWantedAgain`, `Counterexamples.PassNeverSettles`), the same pass changes nothing exactly when
  merging gives the walls that are left the same tiles (`Repeating.RepeatsExactly`): the plan after an elimination is
  made with the initial size of groups (line 924), and the next pass merges it (`Counterexamples.MergeUndone`). Passes
  over the same walls settle all the same, after nine of them (`Convergence.Converges`).
- Walls restored by the first loop of a pass are not asked what they still read (`Waiting.ConsultedExactlyWhen`), and
  the teardown counter of a node is not forgotten when the node is wanted again (`Waiting.NotForgiven`).
- Repeating a request for cores is idempotent, but for a container that does not exist and holds cores on another
  machine (`CoreRuns.AskingTwice`, `CoreRuns.DeadLosesElsewhere`).
- The comment on hysteresis says that several samples close an episode (app/cpu_pressure.py:71-72); one does
  (`Episodes.FirstFloorCloses`), and after a restart even a missing measure does (`Episodes.RestartCloses`).
- The referent is to be the best traced clock; a clock whose offset is exactly zero counts as unknown and is missed
  (`Drift.ReferentIsClosestExactly`, `Drift.ExactClockLoses`).

## Model

| member | source | states |
|---|---|---|
| Geometry.BBoxHolds | app/compositor_fabric.py:287-295 | the aligned box of a group contains every cell of it |
| Geometry.BBoxTight | app/compositor_fabric.py:287-295 | the box starts and ends at most one pixel beyond the group, on even coordinates |
| Geometry.SidesPartition | app/compositor_fabric.py:305-310 | keeping the cells that end before a line and those that start after it loses and repeats nothing exactly when the line crosses no cell and no cell of non-positive extent sits on it |
| Geometry.AcceptedCleanPartition | app/compositor_fabric.py:309-310 | the length test of the source accepts a true partition exactly when no cell of non-positive extent lies on the line |
| Geometry.CutFoundIffCorridor | app/compositor_fabric.py:298-327 | among cells of positive size a cut is found if and only if some straight corridor separates them |
| Geometry.BestIsFirstLeast | app/compositor_fabric.py:317-326 | the cut that is kept has the least score, and is the first to reach it |
| Geometry.CutBoxesDisjointExactly | app/compositor_fabric.py:298-311 | the aligned boxes of the two parts of a cut are disjoint exactly when the cut is even, or nothing of the right part starts on it, or the two parts are apart on the other axis; a right part that ends before the left one takes a cell of negative size |
| Geometry.OddCutOverlaps | app/compositor_fabric.py:287-311 | two windows three pixels wide, side by side, give a free cut whose boxes overlap |
| Geometry.SplitBoxesNearlyApart | app/compositor_fabric.py:287-311 | two groups on two sides of a line have boxes that pass it by at most one pixel, and do not overlap when it is even |
| Cutting.FindFreeCuts | app/compositor_fabric.py:298-311 | the loop over the lines of an axis finds exactly the accepted cuts, in order |
| Cutting.FindBestCut | app/compositor_fabric.py:314-327 | the loops over both axes keep the first cut of least score |
| Guillotine.AreaPolicyTakesBestCut | app/compositor_fabric.py:359-364 | the recursion, proved for every choice of cuts, is instantiated by the source's choice |
| Guillotine.ReadingOrderPermutes | app/compositor_fabric.py:361-363 | the fallback loses and repeats no cell |
| Guillotine.ReadingOrderInOrder | app/compositor_fabric.py:361-363 | the fallback lists cells row by row, from left to right |
| Guillotine.GroupSizes | app/compositor_fabric.py:359-366 | there is a group, and every group holds between one and `max_cells` cells |
| Guillotine.GroupsWithinBudget | app/compositor_fabric.py:356-366 | every group is within the area budget, or is a slice of a block, reached by the recursion, that no line can cut |
| Guillotine.PartitionConservesExactly | app/compositor_fabric.py:330-366 | the groups are a permutation of the cells if and only if no cut that is taken loses a cell |
| Guillotine.PositiveIsClean | app/compositor_fabric.py:330-366 | cells of positive size are never lost |
| Layouts.CrossedWindowLost | app/compositor_fabric.py:303-366 | four windows, two of them on one line, that the source's partition splits into groups without the one and with the other twice |
| Guillotine.FewerGroups | app/compositor_fabric.py:330-366 | a larger `max_cells` never gives more groups |
| Guillotine.GroupsSeparated | app/compositor_fabric.py:330-366 | as long as no block has to be sliced, any two groups lie on two sides of the end of some cell |
| Guillotine.EvenGroupsDisjoint | app/compositor_fabric.py:330-366 | even cells: the boxes of any two groups are disjoint as long as no block has to be sliced |
| Guillotine.EvenGroupsApartExactly | app/compositor_fabric.py:337-366 | even cells: no two boxes overlap if and only if none do among the slices of each block that no line can cut |
| Layouts.PinwheelOverlaps | app/compositor_fabric.py:359-366 | five even disjoint windows in a pinwheel, which no line cuts, are sliced into groups whose boxes overlap |
| Planner.RecordWall | app/compositor_fabric.py:211-217 | a wall is recorded once under each signature that it shows, however often it shows it |
| Planner.SharedElements | app/compositor_fabric.py:207-218 | the shared signatures are exactly those shown by two walls or more, with the walls that show them in order |
| Planner.SharedOfWall | app/compositor_fabric.py:395-410 | shared elements of a wall become nodes, stored once, and tiles at their own place |
| Planner.ShardsOfWall | app/compositor_fabric.py:416-441 | groups of a wall become shard nodes, stored once, and tiles at the corner of their box |
| Planner.PlanFabric | app/compositor_fabric.py:369-445 | the two passes of loops over walls build exactly the plan that the theorems are about |
| Plan.AllNodesOk | app/compositor_fabric.py:393-443 | every stored node, whoever stored it first, has the size and the content that its signature says |
| Plan.TilesHaveNodes | app/compositor_fabric.py:393-443 | every tile has a node of its own size |
| Plan.NodesAreShown | app/compositor_fabric.py:393-443 | the nodes of a plan are exactly those that a tile of some wall shows |
| Plan.NodesListedOnce | app/compositor_fabric.py:393-443 | a plan lists each of its nodes once |
| Conservation.TiledConservedExactly | app/compositor_fabric.py:393-441 | expanding the tiles of a wall by their nodes gives back its windows and shared overlays exactly when its cuts are clean |
| Conservation.PlacementsConservedExactly | app/compositor_fabric.py:393-445 | with the overlays drawn by the assembler, that is the wall's multiset of signatures and positions, whatever is shared or repeated |
| Conservation.PositiveWallClean | app/compositor_fabric.py:393-445 | for windows of positive size the condition holds |
| Picture.TilesShowWallExactly | app/compositor_fabric.py:369-445 | painting nodes and then tiling them shows the wall's own picture at every pixel if and only if no tile covers what an earlier tile shows |
| Picture.PictureExactly | app/compositor_fabric.py:654-672 | at every pixel the assembler's output is the wall's picture if and only if, where the assembler draws an overlay, the last overlay is not a shared one, and elsewhere no tile covers what an earlier tile shows |
| Picture.PicturePreserved | app/compositor_fabric.py:654-672 | when nothing is hidden, and no shared overlay comes after an overlay of the assembler that it meets, the assembler's output, overlays included, is the wall's picture at every pixel |
| PictureLimits.EvenWallHidesNothing | app/compositor_fabric.py:369-445 | even disjoint windows that straight lines separate, with shared elements outside the boxes of shards, meet the condition |
| PictureLimits.SharedOverlayLost | app/compositor_fabric.py:395-410 | a shared overlay over a window of the wall's own never reaches the output |
| PictureLimits.SharedCellLost | app/compositor_fabric.py:395-441 | a shared window that the box of a shard reaches is covered by that shard |
| Counterexamples.PassHidesSharedCell | app/compositor_fabric.py:813-925 | a pass over two saturated walls, even, disjoint and separable, with two tiles at least each, carries out a plan that does not show the first one |
| Elimination.SoloSharesNothing | app/compositor_fabric.py:909-910 | a wall with two visible windows and fewer than two tiles shares no element with another wall |
| Elimination.SharingKept | app/compositor_fabric.py:909-925 | dropping such walls changes no sharing among the others |
| Elimination.OneEliminationSuffices | app/compositor_fabric.py:909-925 | every wall that is left gets at least two tiles in the second plan |
| Elimination.KeptAmongFewer | app/compositor_fabric.py:909-925 | dropping only some of the one-tile walls leaves the same walls with two tiles, and the same tiles for every wall |
| Elimination.NoMoreNodes | app/compositor_fabric.py:874-925 | fewer one-tile walls never need more nodes, whatever the size of groups |
| Orchestrator.Registry.SelectWalls | app/compositor_fabric.py:844-873 | the first loop, with its restores, does what the selection function says |
| Orchestrator.Registry.PlanForMachine | app/compositor_fabric.py:874-908 | groups are doubled until the plan fits the machine or reaches 64 cells |
| Orchestrator.Registry.DropSoloWalls | app/compositor_fabric.py:909-922 | exactly the walls with fewer than two tiles are dropped, and exactly the assemblers among them are restored |
| Orchestrator.Registry.PlacesOf | app/compositor_fabric.py:928-931 | the dictionary of places holds, for every node, the places where the plan shows it, in order |
| Orchestrator.Registry.FreeSlots | app/compositor_fabric.py:770-786 | rows that leave the plan are listed by the slot that they free |
| Orchestrator.Registry.MaterialiseOne | app/compositor_fabric.py:937-997 | one node is kept, rebound or created; a refused rebind gives its slot back |
| Orchestrator.Registry.MaterialiseNodes | app/compositor_fabric.py:933-997 | the whole of step 1, up to the point where the pass is found out of date |
| Orchestrator.Registry.SwitchWall | app/compositor_fabric.py:1005-1093 | one wall is left alone, deferred, given up or switched, with the whole new state |
| Orchestrator.Registry.SwitchWalls | app/compositor_fabric.py:999-1093 | the whole of step 2 |
| Orchestrator.Registry.Consult | app/compositor_fabric.py:1111-1124 | outputs that consulted walls report to read, and whether one of them is unreadable |
| Orchestrator.Registry.Discard | app/deploy.py:2581-2583 | destroying the container of a condemned row, with what depends on it, whether or not removals succeed, then deleting the row; the registry depends only on the set of rows destroyed so far |
| Orchestrator.Registry.TearDown | app/compositor_fabric.py:1125-1144 | the whole of step 3: rows are judged on the list read at the start, in any order; each condemned one is destroyed through the cascade of app/containers.py:38-106, which may take planned rows, waiting rows and assemblers with it; removals that fail change nothing to the registry |
| Orchestrator.Registry.Reconcile | app/compositor_fabric.py:813-1145 | a pass of the class is the pass function, on every path |
| Rebinding.RebindIsSafe | app/compositor_fabric.py:949-976 | only a shard of one wall, out of the plan, is mutated, by a node that the plan shows exactly at its place, size and format; its container and output pass on, once, and its row is gone |
| Rebinding.OtherRowsUntouched | app/compositor_fabric.py:937-997 | every other row is as before, and every new row is a planned node, rebound or created |
| Rebinding.CreatedExactly | app/compositor_fabric.py:933-997 | from the state before the pass: a node is created exactly when it is planned, absent, and no freed row is left for it by those before it or its rebind is refused, up to the first one found out of date |
| Rebinding.OutputsStayDistinct | app/compositor_fabric.py:943-978 | outputs stay distinct if and only if no running row writes to the name of a content that is missing from the registry and cannot be rebound |
| Rebinding.ContainersStayDistinct | app/compositor_fabric.py:937-997 | containers stay distinct if and only if the references given to such missing nodes are new and distinct |
| Counterexamples.OutputsCollide | app/compositor_fabric.py:933-997 | three passes: a shard is created, is rebound and keeps its output, and its first content is created again on that same output |
| Wiring.EveryTileIsWired | app/compositor_fabric.py:663-672 | when step 1 completes, the assembler gets one window per tile, at its place, on the output of its row |
| Wiring.RebindsLeaveWindows | app/compositor_fabric.py:753-760 | when rectangles are unchanged and distinct, slots current, and every tile is unchanged or stands for a missing node whose rebind is accepted on the slot that it needs, every missing node is rebound and the assembler is given exactly the windows it had |
| Assemblers.LinesFollowCommands | app/compositor_fabric.py:844-1093 | over every run, a wall has its assembler line if and only if the last command sent to it was an assembler configuration |
| Assemblers.LeavesExactlyWhen | app/compositor_fabric.py:847-864 | an assembler is left exactly for too few windows, for being restorable, for fewer than two tiles, or for falling in step 3; measured latency plays no part |
| Assemblers.EntersExactlyWhen | app/compositor_fabric.py:865-873 | a wall becomes an assembler exactly when it is switched and does not fall in step 3, and only if it was saturated, with enough windows and two tiles |
| Assemblers.PlannedInParallel | app/compositor_fabric.py:876-925 | in the plan that is carried out every wall has at least two tiles |
| Assemblers.MemoryFollowsCommands | app/compositor_fabric.py:1087-1090 | over every run of passes with wall reports, what is remembered as pushed to an assembler is the last command sent to it |
| Assemblers.SettledWallsAreUpToDate | app/compositor_fabric.py:1024-1093 | an assembler that such a pass leaves alone or switches was last sent exactly the configuration planned by the pass |
| Refresh.RestoredFirst | app/compositor_fabric.py:847-864 | a restorable assembler is restored by the first loop, keeps the memory of what was pushed to it, and is not touched again by the pass |
| Refresh.RestoredWallLeftAlone | app/compositor_fabric.py:528-538 | two passes without reports: the wall that the first one restored and the second one wants again, with the configuration last pushed, is left alone as it is if and only if that push is less than the refresh period old |
| Counterexamples.RestoredWallStaysRestored | app/compositor_fabric.py:844-1036 | three passes at 0, 10 and 20 seconds: a wall is switched, restored, then wanted again and left restored, although its shards are created again |
| Waiting.PassCounts | app/compositor_fabric.py:1049-1086 | how a pass changes the deferral counter of each wall, by outcome |
| Waiting.FewDeferrals | app/compositor_fabric.py:1057-1081 | over any stretch of any run without a switch or an abandonment of the wall, its switch is deferred at most twice |
| Waiting.SwitchedInTime | app/compositor_fabric.py:1057-1093 | a wall that waits to be switched over three passes is switched in one of them |
| Waiting.DestroyedExactlyWhen | app/compositor_fabric.py:1111-1144 | a completed pass removes a row exactly when it condemns it (out of the plan, and nobody is asked, or everybody asked answers and nobody reads it, or it waited three times), or when some container falls and the row runs in one that falls or has no assembler left among its recorded parents |
| Waiting.FallsExactlyWhen | app/compositor_fabric.py:1141-1144 | some container falls in step 3 exactly when a condemned row has one that the database knows |
| Waiting.PlannedRowSurvives | app/containers.py:58-75 | when containers are distinct, a planned row outlives the pass exactly when no container falls or one of its recorded parents is still an assembler |
| Waiting.PlannedRowSurvivesExactly | app/containers.py:58-75 | from the state in which step 3 starts: when containers are distinct and not those of assemblers, a planned row outlives the pass exactly when no condemned row has a known container or one of its recorded parents is an assembler |
| Waiting.AssemblersBeforeTeardown | app/compositor_fabric.py:999-1093 | the assemblers that step 3 finds are those that the pass kept and those that it switched |
| Waiting.WallsOutliveTeardown | app/containers.py:48-57 | step 3 takes no assembler with it when no row runs in the container of one |
| Counterexamples.DeferredWallLosesShards | app/compositor_fabric.py:1039-1144 | a wall is newly saturated and its switch deferred; destroying an orphan of another wall destroys the shards just created for it |
| Counterexamples.ReadShardDestroyed | app/compositor_fabric.py:1095-1144 | a wall just restored reports that it reads its shard, which has never waited; destroying an orphan of another wall destroys it |
| Waiting.FewLeaves | app/compositor_fabric.py:1128-1140 | over any stretch of any run that does not destroy a container, at most three passes leave it for later |
| Waiting.NotForgiven | app/compositor_fabric.py:1131-1141 | a container left three times, then planned again, is destroyed by the next completed pass that finds it out of the plan, whoever reads it |
| Waiting.ConsultedExactlyWhen | app/compositor_fabric.py:1112-1124 | which walls a completed pass asks before teardown |
| Waiting.ProducersSurvive | app/compositor_fabric.py:1000-1144 | after a completed pass every planned window reads the output of a row, which is still there, when containers are distinct, exactly when no container fell or a recorded parent is still an assembler; then no removed row wrote to that output when outputs are distinct |
| Settled.SameConfig | app/compositor_fabric.py:937-1006 | when every planned node is registered, an assembler is given the outputs of the registered rows |
| Settled.FixpointExactly | app/compositor_fabric.py:840-1144 | a pass completes, leaves the registry and every dictionary as they are and switches nobody if and only if no assembler is to be restored, every planned node is registered, every row of the machine is planned and every planned wall would be left alone |
| Repeating.RepeatsExactly | app/compositor_fabric.py:840-1144 | when a pass did what it had to do, outputs are distinct, nothing is remembered of walls not planned and no wall is both saturated and restorable, repeating it changes nothing if and only if the walls that are wanted again, merged for themselves, get the same tiles |
| Repeating.SameOutputsExactly | app/compositor_fabric.py:874-925 | the two plans give the same outputs exactly when no other wall gets a second tile and every wall gets the same tiles with the two sizes of groups |
| Counterexamples.MergeUndone | app/compositor_fabric.py:874-925 | the same pass twice: a one-tile assembler is dropped and the other wall planned with the initial size of groups as three shards, then merged to two, one of them new |
| Repeating.SettledStays | app/compositor_fabric.py:840 | idempotence: when a pass did what it had to do, no wall is both saturated and restorable, and either the plan fits without merging or every one-tile wall is saturated, the same pass repeated, with reports that show what was planned, selects and drops the same walls, has the same plan, creates, rebinds, switches and destroys nothing, and leaves every row, dictionary and command |
| Convergence.Converges | app/compositor_fabric.py:840-1144 | over every run of completed passes over the same walls and settings, from any state, with walls that report what was pushed to them, none both saturated and restorable and none the container of a node, nothing is left to do after nine passes and no later pass changes a row, a dictionary or a command |
| Repeating.TornWallWantedAgain | app/compositor_fabric.py:847-873 | a wall both saturated and restorable is restored, then wanted again by the same pass |
| Counterexamples.PassNeverSettles | app/compositor_fabric.py:844-1093 | the same pass three times: the wall is restored, switched, restored |
| Placement.PickFacts | app/core_pool.py:402-468 | the choice gives as many distinct cores as asked, all of them offered |
| Placement.PickScore | app/core_pool.py:402-507 | the choice is on the wanted socket exactly when it has room there, and on one socket exactly when one has room |
| Placement.PickStable | app/core_pool.py:402-507 | offering fewer cores, the chosen ones included, never gives a better score |
| Placement.GroupBySocket | app/core_pool.py:430-437 | the loop groups the free cores by socket, in order, and ignores cores of unknown socket |
| Placement.RoomiestSocket | app/core_pool.py:452-461 | the socket kept is the one with most free cores among those with room, the lowest number among equals |
| Placement.ChooseCores | app/core_pool.py:402-468 | the choice over sorted lists is the one specified, and the operator is warned exactly when the placement is not the best possible score |
| CorePool.Pool.Release | app/core_pool.py:1306-1312 | afterwards the container holds no core on any machine, and every other container holds what it held |
| CorePool.Pool.PurgeOrphans | app/core_pool.py:1286-1303 | exactly the rows of containers that no longer exist are removed |
| CorePool.Pool.Allocate | app/core_pool.py:536-725 | the table and the answer after a request |
| CorePool.Pool.Review | app/core_pool.py:630-690 | what happens to a container that already has cores |
| CorePool.Pool.AllocateFresh | app/core_pool.py:691-725 | what happens to a container that has none |
| CorePool.Pool.ExcludeFromPool | app/core_pool.py:1156-1193 | the pool without the engine's cores and siblings, unless nothing would be left |
| CorePool.Pool.NameVictims | app/core_pool.py:1221-1225 | the loop over cores names each holder with exactly the cores that it held among them |
| CorePool.Pool.ReserveEngine | app/core_pool.py:1196-1259 | the table, the pool and the named containers after the engine's reservation |
| CorePool.Pool.EffectiveCpuset | app/core_pool.py:790-867 | dedicated cores if they can be had, else shared ones |
| CoreRuns.NoSharedPhysicalCore | app/core_pool.py:588-725 | over every run of requests, releases and purges, with pools that change, no physical core is ever held by two containers |
| CoreRuns.FreshCores | app/core_pool.py:691-725 | a container without cores gets them exactly when there are enough; then they are distinct, free, siblings of nobody's, on one socket whenever one has room, on the wanted one if it has |
| CoreRuns.ViolationRepaired | app/core_pool.py:641-671 | a container that holds a sibling of another's core moves to conforming cores, or loses all of its cores exactly when there are not enough |
| CoreRuns.MovesOnlyToBetter | app/core_pool.py:672-690 | a conforming container keeps its cores or moves to a strictly better place |
| CoreRuns.OthersKeepTheirs | app/core_pool.py:630-725 | a request leaves every other living container's cores alone, on every machine |
| CoreRuns.AskingTwice | app/core_pool.py:536-725 | repeating a request changes neither the table nor the answer exactly when the container exists, or asks for nothing, or there are too few cores for it, or it holds none on another machine |
| CoreRuns.DeadLosesElsewhere | app/core_pool.py:536-725 | a container that does not exist and has a core on machine 2 asks twice on machine 1; the second request takes that core away |
| CoreSharing.EngineTakesExactly | app/core_pool.py:1217-1230 | the engine holds exactly its cores, and every other container loses exactly the intersection |
| CoreSharing.EveryVictimNamed | app/core_pool.py:1221-1240 | a container is named if and only if it loses cores, with exactly those |
| CoreSharing.OnlyEngineConflicts | app/core_pool.py:1241-1255 | the reservation creates no conflict in which the engine has no part |
| CoreSharing.PoolAvoidsEngine | app/core_pool.py:1167-1193 | the pool left holds no core of the engine and no sibling of one, is never emptied, and loses nothing else |
| CoreSharing.PoolIsComplement | app/core_pool.py:279-306 | the footprint is the first cores with their siblings, closed under siblings, and the derived pool is exactly its complement |
| CoreSharing.DerivedPoolIsSafe | app/core_pool.py:295-306 | an engine within its footprint takes nothing from a derived pool |
| CoreSharing.SharedStaysAside | app/core_pool.py:777-867 | a shared container meets no core of another one, nor a sibling when cores are kept whole, unless nothing can be shared; exactly then the operator's choice applies |
| CoreSharing.DedicatedMeansDedicated | app/core_pool.py:804-808 | cores answered as dedicated are held by the container and by nobody else |
| CoreSharing.Fleet.Reapply | app/core_pool.py:2122-2182 | the cores computed from the table are applied to exactly the containers reported as changed; the report lists every named line, in order, under what happened to it |
| CoreSharing.EveryNamedLineTold | app/core_pool.py:2144-2168 | a container is reported changed, unchanged or failed exactly when it is named and, respectively, was measured on other cores and its update passes, was on them already, or neither |
| CoreSharing.ReappliedMeetsNobody | app/core_pool.py:777-787 | the wanted cores are exactly the pool without held cores, and without their siblings when cores are kept whole |
| Cpuset.Parse | app/core_pool.py:32-50 | the loop over parts reads the union of their cores |
| Cpuset.Format | app/core_pool.py:53-66 | the text is that of maximal increasing runs that neither meet nor touch, and reads back as the set |
| Cpuset.RoundTrip | app/core_pool.py:32-66 | reading a written list of runs gives back its cores, down to the digits |
| Cpuset.RunsUnique | app/core_pool.py:53-66 | a set has one list of maximal runs only |
| Multicast.PlanInjective | app/allocations.py:533-568 | by default, flows get different ranks if and only if there are at most 50 slots |
| Multicast.Reservations.Reserve | app/database.py:3406-3420 | the insertion succeeds unless another owner holds the address |
| Multicast.Reservations.ReleaseOwner | app/database.py:3432-3443 | afterwards the owner holds exactly what it held of the addresses to keep, and every other owner holds what it held |
| Multicast.Reservations.Reuse | app/allocations.py:365-390 | an existing reservation is given again exactly when it fits the port and the range, else released |
| Multicast.Reservations.ScanRange | app/allocations.py:414-427 | reuse, or the first free address of the range |
| Multicast.Reservations.AllocateFor | app/allocations.py:571-628 | the ledger and the answer after a request: planned address, reuse, or scan |
| Multicast.OneRequest | app/allocations.py:571-628 | one reservation per owner at most, everybody else keeps theirs, the owner ends with exactly the address given, or with none and then the range is full |
| Multicast.InsideRange | app/allocations.py:601-628 | under a rule, the address lies strictly between the base and the end of the range, on the port asked for |
| Multicast.AskingTwice | app/allocations.py:571-628 | asking again changes neither the ledger nor the answer |
| Multicast.NoLeak | app/allocations.py:365-390 | over every run, each owner keeps at most one reservation |
| Multicast.NobodyElseTakes | app/database.py:3400-3443 | an owner keeps its address through everything that others do |
| Multicast.PlanIsReached | app/allocations.py:596-607 | when strangers hold none of the planned addresses, allocating a transmitter's flows gives each its planned address to the end |
| Multicast.DefaultTransmitter | app/allocations.py:533-568 | the flows of a transmitter of up to 50 slots meet the hypothesis |
| Cascade.Site.Unregister | app/containers.py:48-75 | the lines of a container and of the nodes that nobody shows are removed, and the containers of the latter collected |
| Cascade.Site.Destroy | app/containers.py:38-106 | the recursion terminates; the known containers on which it was called are exactly the least set closed under nodes that nobody shows, and the registry is without them |
| Cascade.NoOrphanLeft | app/containers.py:38-80 | nothing of the container is left, and every node left is shown by a wall that is still an assembler |
| Cascade.ShownNodesStay | app/containers.py:42-80 | when nodes have containers of their own, a node shown by an assembler other than the container destroyed is untouched, and its container not destroyed |
| Cascade.CoresGivenBack | app/containers.py:96-102 | exactly the containers on which destruction was called lose their cores |
| Episodes.Monitor.Observe | app/cpu_pressure.py:189-220 | counter, level, store and alert after a sample |
| Episodes.AlertsAreLegal | app/cpu_pressure.py:189-220 | over every run, restarts included, each alert is allowed after those before it, and the store remembers the level reached |
| Episodes.LegalIsEpisodic | app/cpu_pressure.py:189-194 | such sequences are exactly episodes: warning, error, or warning then error, each closed by one return |
| Episodes.AlertsAreEpisodes | app/cpu_pressure.py:189-220 | a key that starts quiet gives a sequence of episodes |
| Episodes.AlertExactlyWhen | app/cpu_pressure.py:198-220 | over every run with restarts, an alert is raised exactly after enough samples above since the last one under the floor and the last restart, and closed exactly by a sample that is not above and is under the floor or has none above since then |
| Episodes.FirstFloorCloses | app/cpu_pressure.py:202-220 | one sample under the floor closes an episode |
| Episodes.RestartCloses | app/cpu_pressure.py:204-220 | after a restart the first sample closes an open episode exactly when it is not above a threshold |
| Drift.LineAddsSlope | app/clocks.py:582-590 | adding a line to the gaps adds its slope to the drift and leaves the variance |
| Drift.LineIsExact | app/clocks.py:582-590 | gaps on a line give its slope, with zero variance |
| Drift.FitIsBest | app/clocks.py:582-590 | any other line is strictly farther from the gaps |
| Drift.DriftUnderBias | app/clocks.py:564-591 | a constant bias changes neither drift nor variance, nor whether there is one |
| Drift.ControllerCancels | app/clocks.py:1009-1028 | a bias of the controller, however it moves, cancels in the drift against the referent |
| Drift.ChooseReferent | app/clocks.py:1005-1007 | the loop over clocks keeps the first of the best |
| Drift.ReferentIsBest | app/clocks.py:1005-1007 | nobody is better traced than the referent, and those before it are strictly less well traced |
| Drift.BiasChangesNothing | app/clocks.py:948-1014 | a common bias changes neither the referent, nor any gap to it, nor the largest gap |
| Drift.SpreadIsLargest | app/clocks.py:948-950 | no gap between two measured clocks exceeds the reported one, and some gap is that large |
| Drift.ReferentIsClosestExactly | app/clocks.py:1006-1007 | the referent is the best graded clock closest to its source exactly when no clock of that grade that is exactly right is missed (for one off by less than a second, or for one unknown or off by a second that comes before) and no unknown one is taken before the known ones |
| Drift.ExactClockLoses | app/clocks.py:1006-1007 | of two clocks of the same grade, the one exactly right loses to the one off by half a second |

## Left out

- Wall parameters: paths and flags arrive already normalised, and the fields of a window or overlay that only enter a signature are one opaque value.
- Meters, history strips and orientation travel through the plan unchanged as one opaque value.
- Exceptions raised by callbacks; an unreadable report is an absent one, and a failed rebind is a refused one.
- The display state of a wall under reorganisation and the summary of a pass, which the interface shows.
- Rows written before slots were recorded have a slot that is absent; a row always has a container reference.
- The bound on the number of nodes is not claimed, since the plan after the elimination uses the initial size of groups.
- `materialize` and `shared_block` in app/compositor_fabric.py, which the reconciliation supersedes or does not call.
- The order of repulsion by measured load in the choice of cores, which no call reaches: every candidate is offered as free of siblings.
- Concurrent writers of the core table and of the ledger: each operation is one step, as under the lock of the source.
- Cpuset.RoundTrip: covers decimal digits; signs, underscores and other scripts that Python also reads are ignored by the reader of the model.
- Multicast: overflow of the address space, and the choice of the most specific range rule.
- Registry of the fabric in Cascade: the other links, reservations and resources that a destruction releases.
- Durable store: writes are immediate, while the source may delay one by up to 30 seconds.
- Drift: rounding of the results, the square root of the variance, and the bounded length of histories.
- CPU weights, frequencies, core views and alert texts, probes of machines and clocks, certificates, routes and services.
