# Zone server and client: verified core

A Dafny model of the parts of Zone Online in which state, branching and arithmetic meet: the line-of-sight
occluder, A* path finding, the transactional item economy, the stateful indexes, limiters and protocols of the
game server, and two pieces of the client (the event ring and the identity file merge). Floats are `real`, times
are integer nanoseconds, every arithmetic claim is over exact numbers.

Code that works in place is a `method` over arrays or a `class` with the source's fields; each such method is
proved equal to a specification function or predicate, and the promises of the code are lemmas about that
specification and about whole runs of it. `dafny verify dfyconfig.toml` checks everything.

| file | component |
|---|---|
| `LosCells`, `LosBuild`, `LosArea`, `LosBuilt`, `LosFrame` | `Build`: selection, vertex compaction, quantisation, the cell table by count, prefix sum and scatter; what the result guarantees |
| `LosBuiltQuery`, `LosRounded` | the query on what `Build` makes of any mesh, and a mesh that shows its limit |
| `Los`, `LosAxis`, `LosWalk`, `LosQuery`, `LosHidden` | Moeller-Trumbore, clipping, the grid walk, `SegmentBlocked` against a scan of all triangles, and where exactly the two differ |
| `LosFormat`, `LosLayout`, `LosBuiltFile` | `Save` and `parse`: a binary codec with three index widths, its bytes, and which built occluders it takes |
| `AStar`, `AStarMetric` | lazy-deletion A* with re-expansion and parent chains |
| `Inventory`, `Economy`, `EconomyAccepts`, `EconomyOwners` | inventory rows, world items, stashes and trade; one transaction an operation; when each is accepted; whose items they are |
| `SpatialGrid` | the cell index over entity positions |
| `TokenBucket`, `RollingWindow` | the packet limiter; damage, item-action and chat windows |
| `ItemLedger`, `ItemReplies`, `ItemRuns`, `ItemReopened` | idempotent item actions over the economy, what their replies mean, and runs that mix them with container, stash and trade actions |
| `AiVisibility`, `AiScope`, `AiRuns` | what each session sees of AI squads, and what it is told over many ticks |
| `Groups`, `GroupRules`, `Sessions`, `UniqueNames` | parties, the session table, display names |
| `EventRing` | the client's lock-free ring as interleaved steps |
| `IdentityText`, `IdentityGrammar`, `IdentityMerge`, `IdentityMerged`, `IdentityReader`, `IdentityRestart` | the identity file: lines, the key merge, what it keeps, what start-up reads, and what the next one reads from the bytes written |

## Where the code differs from what is said about it

The members named show each of these, and where a promise fails they give the exact condition under which it holds.

- The grid walk does not visit the cell of every point of the segment. With equal border times it steps Z first, so a point
  exactly on a column border is stepped around when X grows and either Z falls and the point is on a row border, or Z grows and
  the point is on the upper Z border of the grid (`LosWalk.TraceVisitsIff`); a wall can hide there
  (`LosQuery.SkippedCornerHidesWall`). On a given grid the query is exact for every consistent occluder exactly when the
  segment meets no such point away from its ends (`LosHidden.ExactIff`).
- Cell lists follow the original triangles and the hit test the quantised ones. A corner that rounding moves over a cell
  border makes a stored wall that its new cell does not list, and that the query misses (`LosRounded.RoundedWallIsMissed`,
  on a mesh that `Build` accepts). What `Build` makes is consistent exactly when no kept triangle gains a cell by rounding
  (`LosBuiltQuery.ConsistentIff`; `LosBuiltQuery.ConsistentBeforehand` says so of the mesh alone).
- `Build` accepts grids whose file `parse` refuses: more than a million columns or rows, or more than 256 MiB. A built
  occluder reads back exactly within these limits and when its floats pass (`LosBuiltFile.BuiltReadsBackIff`;
  `LosBuiltFile.BuildLong` builds one that does not).
- The comments on drops and deposits say a worn item cannot become a better one. The condition of the first row taken is
  given to everything that moves, so it can (`Economy.WornItemBecomesNew`); condition is kept exactly when all rows taken are
  of one bucket (`Economy.DepositKeepsConditionIff`, `Economy.DropKeepsConditionIff`).
- Dropping idle token buckets is harmless exactly when a bucket refills while it is idle, rate * 60.000000001 s >= capacity
  (`TokenBucket.BoundIffRecovers`, for whole capacities).
- The floor of action ids is shared by all item opcodes and can fall: a rejection of a stale or unknown container, stash or
  trade action records its own id. A recorded item action that comes again is then echoed while the ring of 256 holds it,
  rejected while the floor is not below its id, and otherwise carried out a second time (`ItemRuns.ReplayExact`;
  `ItemReopened.LoweredFloorReopens` is a run that consumes twice). No id applies twice while no such rejection lowers the
  floor (`ItemRuns.AtMostOnce`, `ItemRuns.ReplayKept`).
- Merging keys into an identity file whose last line has no line break can run the first added key into that line
  (`IdentityMerged.MergedReadsBackIff`, `IdentityMerged.UntidyFile`).
- So a start-up that merges what it has read is followed by one that reads something else exactly when such a line sets the
  key (`IdentityRestart.RestartKeepsIff`, `IdentityRestart.NicknameRunsOn`).
- The merge sets the first occurrence of a key and start-up reads the last one, so a merged value is lost when the file sets the
  key again further down (`IdentityRestart.MergedReads` says what a tidy file is read as, `IdentityRestart.NicknameLost` is such
  a file).

## Model

| member | source | states |
|---|---|---|
| Los.BlocksMeets | zone-server/internal/los/los.go:448-496 | a reported hit gives u, v >= 0, u + v <= 1 and a parameter strictly inside the segment at which from + t*d is v0 + u*e1 + v*e2 |
| Los.MeetsBlocks | zone-server/internal/los/los.go:448-496 | every such crossing of a triangle that is not nearly parallel is reported |
| Los.BlocksIffMeets | zone-server/internal/los/los.go:448-496 | the two together: the test decides geometric crossing, for both signs of the determinant |
| Los.BlocksIffCrosses | zone-server/internal/los/los.go:448-496 | by coordinates: a triangle blocks if and only if the segment crosses it at a parameter between 0.000001 and 0.999999, and the parallelepiped of its edges and the segment has a volume of at least 10^-12 |
| LosAxis.ClipExact | zone-server/internal/los/los.go:302-343 | clipping one axis keeps exactly the parameters whose position is within the bounds, and none when nothing is left |
| LosAxis.ExitNext | zone-server/internal/los/los.go:371-402 | the incrementally advanced border time of the walk is the border time computed from scratch for the next cell |
| LosWalk.TraceVisitsIff | zone-server/internal/los/los.go:347-411 | the walk visits the cell of an in-bounds point of the clipped segment exactly when the point is no corner it steps around |
| LosWalk.TraceCompleteIff | zone-server/internal/los/los.go:347-411 | so no in-bounds point's cell is missed exactly when the segment meets no such corner |
| LosQuery.CellBlocked | zone-server/internal/los/los.go:433-446 | true exactly when the cell is in the grid and lists a triangle that blocks |
| LosQuery.ClipRayExact | zone-server/internal/los/los.go:302-346 | both axes together: a parameter survives clipping whenever its point is within the XZ bounds, and the clipped range lies within them |
| LosQuery.SegmentBlocked | zone-server/internal/los/los.go:294-416 | for any segment, and any occluder with in-range tables: answers whether a cell of the walk lists a blocking triangle; a hit is a stored triangle crossed at a parameter between 0.000001 and 0.999999, and on a consistent occluder, without a stepped-around corner, every such crossing is a hit; at most gridX + gridZ steps, so the step guard is dead code; every table access is in range |
| LosQuery.HitCell | zone-server/internal/los/los.go:433-496 | a hit lies in bounds, in a cell that the XZ box of the triangle covers |
| LosQuery.QueryEqualsScan | zone-server/internal/los/los.go:294-496 | the query never reports a false hit, and on a grid-consistent occluder equals the scan over all triangles for every segment that meets no stepped-around corner |
| LosQuery.SkippedCornerHidesWall | zone-server/internal/los/los.go:396-402 | a consistent occluder and a segment for which the scan is blocked and the query is not |
| LosHidden.SkipHides | zone-server/internal/los/los.go:294-446 | on any grid, at every stepped-around point away from the ends of the segment, a consistent occluder can have a wall that the query misses; with fewer than 65534 rows and room behind the point its coordinates fit 16 bits |
| LosHidden.ExactIff | zone-server/internal/los/los.go:294-446 | for any grid and segment: the query equals the scan on every consistent occluder of that grid if and only if the segment meets no stepped-around corner away from its ends |
| LosCells.ListingExact | zone-server/internal/los/los.go:148-208 | the list of a cell names exactly the placements whose rectangle holds the cell |
| LosCells.CountRefs | zone-server/internal/los/los.go:164-179 | the count of each cell is the length of its list, and the counts sum to the total of references |
| LosCells.PrefixSums | zone-server/internal/los/los.go:183-189 | offsets from 0 to the total, non-decreasing, a cell's count apart |
| LosCells.ScatterAll | zone-server/internal/los/los.go:191-208 | every cursor ends at the next cell's start and every slice is its cell's list |
| LosCells.FillCells | zone-server/internal/los/los.go:164-208 | the whole table: each slice is its cell's list in input order; refused exactly when the references exceed 32 bits |
| LosBuild.SelectTriangles | zone-server/internal/los/los.go:74-91 | keeps exactly the triangles that pass the area test, numbered in order, or names the first triangle with a bad vertex index |
| LosArea.KeptIffNotOnLine | zone-server/internal/los/los.go:82-87 | without an area threshold, a triangle is kept if and only if its corners are not on one line |
| LosArea.KeptIffLarge | zone-server/internal/los/los.go:82-87 | with one, if and only if half of base times height reaches it |
| LosArea.FootExists | zone-server/internal/los/los.go:86-87 | every triangle with a base has a foot to take its height from |
| LosBuild.CompactVertices | zone-server/internal/los/los.go:116-132 | renumbers exactly the vertices that kept triangles use, one to one onto 0..used |
| LosBuild.QuantiseVertices | zone-server/internal/los/los.go:217-238 | each renumbered vertex stands at its new number, quantised on each axis |
| LosBuild.Build | zone-server/internal/los/los.go:51-268 | every outcome: which error a mesh must end with, the empty occluder when nothing is kept, otherwise an occluder made of exactly the kept triangles; 3 m is the default cell, 67 108 864 the most cells |
| LosBuilt.BuiltIsSafe | zone-server/internal/los/los.go:51-268 | a built occluder makes every table access of the query in range, and its grid covers its bounds |
| LosBuilt.BuiltListsExactly | zone-server/internal/los/los.go:148-208 | a cell lists exactly the kept triangles whose original XZ box, in cells, holds it |
| LosBuilt.BuiltListsOnce | zone-server/internal/los/los.go:191-208 | each once, in input order |
| LosBuilt.QuantisedNear | zone-server/internal/los/los.go:210-238 | quantising moves a coordinate by at most half a step and not out of the bounds |
| LosBuilt.BuiltNearMesh | zone-server/internal/los/los.go:210-251 | each stored corner of a kept triangle is within half a step of its own original corner |
| LosFrame.BoundsAreTight | zone-server/internal/los/los.go:93-114 | the bounds are the least and greatest coordinates of the kept corners, and the grid begins at the lower ones |
| LosFrame.GridAndScale | zone-server/internal/los/los.go:134-215 | the grid has the fewest columns and rows, at least one, that cover the bounds; 65534 steps of the scale span them on each axis |
| LosFrame.CornerPlace | zone-server/internal/los/los.go:448-461 | where a stored corner is: a stored -32767 at the lower bound, a step of the scale for each one more |
| LosFrame.CellLists | zone-server/internal/los/los.go:148-208 | by index and coordinates: the entries of cell iz * gridX + ix name the kept triangles whose box reaches into that column and row, the last ones with their far border |
| LosBuiltQuery.ConsistentIff | zone-server/internal/los/los.go:134-251 | what `Build` makes of any mesh is grid-consistent if and only if every cell that a stored triangle covers is in the rectangle of its original |
| LosBuiltQuery.ConsistentBeforehand | zone-server/internal/los/los.go:93-251 | the same on the mesh, before building: if and only if rounding moves no kept triangle into a column or row that it did not span |
| LosBuiltQuery.BuiltQueryExact | zone-server/internal/los/los.go:51-496 | for any mesh and segment: the query reports a hit if and only if a kept triangle, as stored, blocks and the walk visits a cell of its original rectangle |
| LosBuiltQuery.BuiltQueryEqualsScan | zone-server/internal/los/los.go:51-496 | when no kept triangle gains a cell by rounding, the query on the built occluder equals the scan, but for stepped-around corners |
| LosBuiltQuery.BuiltHitIsNearWall | zone-server/internal/los/los.go:210-496 | for any mesh: a reported hit is on a kept triangle whose corners are moved by at most half a quantisation step |
| LosBuiltQuery.BuiltQueryEqualsMesh | zone-server/internal/los/los.go:51-496 | corollary: where rounding moves no kept corner, the query decides whether a kept triangle of the mesh itself blocks |
| LosRounded.RoundedWallIsMissed | zone-server/internal/los/los.go:148-251 | a mesh whose every built occluder is inconsistent: a stored wall blocks the scan of a segment, and the query misses it |
| LosRounded.BuildRounded | zone-server/internal/los/los.go:51-268 | `Build` accepts that mesh and returns such an occluder |
| LosFormat.Save | zone-server/internal/los/format.go:39-96 | the buffer written at a moving offset is the encoding of the occluder, with nothing left over |
| LosLayout.HeaderLayout | zone-server/internal/los/format.go:50-71 | what stands at which byte of the header: magic, version, flags, index width by size, floats, grid, counts |
| LosLayout.VertexLayout | zone-server/internal/los/format.go:73-77 | vertices from byte 88 on, as 16-bit two's complement |
| LosLayout.TriangleLayout | zone-server/internal/los/format.go:78-81 | behind them the triangles, in words of the index width |
| LosLayout.CellLayout | zone-server/internal/los/format.go:82-85 | then where each cell begins, in four bytes |
| LosLayout.ReferenceLayout | zone-server/internal/los/format.go:86-89 | and last the references, in words of the index width again |
| LosFormat.Parse | zone-server/internal/los/format.go:121-242 | each outcome of the validation in the order of the code: the first failing header, float, vertex index, offset or reference check, or the decoded tables |
| LosLayout.HeaderOkIff | zone-server/internal/los/format.go:121-178 | which headers are accepted, said of the bytes and their offsets, with every limit |
| LosFormat.KeyIsOrder | zone-server/internal/los/format.go:184-203 | two float words are ordered by the code exactly as the numbers that they denote, negative ones included |
| LosFormat.KnownWords | zone-server/internal/los/format.go:184-203 | the words of 0, 1, -3 and the least positive number denote these |
| LosFormat.FiniteIff | zone-server/internal/los/format.go:35-37 | a word is finite up to the largest exponent, of either sign |
| LosFormat.FloatsPassIff | zone-server/internal/los/format.go:184-203 | the float checks pass if and only if all numbers are finite, the cell size positive, the bounds ordered and the scales not negative |
| LosFormat.SaveThenParse | zone-server/internal/los/format.go:39-275 | parsing what was saved gives back the occluder, for all three index widths, if and only if it is within the limits of the format and its tables are in range |
| LosBuiltFile.BuiltFits | zone-server/internal/los/los.go:210-251 | a built occluder has a triangle, and its stored coordinates fit 16 bits |
| LosBuiltFile.BuiltReadsBackIff | zone-server/internal/los/format.go:121-242 | the file of a built occluder reads back if and only if it has at most a million columns and rows, at most 256 MiB, and floats that pass; the other limits follow |
| LosBuiltFile.BuildLong | zone-server/internal/los/los.go:134-268 | a mesh that `Build` accepts and whose file never reads back |
| LosFormat.EncodeInjective | zone-server/internal/los/format.go:39-96 | different occluders have different encodings |
| LosFormat.ParsedIsSafe | zone-server/internal/los/format.go:148-240 | whatever is accepted makes every table access of the query in range |
| LosFormat.ParsedIsQueryable | zone-server/internal/los/format.go:148-240 | and, read as numbers, meets what `SegmentBlocked` asks of its caller; its bounds are ordered and its scales not negative |
| AStar.PopMin | zone-server/internal/ai/pathfinding.go:27-54 | removes one item of least priority and leaves the others |
| AStar.SameKeyIsClose | zone-server/internal/ai/pathfinding.go:63-77 | waypoints of one key differ by at most a millimetre on each of the three axes |
| AStar.NextKey | zone-server/internal/ai/pathfinding.go:63-77 | a waypoint on whole millimetres has them as its key, so points a millimetre apart differ |
| AStar.ApartIsSeparate | zone-server/internal/ai/pathfinding.go:63-77 | so where reachable waypoints are further apart than that on some axis, the search tells them all apart |
| AStarMetric.EuclideanIsMetric | zone-server/internal/ai/pathfinding.go:56-61 | the Euclidean distance is the metric that `AStar.Search` asks for, by Lagrange's identity |
| AStar.Expand | zone-server/internal/ai/pathfinding.go:116-132 | relaxing the neighbours of a node keeps the search invariant: no parent chain is longer than its score, what is not closed is queued, and a node expanded before adds nothing |
| AStar.PopOptimal | zone-server/internal/ai/pathfinding.go:108-114 | whatever waypoint is taken out of the queue, no path to it is cheaper than its score |
| AStar.SettledStays | zone-server/internal/ai/pathfinding.go:116-132 | an expanded waypoint keeps its final score, and its neighbours stay scored, through every later improvement |
| AStar.ManyEdges | zone-server/internal/ai/pathfinding.go:101-133 | stale entries and repeated expansions included, the search makes no more queue entries than there are edges among reachable waypoints, and one |
| AStar.ExhaustedScoresAll | zone-server/internal/ai/pathfinding.go:102-138 | when the queue runs dry, the end of every path from the start has been scored |
| AStar.WalkBack | zone-server/internal/ai/pathfinding.go:140-154 | the parent walk ends, and its reversal in place is the chain from the start |
| AStar.Search | zone-server/internal/ai/pathfinding.go:81-155 | a non-empty result starts at the start, ends within a millimetre of the goal on each axis, repeats no node, has at most 5000 waypoints, and no path is cheaper; an empty one means the goal is unreachable; nil is the iteration limit, which a graph with fewer than 5000 reachable edges does not meet |
| Inventory.DrainEffect | zone-server/internal/database/db.go:716-775 | taking items out of rows keeps the row order and positive counts and lowers the stock of any selection by what was taken of it |
| Inventory.DrainLeaves | zone-server/internal/database/db.go:716-775 | rows are used up strictly in the order of the query: each is left with exactly what the rows before it did not cover |
| Inventory.CreditEffect | zone-server/internal/database/db.go:787-823 | a credit raises the stock of its section by the count and of no other, whichever row it ends in |
| Economy.StepBalanced | zone-server/internal/game/stash_manager.go:215-347 | each operation keeps counts positive, debts away and ids fresh, and changes carried + lying + stored items of a section by exactly what it buys, sells, consumes or expires |
| Economy.RunConserves | zone-server/internal/game/economy.go:193-277 | over any run: holdings = initial + bought - sold - consumed - expired, per section |
| Economy.RunMoney | zone-server/internal/game/economy.go:193-277 | a user's money changes by the prices of completed trades and nothing else |
| Economy.PickedUpOnce | zone-server/internal/database/db.go:908-947 | after a pickup, every later pickup of the same world item is refused, whatever happens in between |
| Economy.DepositKeepsConditionIff | zone-server/internal/game/stash_manager.go:207-275 | a deposit keeps the number of items of every section and condition bucket if and only if all rows it takes from have the bucket of the first held row |
| Economy.DropKeepsConditionIff | zone-server/internal/database/db.go:629-682 | the same for a drop |
| Economy.TransfersKeepCondition | zone-server/internal/database/db.go:777-823 | pickups and withdrawals keep the number of items of every section and condition bucket |
| Economy.WornItemBecomesNew | zone-server/internal/game/stash_manager.go:207-275 | a 5% and a 100% item become two 100% items in one deposit |
| EconomyOwners.OthersKept | zone-server/internal/database/db.go:716-823 | no operation changes a row of a user other than its own |
| EconomyOwners.RunCarries | zone-server/internal/game/economy.go:193-277 | over any run of everybody's operations, what a user carries of a section is the initial amount plus what the replies to that user's own operations say |
| EconomyOwners.RunLeavesRows | zone-server/internal/database/db.go:716-823 | a user who does nothing keeps every row as it was, whatever the others do |
| EconomyOwners.HeldTotal | zone-server/internal/database/db.go:716-743 | the held total that decides a removal is what the user carries of the section, whichever condition is preferred |
| EconomyAccepts.WithdrawIff | zone-server/internal/game/stash_manager.go:283-347 | a withdrawal is accepted if and only if count and bucket are in range, the stash is on the caller's level and holds the count in that section and bucket, and the user can be credited; then that stash loses the items and no other changes |
| EconomyAccepts.WithdrawCarries | zone-server/internal/game/stash_manager.go:283-347 | and the user carries that many more of the section and bucket, and of no other |
| EconomyAccepts.DepositIff | zone-server/internal/game/stash_manager.go:215-275 | a deposit is accepted if and only if the stash is on the caller's level, enough is carried and the contents keep within 4096 bytes and 256 entries; the items arrive in the bucket of the first row taken |
| EconomyAccepts.BuyIff | zone-server/internal/game/economy.go:239-277 | a purchase is accepted if and only if the user is known and can pay; it costs the price and brings the count in the bucket asked for |
| EconomyAccepts.SellIff | zone-server/internal/game/economy.go:193-233 | a sale is accepted if and only if a known user carries enough; the items go, the price is paid, the reply names the condition of the first row |
| EconomyAccepts.DropIff | zone-server/internal/database/db.go:641-682 | a drop is accepted if and only if enough is carried and the level has room; the row it adds is stated field by field |
| EconomyAccepts.PickupIff | zone-server/internal/database/db.go:908-947 | a pickup is accepted if and only if the user can be credited in the bucket of the item; that row alone leaves the world |
| EconomyAccepts.HeldOrder | zone-server/internal/database/db.go:716-743 | rows are used up in this order: those of the preferred condition, then the others, older ones first |
| EconomyAccepts.CreditRow | zone-server/internal/database/db.go:787-823 | where a credit goes: the first row of that condition, else the first loaded weapon, whose rounds it adds to, else a new row |
| Economy.Database.RemoveItems | zone-server/internal/database/db.go:716-775 | the loop over rows equals the removal it is specified by, or changes nothing when stock is short |
| Economy.Database.CreditItems | zone-server/internal/database/db.go:787-823 | merges into the bucket row, tops up an ammunition row or inserts; refused when the owner does not exist |
| Economy.Database.DropItem | zone-server/internal/database/db.go:641-682 | equals the atomic drop, with its limit and shortage errors; a refusal leaves all tables as they were |
| Economy.Database.PickupItem | zone-server/internal/database/db.go:908-947 | equals the atomic pickup; when the credit fails the deleted row is back and nothing has changed |
| Economy.Database.ConsumeItem | zone-server/internal/database/db.go:688-706 | equals the atomic consumption; a refusal changes nothing |
| Economy.Database.DeleteOlderThan | zone-server/internal/database/db.go:850-888 | selecting the expired rows and deleting them by id, one after the other, removes and returns exactly the world items created at or before the cutoff |
| Economy.Database.DepositItem | zone-server/internal/game/stash_manager.go:215-275 | equals the atomic deposit; a contents row that would be too large rolls the removal back, and no refusal changes anything |
| Economy.Database.WithdrawItem | zone-server/internal/game/stash_manager.go:283-347 | equals the atomic withdrawal, whose acceptance and effect `EconomyAccepts.WithdrawIff` states; a refusal changes nothing |
| Economy.Database.BuyItems | zone-server/internal/game/economy.go:239-277 | equals the atomic purchase; a refusal changes nothing |
| Economy.Database.SellItems | zone-server/internal/game/economy.go:193-233 | equals the atomic sale; an unknown character rolls the removal back, and no refusal changes anything |
| SpatialGrid.UnlinkKeeps | zone-server/internal/game/spatial_grid.go:49-56 | taking an id out of its cell keeps cells and reverse mapping in step, and no cell empty |
| SpatialGrid.LinkKeeps | zone-server/internal/game/spatial_grid.go:58-66 | so does putting it into a cell |
| SpatialGrid.SpatialGrid.Insert | zone-server/internal/game/spatial_grid.go:45-67 | sets the coordinates of one id and keeps the index |
| SpatialGrid.SpatialGrid.Remove | zone-server/internal/game/spatial_grid.go:70-87 | forgets one id and keeps the index |
| SpatialGrid.SpatialGrid.Update | zone-server/internal/game/spatial_grid.go:91-126 | sets the coordinates of one id, changing cells only when it must |
| SpatialGrid.SpatialGrid.GetNeighbors | zone-server/internal/game/spatial_grid.go:139-191 | exactly the ids that a scan of all coordinates finds within the radius, each once |
| TokenBucket.IPRateLimiter.Allow | zone-server/internal/network/udp_listener.go:40-79 | decides and updates as the specified limiter; the buckets left are the one asked for and the others, of which a cleaning that is due, every 60 s, drops those idle for more than 60 s |
| TokenBucket.IPRateLimiter.Cleanup | zone-server/internal/network/udp_listener.go:81-88 | keeps exactly the buckets idle for at most 60 s |
| TokenBucket.CleaningChangesNothing | zone-server/internal/network/udp_listener.go:40-88 | when an idle bucket refills in time, a run is decided as by a limiter that never cleans |
| TokenBucket.AdmitsAtMost | zone-server/internal/network/udp_listener.go:40-88 | a fresh limiter on non-decreasing times admits at most capacity + rate * (b - a) packets of one address in [a, b], time in nanoseconds |
| TokenBucket.AdmittedIffRoom | zone-server/internal/network/udp_listener.go:55-79 | and refuses only what would break that bound: a packet is admitted if and only if, for every earlier time a, it and the packets admitted since a are at most capacity + rate * (now - a) |
| TokenBucket.BoundIffRecovers | zone-server/internal/network/udp_listener.go:48-88 | for a whole capacity, that bound holds on every run, and cleaning is invisible on every run, exactly when rate * 60.000000001 s >= capacity |
| TokenBucket.RecoversIff | zone-server/internal/network/udp_listener.go:48-53 | which is the stated rate: a bucket is dropped when more than 60 s idle |
| RollingWindow.Window.Prune | zone-server/internal/game/damage.go:346-353 | pruning that reads and writes one buffer keeps exactly the entries after the cutoff, in order |
| RollingWindow.Window.ChargeBudget | zone-server/internal/game/damage.go:336-366 | grants what the window leaves of the amount, or nothing |
| RollingWindow.AcceptHit | zone-server/internal/game/damage.go:190-216 | hits of at most 0 or above 250 are refused; the others are capped at the limit of one hit, 150 by default, and charged to the budget of one second, or stand without a budget |
| RollingWindow.AllowAction | zone-server/internal/game/item_ledger.go:144-165 | an action passes if and only if fewer than the limit were accepted in the last second; the limit is whole, at least one, five by default |
| RollingWindow.AllowChat | zone-server/internal/network/session.go:61-77 | a line passes if and only if fewer than five were accepted in the last five seconds |
| RollingWindow.PrunedRun | zone-server/internal/game/damage.go:336-366 | on any run the pruned log grants what the unpruned history would |
| RollingWindow.ChargeFills | zone-server/internal/game/damage.go:346-366 | a charge is refused if and only if the window has spent its budget, and otherwise fills the window up to the amount asked for or the budget |
| RollingWindow.NeverOverBudget | zone-server/internal/game/damage.go:336-366 | no window (T - period, T] is granted more than the budget |
| RollingWindow.NeverOverLimit | zone-server/internal/network/session.go:61-77 | no window accepts more than the limit of stamps |
| ItemLedger.SessionLedger.Lookup | zone-server/internal/game/item_ledger.go:116-130 | finds a result exactly while it is among the last 256 recorded |
| ItemLedger.SessionLedger.RecordResult | zone-server/internal/game/item_ledger.go:167-179 | the ring holds the newest results, the floor is the id recorded last |
| ItemLedger.SessionLedger.RecordFloor | zone-server/internal/game/item_ledger.go:81-85 | a recorded id becomes the floor, also when it is smaller |
| ItemLedger.SessionLedger.HandleItemAction | zone-server/internal/game/item_ledger.go:338-421 | the whole path of a packet through gate, rate limit, transaction and recording |
| ItemReplies.DropReply | zone-server/internal/game/item_ledger.go:427-493 | OK if and only if something is dropped, the level has room and the stock suffices; then a new world row, in the update as stored, has the clamped position, the count and the condition of the first row taken, the sender has that many fewer and nothing else changes. Corrected, with minus the stock, exactly when it is short. The database changes, and others hear of it, exactly when OK |
| ItemReplies.PickupReply | zone-server/internal/game/item_ledger.go:495-560 | OK if and only if the stored item is on the level, within 3 m in space, and the sender can be credited; then that row alone leaves the world, the sender has its count more and the update gives its stored values. The database changes, and others hear of it, exactly when OK |
| ItemReplies.ConsumeReply | zone-server/internal/game/container_ledger.go:191-245 | OK if and only if something is consumed and the stock suffices; Corrected, with minus the stock, exactly when it is short; the database changes exactly when OK, and nobody else hears of it |
| ItemReplies.Unusable | zone-server/internal/game/item_ledger.go:281-294 | an unknown sender, or a section that is not 1 to 63 printable characters, is declined unrecorded; everything else reaches the transaction of its action |
| ItemLedger.GateExact | zone-server/internal/game/item_ledger.go:358-390 | any packet with a known action: echoed while it is among the last 256 results, else rejected at or below the floor, both without any change or charge; else performed if the rate allows, and declined unrecorded if not |
| ItemLedger.GrantedIff | zone-server/internal/game/item_ledger.go:144-165 | the rate allows an action if and only if fewer than the limit were accepted in the second before |
| ItemLedger.StepSpaced | zone-server/internal/game/item_ledger.go:132-179 | a recorded result has an id above the floor that the ring does not hold; ids in the ring stay distinct |
| ItemRuns.RunSpaced | zone-server/internal/game/item_ledger.go:116-179 | the same over any run that mixes item, container, stash and trade actions; results are only added |
| ItemRuns.ReplayExact | zone-server/internal/game/item_ledger.go:358-390 | a recorded item action that comes again in such a run: its result while fewer than 256 others were recorded since, a rejection while the floor is not below its id, and otherwise, the rate allowing, the transaction a second time |
| ItemRuns.ReplayKept | zone-server/internal/game/item_ledger.go:358-374 | while the floor is not lowered, a recorded action that comes again echoes its result while the ring holds it and is rejected as stale from then on; database, ledger and rate window stay as they are |
| ItemRuns.ItemsIncrease | zone-server/internal/game/item_ledger.go:132-179 | over a run of item actions the recorded ids strictly increase, and the floor is the last of them |
| ItemRuns.AtMostOnce | zone-server/internal/game/container_ledger.go:38-69 | while no container, stash or trade action lowers the floor, no id applies twice, not even in two opcodes |
| ItemRuns.ItemsAtMostOnce | zone-server/internal/game/item_ledger.go:338-547 | with item actions only in between, no id changes the database twice, whatever others do to it |
| ItemReopened.LoweredFloorReopens | zone-server/internal/game/stash_trade_ledger.go:44-75 | from a new session on, a run in which one consumption takes its items twice under one id, for every opcode that can lower the floor |
| ItemRuns.ChangesPerSecond | zone-server/internal/game/item_ledger.go:144-165 | no second sees more actions of one session apply than the action limit, all opcodes together |
| AiVisibility.AiReplication.MarkVisible | zone-server/internal/game/ai_replication.go:237-250 | adds the squad to one session's set and tells whether it was new |
| AiVisibility.AiReplication.ClearVisible | zone-server/internal/game/ai_replication.go:252-261 | takes it out of that session's set only |
| AiVisibility.AiReplication.TickView | zone-server/internal/game/ai_replication.go:468-563 | the visible set becomes the kept squads that were visible or have a wire id; one LEAVE or ENTER for exactly each squad that left or came and has a wire id |
| AiVisibility.AiReplication.Tick | zone-server/internal/game/ai_replication.go:456-563 | the same for every session of a tick; sessions that are gone see nothing |
| AiVisibility.AiReplication.DespawnedIsUnseen | zone-server/internal/game/ai_replication.go:420-422 | a squad gone from the simulation is in no visible set after the tick, and was left by a notice |
| AiVisibility.KeptAreNearest | zone-server/internal/game/ai_replication.go:491-549 | the kept squads are those in scope, nearest first, up to the cap |
| AiScope.KeptIff | zone-server/internal/game/ai_replication.go:491-549 | in coordinates: with room under the cap, a visible squad of the level is kept if and only if dx^2 + dz^2 is at most the square of the leave radius, another if and only if it is at most that of the enter radius |
| AiScope.NearestKept | zone-server/internal/game/ai_replication.go:530-549 | without room, exactly the cap is kept, and each kept squad is nearer than each one in reach that is not |
| AiScope.PassKeeps | zone-server/internal/game/ai_replication.go:491-563 | what that means for the visible set and the notices of one pass |
| AiScope.PassDrops | zone-server/internal/game/ai_replication.go:491-563 | what a session sees after a pass is in the simulation, on its level and within the leave radius |
| AiVisibility.AiReplication.Release | zone-server/internal/game/ai_replication.go:158-179 | a released squad leaves every visible set, and no other squad does |
| AiRuns.AboutExact | zone-server/internal/game/ai_replication.go:507-563 | a pass sends about a squad with a wire id one LEAVE when it goes and one ENTER when it comes, and about others nothing |
| AiRuns.TruthfulIff | zone-server/internal/game/ai_replication.go:456-608 | over any run of ticks and releases: ENTER and LEAVE of a squad alternate and the last one says whether it is visible, if and only if it never goes out of scope without a wire id |
| AiRuns.SessionToldTruth | zone-server/internal/game/ai_replication.go:130-179 | as squads are registered, and released only after they despawned, that holds for every squad from the first tick of a session on |
| AiVisibility.StateChunks | zone-server/internal/game/ai_replication.go:575-597 | chunks of 32, the last one shorter, concatenate to one entry per kept squad; a squad without wire id keeps a blank entry |
| EventRing.ProducerStepRefines | zone-client/src/net/udp_client.cpp:497-508 | each step of an enqueue, down to one copied byte, is a silent step, an append or a refusal of a queue of 255 that is full |
| EventRing.ConsumerStepRefines | zone-client/src/net/udp_client.cpp:698-717 | each step of a poll is silent, finds the queue empty, delivers its head whole or discards a head that is too long |
| EventRing.EveryRunIsFifo | zone-client/src/net/udp_client.cpp:421-432 | under every interleaving of both threads the ring behaves as a FIFO queue of at most 255 packets |
| EventRing.PolledInOrder | zone-client/src/net/udp_client.cpp:698-717 | polled packets are exactly the accepted ones in order and intact, but for those too long for their poll; at most 255 wait |
| EventRing.EnqueueIsAnswered | zone-client/src/net/udp_client.cpp:497-508 | however the threads interleave, an enqueue under way is accepted or refused, with its own packet, within as many steps of its thread as the packet has bytes and three |
| EventRing.PollIsAnswered | zone-client/src/net/udp_client.cpp:698-717 | and a poll is answered within 1503 steps of its thread |
| EventRing.TurnBegins | zone-client/src/net/udp_client.cpp:497-503 | a resting thread takes up the packet or the room of its turn, and changes nothing else |
| Groups.GroupManager.Invite | zone-server/internal/game/groups.go:78-107 | every outcome, and never an invitation to oneself |
| Groups.GroupManager.Decline | zone-server/internal/game/groups.go:123-140 | takes out and hands back the invitation of the target, and no other |
| Groups.GroupManager.Accept | zone-server/internal/game/groups.go:144-186 | equals the specified join, which `GroupRules.JoinRule` explains, uses the invitation up, and keeps the tables consistent; an unexpired invitation always finds its group |
| Groups.GroupManager.Leave | zone-server/internal/game/groups.go:194-230 | equals the specified departure, which `GroupRules.LeaveRule` explains, and returns the roster from before |
| Groups.GroupManager.Tick | zone-server/internal/game/groups.go:320-331 | the deleting loop drops exactly the invitations that have run out |
| Groups.GroupManager.ForgetSession | zone-server/internal/game/groups.go:336-351 | the deleting loop drops exactly the invitations from or to the session |
| Groups.GroupManager.IsSameGroup | zone-server/internal/game/groups.go:268-277 | true exactly when some group has both as members |
| Groups.JoinKeeps | zone-server/internal/game/groups.go:144-186 | joining keeps membership and member lists describing each other, members distinct and within the cap, the leader a member, ids fresh; a membership without its group cannot occur |
| Groups.DepartureKeeps | zone-server/internal/game/groups.go:194-230 | so does leaving, dissolution included |
| Groups.JoinThenLeave | zone-server/internal/game/groups.go:144-230 | joining and leaving again restores groups and memberships, but for the group number used up |
| GroupRules.JoinRule | zone-server/internal/game/groups.go:144-186 | joining succeeds if and only if the player is in no group and the roster of the inviter has room; the player is then last on it, under the same leader, and players outside notice nothing |
| GroupRules.LeaveRule | zone-server/internal/game/groups.go:194-230 | the group goes with its leader, and when one is left; otherwise the others stay in order under the same leader |
| GroupRules.LeaveUnnoticed | zone-server/internal/game/groups.go:194-230 | players of other groups notice nothing |
| Sessions.SessionManager.TryAddCapped | zone-server/internal/network/session.go:147-199 | who is evicted and who stays: exactly the other sessions with another address and another account; whether the session is added; the address index stays exact, one session per account; a table within its cap stays within it, with its cached list in step |
| Sessions.SessionManager.RemoveSession | zone-server/internal/network/session.go:266-276 | removes one session and its index entry |
| UniqueNames.CandidatesDiffer | zone-server/internal/network/session.go:238-248 | names with different numbers differ, whatever stands before the suffix |
| UniqueNames.FreeNumber | zone-server/internal/network/session.go:238-248 | the unbounded suffix loop ends, at the first free number, at most two past the number of taken names |
| UniqueNames.DigitsWrite | zone-server/internal/network/session.go:240 | the number in the suffix is decimal, without a leading zero, and is the number of the try |
| UniqueNames.CandidateForm | zone-server/internal/network/session.go:240-241 | a candidate is the longest valid piece of the name that leaves room for "~" and the number in 31 bytes, and these |
| UniqueNames.EnsureUniqueName | zone-server/internal/network/session.go:209-249 | the first free name in order; unlike every other session's when case is ignored; fits 31 bytes if and only if the wished name does or is taken, so always for the sanitised names of its caller |
| UniqueNames.WholePrefix | zone-server/internal/network/session.go:252-264 | the longest valid prefix |
| IdentityText.SplitLines | zone-client/src/identity/identity.cpp:279-309 | the splitting loop equals the recursive specification, line endings included |
| IdentityText.JoinOfSplit | zone-client/src/identity/identity.cpp:279-320 | joining the split lines gives back every byte string |
| IdentityText.ReadsBackIff | zone-client/src/identity/identity.cpp:279-320 | a list of lines survives joining and splitting exactly when every line is one that splitting can produce |
| IdentityText.KeyTextParses | zone-client/src/identity/identity.cpp:240-271 | a written key line parses to its key and value, also when the value contains '=' |
| IdentityGrammar.KeyValueIff | zone-client/src/identity/identity.cpp:208-271 | a text is a key line if and only if, past blanks and a byte order mark, it is no comment or header and has a word, an equals sign and a value, both stripped of white space, the word in small letters |
| IdentityGrammar.SectionIff | zone-client/src/identity/identity.cpp:208-239 | and a header if and only if it opens with a bracket and has a name before the first closing one |
| IdentityGrammar.SetsNamed | zone-client/src/identity/identity.cpp:508-563 | the keys set are client_uuid, hwid_hash and nickname |
| IdentityMerge.EditSection | zone-client/src/identity/identity.cpp:532-563 | rewrites exactly the first line of each key in the section whose value differs, and reports which keys it met |
| IdentityMerge.MergeCanonicalKeys | zone-client/src/identity/identity.cpp:508-600 | the edits, the insertion at the end of the section or the appended section, joined |
| IdentityGrammar.AddedSection | zone-client/src/identity/identity.cpp:586-600 | the section added to a file without one, line by line, in the line ending of the first line |
| IdentityMerged.OtherLinesKept | zone-client/src/identity/identity.cpp:504-600 | every line but the first setting of a canonical key is kept verbatim and in order; those keep their line ending and set the new value |
| IdentityMerged.MergeIdempotent | zone-client/src/identity/identity.cpp:508-600 | merging the merged lines changes nothing |
| IdentityMerged.MergedReadsBackIff | zone-client/src/identity/identity.cpp:508-600 | the written file splits into the merged lines exactly when the original ends with a line break or nothing can run into its last line |
| IdentityMerged.FileSettles | zone-client/src/identity/identity.cpp:508-600 | for such files, reading, merging and writing again reproduces the bytes |
| IdentityMerged.UntidyFile | zone-client/src/identity/identity.cpp:578-585 | a file for which it does not |
| IdentityReader.ReadCanonical | zone-client/src/identity/identity.cpp:627-665 | the scan at start-up equals the recursive specification |
| IdentityReader.ReadIsLast | zone-client/src/identity/identity.cpp:627-665 | what is read is what the last line of a [zone_identity] section that sets the key sets, and nothing exactly when there is none |
| IdentityRestart.MergedReads | zone-client/src/identity/identity.cpp:508-665 | from the bytes of a tidy file merged in its section, start-up reads the last setting behind the merged line, and the merged value when there is none |
| IdentityRestart.MergedNewReads | zone-client/src/identity/identity.cpp:508-665 | from the bytes of any file to which the section was added, start-up reads the merged value |
| IdentityRestart.FusedRewritten | zone-client/src/identity/identity.cpp:279-320 | of a file whose section ends it without a line break, the last line and the first added one read back as one line, all others as merged |
| IdentityRestart.RestartKeepsIff | zone-client/src/identity/identity.cpp:605-722 | for any file: a start-up that merges what it has read is followed by one that reads the same, if and only if the file is tidy or its last line does not set the key |
| IdentityRestart.NicknameRunsOn | zone-client/src/identity/identity.cpp:578-585 | a file whose nickname is read otherwise after a start-up |
| IdentityRestart.NicknameLost | zone-client/src/identity/identity.cpp:532-563 | a file in which no merged nickname is ever read |

## Left out

- Rounding, NaN and infinities of IEEE arithmetic, and the wrap-around of 32-bit cell keys, group ids and entity ids: the model computes in `real` and unbounded integers; an infinite border time is an absent one. File floats are 32-bit words, checked for finiteness and order as the code does, and denote exact numbers.
- The area test of `Build` compares squares, so no square root is needed; the two tests agree on exact numbers.
- `container/heap` is "remove an item of least priority"; `fScore` and the open-set map of A*, which no decision reads, are not kept. Neighbours and distances are parameters, the distance a metric.
- AStar.Search: minimality and unreachability are stated for graphs in which no two reachable waypoints round to one key; without that the code merges different waypoints.
- LosBuiltQuery.BuiltQueryEqualsMesh: for meshes that quantisation leaves in place; `LosBuiltQuery.BuiltQueryExact`, `LosBuiltQuery.ConsistentIff` and `LosBuiltQuery.BuiltHitIsNearWall` are the results for any mesh.
- LosHidden.SkipHides: on grids of 65534 rows or more, or with the bounds ending right behind the point, the coordinates of the missed wall may not fit 16 bits.
- LosBuiltFile.BuiltReadsBackIff: how `Build` rounds its results to 32-bit floats is not modelled; the words of the file are any, and their checks are part of the condition.
- TokenBucket.BoundIffRecovers: for capacities that are not whole numbers only one direction holds in the model, in `TokenBucket.AdmitsAtMost`; whether a smaller rate breaks the bound then depends on the fraction left in the bucket. The server runs with a capacity of 150.
- RollingWindow.Window: one window object stands for one attacker or session; the map from keys to windows and its clearing on disconnect are not modelled. The other checks of the damage validators (range, level, safe zone, faction, line of sight) decide whether a hit is charged and are not modelled.
- SQL, SQLite, rollback mechanics and mutexes: a transaction or a locked method is one atomic step. JSON text of stash contents is abstracted to a size that a contents list has; passcodes and access checks of stashes are not modelled.
- UniqueNames.EnsureUniqueName: case folding and UTF-8 validity are parameters; folding is assumed to leave an appended suffix of '~' and digits alone.
- ItemReplies.DropReply and the other replies: who is near enough to hear of a drop or a pickup is not modelled.
- ItemRuns.AtMostOnce: the rings of the container, stash and trade opcodes are kept as lists of ids and their transactions are only noted as reached; database failures other than refusals are not modelled.
- Merged identity values are trimmed and on one line, as start-up passes them; `SetNickname`, which nothing calls, could pass others.
- EventRing.EveryRunIsFifo: steps interleave in one order that both threads see; that the acquire and release orderings of the code give such an order for the slots it guards is not part of the model.
- AiVisibility.AiReplication.Tick: simulation of squads, combat and the throttling of state packets by time are not modelled; positions and registered squads are inputs.
- Fallbacks of start-up to other sections, legacy keys and generated identities, and the atomic file write: I/O, or choices outside the merge.
- Session fields other than id, account, address and name; `AddSession`, which skips the checks of `TryAddCapped`.
- The legacy single-item `BuyItem` and `SellItem`, `CreateCharacter`, packet structs, sockets, chat commands, provisioning and the proxy library: easy members or foreign calls.
