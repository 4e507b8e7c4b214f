# Verified core of the logistics RFQ showcase

A Dafny model of the parts of the showcase whose correctness is hardest to see by reading one
function at a time, with proofs of what those parts promise. `dafny verify dfyconfig.toml` checks
everything. Each file is one module.

**Maritime routing** (`src/geo-api`). A leg between two ports is the shortest path in a hand-authored
waypoint graph; each hop between waypoints is a direct geodesic chord if nothing is in the way, and
otherwise a shortest path on a grid, pulled straight again and stitched to its neighbours. Dijkstra
and A* are methods with their own loops, containers and heap; both are proved optimal and complete
against one invariant of best-first search with lazy deletion and a closed set that is never
reopened. Around them are the ring search for an entry cell, the line-of-sight simplifier, the five
padding attempts, the stitching of hops, and the two independent antimeridian splitters.

**Leg-geometry cache** (`src/geo-api`). A transition system of any number of processes and callers over one table
with insert-if-absent, and the cache class whose method is proved to do the same as a caller of
that system that runs alone. What happens when coordinates drift is stated over all runs, for the
program and for a variant whose insert overwrites.

**Quote store and pricing** (`src/mock-qms`, `src/mock-fx`, `src/approval-mcp`). Money, conversion, the margin
policy with its banded rounding, the calculation, and the in-memory store with its append-only
versions, mirrored status, decision log and id allocation. The store is a class; every method is
proved to perform a command of a functional specification. `QuoteSteps` takes each call apart into the
steps in which it touches what the threads share, and is proved to add up to the command when nothing
comes in between. The theorems about runs are about any number of threads that interleave these steps:
they compare the store with one in which every write is whole (`QuoteCoupling`), and from there say
which runs keep the store's promises, leave its mirrors right, keep its decisions, give out different
ids, and amount to their calls one after the other.

**Route topology** (`src/mock-tms`) and **policy texts** (`src/rfq_common`). The load-time validators of the
edge pool and the routes, equivalent to a declarative property; the indexes built from the pool; the
line-based policy splitter and the union of obligations.

The functions by which these theorems are stated say themselves what the program computes.  What they
amount to for the caller -- which field holds which argument, how far a cut is along its hop, which price
belongs to which margin, which characters end a line -- is stated without them, in numbers and literals,
by the modules `OceanPathMeaning`, `PriceMeaning`, `QuoteMeaning`, `ReloadMeaning` and `PolicyMeaning`, and
in the other modules by the contracts of the methods and the lemmas beside each function.

## Where the code and its documentation differ

The model follows the code. These differences are stated as lemmas.

- `ocean_path` promises that both end points are preserved exactly. When the chord is blocked and both
  ends enter the grid through the same cell, the result is the destination alone. For every result the
  promise holds if and only if the ends do not share their entry cell, or are equal
  (`OceanPaths.EndsArePreservedIff`); `OceanPaths.SharedEntryCellLosesTheOrigin` gives two points.
- Consequently a stitched leg need not pass its waypoints. It does if and only if every hop keeps its
  ends, a condition on the graph and the earth (`LegCoords.OceanLegVisitsWaypoints`).
- The raw fallback of `ocean_path` is called already valid, but nothing checks it against land
  (`OceanPaths.SearchedPathIsStraightOrRaw`).
- `MAX_CELLS_PER_AXIS` is 400, but rounding after coarsening can give 401. Exactly when is
  `OceanGrid.GridFitsIff`.
- Rule D9 of the cache says that a row with drifted coordinates is not silently served. A computed
  answer obeys it if and only if, just before the caller's own insert, the key was absent or its row
  matched (`LegCacheDrift.ComputedAnswerMatchesIff`, over all runs); it fails even when the key was absent
  at both looks (`LegCacheDrift.RaceServesOtherCoordinates`). An insert that overwrites would meet the rule
  within one process and not across processes (`LegCacheDrift.UpsertMeetsRuleInOneProcess`,
  `LegCacheDrift.UpsertRaceServesOtherCoordinates`).
- An ocean leg from a place to itself has no coordinates at all (`LegCoords.BuildLegCoords`).
- The land test cuts a line of longitudes wrapped to [-180, 180), the published geometry cuts it as it
  is. The parts are the same exactly if no longitude had to be wrapped; 180 itself does
  (`Antimeridian.TestedPartsArePublishedIff`).
- `price_version` calls itself the atomic command, and the store its appends guarded against lost races.
  But every operation reads, works and only then writes, without looking again, and the web layer runs
  handlers on several threads. The steps of a run keep the promises of the store if and only if every put
  finds what its call looked at and no counter is raised between a create's taking its id and its raising
  the counter (`QuoteRaces.RunIsLawfulIff`); the writes are those of whole calls one after the other if and
  only if nothing they rely on changed (`QuoteRaces.RunIsSerialIff`). What goes wrong otherwise is shown by
  the runs of `QuoteCollisions` and `QuoteCreates`: two supersedes with one number, two logged decisions, a
  composition that is lost, a decision that is taken back, two quotes with one id. Two creates share an id
  only if one takes it between two adjacent statements of the other (`QuoteCreates.TwoCreatesShareAnIdIff`).
- `latest_version_status` and `latest_version` of a quote are meant to mirror its last version, and
  searching by status relies on it. They are copied and written back after the version has been put, and can be written
  by a call that another one has overtaken, although all puts are safe
  (`QuoteCollisions.DecisionIsNotMirrored`, `QuoteCollisions.NewVersionIsNotMirrored`). Once the writes of a
  quote are over its mirror is right if and only if the mirror written last was
  (`QuoteMirrors.MirrorAgreesIffLastIsRight`).
- A logged decision is meant to be final. It stands if and only if none of the calls that had looked before
  -- at the undecided version, or at the counter that gave the quote its id -- writes over it afterwards
  (`QuoteDecisions.DecisionStandsIff`), and under the same condition what a resume has reported stays true
  (`ApprovalMcp.ResumedStatusIsCurrentIff`).
- Prices are computed with 28-digit decimals. A quotient can lose the fraction that calls for one more cent
  (`PricingContext.SellPriceBoundIsSharp`, `PricingContext.MarginBoundIsSharp`), but commercial rounding
  hides that: a calculation is exact if and only if its price fits into 28 digits, and else refused
  (`CalculatorContext.CalculationIsExactIff`).

## Model

| member | source | states |
|---|---|---|
| BestFirstSearch.RelaxKeepsExpanding | src/geo-api/geo_api/ocean_astar.py:178-189 | looking along one arc keeps the search invariant and leaves every closed vertex and its cost alone |
| BestFirstSearch.ClosedIsNotImproved | src/geo-api/geo_api/ocean_astar.py:173-189 | with a consistent estimate an arc that improves a vertex never leads to a closed one, so a closed set that is never reopened is sound |
| BestFirstSearch.CloseStartsExpanding | src/geo-api/geo_api/routing.py:119-125 | the entry taken off the heap, if not stale, carries the best known cost of its vertex, and closing it keeps the invariant |
| BestFirstSearch.SkipKeepsInv | src/geo-api/geo_api/routing.py:121-122 | dropping the entry of a vertex closed before (lazy deletion) loses no open vertex |
| BestFirstSearch.WalksPay | src/geo-api/geo_api/ocean_astar.py:171-189 | any walk that leaves the expanded part of the graph costs at least the least priority on the heap |
| BestFirstSearch.ClosedGoalIsCheapest | src/geo-api/geo_api/ocean_astar.py:176-177 | when the goal is closed, no walk to it costs less than its known cost |
| BestFirstSearch.EmptyHeapMeansExplored | src/geo-api/geo_api/routing.py:132-134 | an empty heap with the goal still open means that no walk reaches the goal |
| BestFirstSearch.PopLeast | src/geo-api/geo_api/routing.py:120 | the heap yields an entry of least priority, ties broken in any way |
| BestFirstSearch.WalkBack | src/geo-api/geo_api/ocean_astar.py:195-199 | walking the parents back terminates, because parents were closed earlier, and gives a walk from start to goal of exactly the goal's known cost |
| MaritimeGraphs.LoadGraph | src/geo-api/geo_api/routing.py:94-108 | loading succeeds iff every edge names known nodes; then a node lists a neighbour at a distance iff an entry joins the two, in either order, and the distance is the geodesic one between them, and the kind of a pair is what the last entry for it says, which is "ocean" if it is a bare pair or names no kind |
| MaritimeGraphs.LoadedGraphIsSymmetric | src/geo-api/geo_api/routing.py:104-106 | adjacency is symmetric with equal distances, and every listed pair has a kind |
| MaritimeGraphs.LoadedGraphIsSound | src/geo-api/geo_api/routing.py:94-108 | a loaded graph is one the search and the stitching can rely on |
| MaritimeGraphs.RelaxNeighbours | src/geo-api/geo_api/routing.py:126-131 | the neighbour loop restores the search invariant with all arcs out of the closed node relaxed |
| MaritimeGraphs.Dijkstra | src/geo-api/geo_api/routing.py:111-140 | terminates; returns a path of least total distance; reports no path iff the end is unreachable, and a missing node iff one is missing |
| MaritimeGraphs.PathFollowsEdges | src/geo-api/geo_api/routing.py:174-175 | every consecutive pair of a returned path has an edge kind |
| GridAStar.ShiftsAreOneRing | src/geo-api/geo_api/ocean_astar.py:154 | the eight offsets reach exactly the cells at Chebyshev distance one |
| GridAStar.StraightLineIsConsistent | src/geo-api/geo_api/ocean_astar.py:163-164 | distance to the goal is a consistent estimate for any metric |
| GridAStar.WalkIsGridPath | src/geo-api/geo_api/ocean_astar.py:178-185 | a walk of the searched graph is a king's walk through open cells whose length is the walk's cost |
| GridAStar.GridPathIsWalk | src/geo-api/geo_api/ocean_astar.py:178-185 | and conversely every such king's walk is a walk of the searched graph |
| GridAStar.CheapestIsShortest | src/geo-api/geo_api/ocean_astar.py:195-199 | a cheapest walk is a shortest grid path |
| GridAStar.UnreachableMeansNoGridPath | src/geo-api/geo_api/ocean_astar.py:191-193 | if no walk reaches the goal, no grid path does |
| GridAStar.RelaxNeighbours | src/geo-api/geo_api/ocean_astar.py:178-189 | the loop over the eight offsets covers every open neighbour and restores the invariant |
| GridAStar.AStarGrid | src/geo-api/geo_api/ocean_astar.py:157-199 | fails iff no path of open cells exists, and otherwise returns a shortest one; terminates |
| OceanGrid.BuildGrid | src/geo-api/geo_api/ocean_astar.py:60-89 | at least two lines per axis; a cell is open iff the mask does not block its centre |
| OceanGrid.GridIsLaidOut | src/geo-api/geo_api/ocean_astar.py:66-74 | both axes start at their lower edge and advance by one resolution, which is coarsened but never refined, in as many lines as the span asks for |
| OceanGrid.GridIsBounded | src/geo-api/geo_api/ocean_astar.py:66-72 | after coarsening an axis has at most 401 cells |
| OceanGrid.GridFitsIff | src/geo-api/geo_api/ocean_astar.py:66-72 | both axes keep the advertised 400 cells iff the base resolution needs no coarsening or both spans are below 399.5 coarsened cells |
| OceanGrid.GridCanExceedAdvertisedMaximum | src/geo-api/geo_api/ocean_astar.py:69-72 | 401 does occur |
| OceanGrid.LastLineMeetsEdge | src/geo-api/geo_api/ocean_astar.py:66-74 | the last grid line is within half a cell of the requested edge iff the axis spans at least half a cell |
| OceanGrid.GeodesicPoints | src/geo-api/geo_api/ocean_astar.py:212-224 | a chord keeps its two ends |
| OceanGrid.GeodesicPointsAreChord | src/geo-api/geo_api/ocean_astar.py:212-224 | a chord consists of its ends and the geodesic between them, in order, one point for every hundred kilometres but the last, to the nearest, and never more than 300 |
| OceanGrid.NearestNavigable | src/geo-api/geo_api/ocean_astar.py:92-151 | returns the first safe cell in scan order around the clamped index, and fails iff no safe cell lies within the ring limit |
| OceanGrid.EntryIsNearestAndUnique | src/geo-api/geo_api/ocean_astar.py:131-143 | that cell is at least Chebyshev distance and determined by the input |
| OceanGrid.SmallGridsAreSearchedWhole | src/geo-api/geo_api/ocean_astar.py:125 | with at most sixty cells per axis the ring limit excludes nothing |
| OceanGrid.LineOfSightSimplify | src/geo-api/geo_api/ocean_astar.py:227-243 | the loop computes the greedy simplification |
| OceanGrid.FarthestSeenIsFarthest | src/geo-api/geo_api/ocean_astar.py:236-240 | the scan from the far end stops at the farthest point with a clear chord, or at the successor |
| OceanGrid.KeptIsGreedy | src/geo-api/geo_api/ocean_astar.py:232-243 | the kept points are a subsequence up to the last point whose hops join neighbours or are clear and cannot be longer |
| OceanGrid.GreedyHopsAreKept | src/geo-api/geo_api/ocean_astar.py:232-243 | and they are the only such subsequence |
| OceanPaths.Wrap | src/geo-api/geo_api/ocean_astar.py:39-40 | the wrapped longitude is in [-180, 180), a whole number of turns away from the given one, and the only such longitude |
| OceanPaths.UnwrappedEndsAreClose | src/geo-api/geo_api/ocean_astar.py:51-57 | after shifting, the ends are at most half a turn apart |
| OceanPaths.DirectChord | src/geo-api/geo_api/ocean_astar.py:246-258 | a direct chord keeps both ends and has at least two points |
| OceanPaths.Attempt | src/geo-api/geo_api/ocean_astar.py:301-340 | one padding fails iff an end has no safe entry cell or the entries are not connected; else it yields a shortest grid path between them |
| OceanPaths.OutcomesExclude | src/geo-api/geo_api/ocean_astar.py:319-340 | failing and yielding exclude each other |
| OceanPaths.StraightenedKeepsEnds | src/geo-api/geo_api/ocean_astar.py:350-363 | straightening with the land check keeps the ends, and the length one iff it was one |
| OceanPaths.StraightenChecked | src/geo-api/geo_api/ocean_astar.py:350-363 | the checking loop returns the simplified path iff all its chords clear raw land, else the raw path |
| OceanPaths.OceanPath | src/geo-api/geo_api/ocean_astar.py:269-377 | a clear chord is returned as it is; otherwise the first padding that succeeds decides, and the call fails iff all five fail |
| OceanPaths.EndsArePreservedIff | src/geo-api/geo_api/ocean_astar.py:346-367 | every returned path ends at the destination; it starts at the origin iff the two ends do not share their entry cell or are equal, and has a second point iff they do not share it |
| OceanPaths.SharedEntryLosesTheOrigin | src/geo-api/geo_api/ocean_astar.py:319-348 | whenever the chord is blocked and the ends share their entry cell at the first padding that succeeds, the only possible result is the destination alone |
| OceanPaths.DirectChordPreservesEnds | src/geo-api/geo_api/ocean_astar.py:278-283 | a direct chord starts and ends at the given points |
| OceanPaths.SearchedPathIsStraightOrRaw | src/geo-api/geo_api/ocean_astar.py:342-369 | whatever is returned for a blocked chord is the first successful padding's raw path reduced to greedy hops all clear of land, or all of that raw path, of which nothing is checked |
| OceanPaths.LongitudesAreWrapped | src/geo-api/geo_api/ocean_astar.py:365-367 | every returned longitude is in the standard range |
| OceanPathMeaning.RouteMeans | src/geo-api/geo_api/ocean_astar.py:261-377 | whatever a call returns for two points, in numbers: the ends, one a turn further east if they are more than half a turn apart; if their chord is clear of the blocked mask, the chord or a line with a point for every 300 km, twenty to a hundred of them; otherwise, at the first of five paddings at which an end has a safe cell within reach and the two cells are connected, a shortest grid path between them through cell centres, pulled straight from each point to the farthest in sight, or left as it is if that crosses land; and every point of the result but its ends has the latitude of its point on that line and a longitude in [-180, 180) whole turns away from its; it fails only if all five paddings do |
| OceanPathMeaning.AnchoredRetraces | src/geo-api/geo_api/ocean_astar.py:39-40 | a line with wrapped longitudes and its ends put back is the line point by point, up to whole turns |
| OceanPathMeaning.DirectChordIsDirect | src/geo-api/geo_api/ocean_astar.py:246-258 | the direct line has the ends and the points of the geodesic between them, in order, as many as the longer of the chord and one for every 300 km, twenty to a hundred |
| OceanPathMeaning.RasterIsPadded | src/geo-api/geo_api/ocean_astar.py:285-317 | the grid of a padding reaches as many times fifteen percent of the distance of the ends, or two degrees, beyond them on every side, cut off a degree short of the poles, has about 160 lines along the longer distance before coarsening, and blocks a cell iff the mask blocks its centre |
| OceanPathMeaning.HomeIsNearest | src/geo-api/geo_api/ocean_astar.py:319-336 | the index from which an entry is looked for is that of the nearest row and the nearest column |
| OceanPaths.SharedEntryCellLosesTheOrigin | src/geo-api/geo_api/ocean_astar.py:346-348 | with a metric distance, an earth that meets every assumption and two concrete distinct points, every run returns the single destination point, and there is such a run |
| LegCoords.GeodesicSegment | src/geo-api/geo_api/routing.py:143-152 | a segment between separate places keeps both ends; between coinciding ones it is a single point |
| LegCoords.GeodesicSegmentIsGeodesic | src/geo-api/geo_api/routing.py:143-152 | between its ends lie the points of the geodesic, in order, one for every 300 km, twenty to a hundred of them |
| LegCoords.StitchKeepsPieces | src/geo-api/geo_api/routing.py:173-183 | whether or not the pieces join up, the line is the first piece and then every other one without its first point |
| LegCoords.StitchVisitsEveryNode | src/geo-api/geo_api/routing.py:173-183 | the stitched line starts and ends at the outer nodes and contains each piece in its place, every join point once |
| LegCoords.HopEnds | src/geo-api/geo_api/routing.py:175-180 | whatever a hop comes out as, it runs from its node to the next iff it is trusted and leads some distance, or is not trusted and its ends do not share an entry cell, or both nodes are at one point |
| LegCoords.PiecesConnectIff | src/geo-api/geo_api/routing.py:173-181 | the hops join up at the waypoints iff every hop of the waypoint path meets that condition on the graph and the earth |
| LegCoords.OceanLegVisitsWaypoints | src/geo-api/geo_api/routing.py:167-183 | the line has every waypoint in its place, first to last, iff every hop meets that condition; otherwise some waypoint is missing from its place |
| LegCoords.ResolveHop | src/geo-api/geo_api/routing.py:175-180 | a hop of kind "canal" or "segment" is a geodesic between its nodes, any other an ocean path; it fails only when that does |
| LegCoords.OceanLegCoords | src/geo-api/geo_api/routing.py:167-183 | a leg is the stitched hops along a shortest waypoint path, and empty iff it leads from a place to itself; it reports a missing node iff an end is not in the graph, no path iff the ends are and none leads from one to the other, and otherwise fails only at a hop of a shortest path, after the hops before it, whose ocean path fails |
| LegCoords.BuildLegCoords | src/geo-api/geo_api/routing.py:155-186 | air legs are geodesics, all others but ocean legs a straight line; an ocean leg needs a graph and is routed, empty and reported as missing a node or a path under exactly those conditions, and fails otherwise only at such a hop |
| Antimeridian.SplitAntimeridian | src/geo-api/geo_api/routing.py:189-205 | the loop computes the split with routing's cut; for longitudes in range no segment jumps, every inserted pair lies on the hop that it cuts, at the longitude and the latitude at which the hop crosses, and without the pairs the segments are the input |
| Antimeridian.LineParts | src/geo-api/geo_api/landmask.py:217-230 | the loop computes the split, with landmask's cut, of the points with each longitude wrapped into [-180, 180); every inserted pair lies on the hop that it cuts, and without the pairs the parts are those points |
| Antimeridian.CutLiesOnHop | src/geo-api/geo_api/routing.py:194-200 | the interpolation parameter is in [0, 1] and the cut latitude between the hop's |
| Antimeridian.CutIsOnHop | src/geo-api/geo_api/routing.py:194-200 | the cut is where the chord of the unwrapped hop meets the antimeridian: its latitude is that far from the first as its longitude is, in proportion |
| Antimeridian.CutSides | src/geo-api/geo_api/routing.py:201-203 | both splitters put the cut on the same side, at most half a turn from either end |
| Antimeridian.ExtendKeepsSplit | src/geo-api/geo_api/routing.py:192-204 | one more hop keeps segments free of jumps and neighbours meeting at a cut |
| Antimeridian.SplitIsFaithful | src/geo-api/geo_api/routing.py:189-205 | with a cut that is on its hop, in range: no segment jumps more than half a turn, there is one segment more than there are crossings, neighbouring segments meet at a point and its opposite on the hop between the points next to them, and deleting those gives the input back |
| Antimeridian.SplitKeepsPoints | src/geo-api/geo_api/routing.py:189-205 | with either way of cutting, for any coordinates, deleting the cut pairs gives the input back |
| Antimeridian.SplittersAgreeIff | src/geo-api/geo_api/landmask.py:217-230 | for any coordinates the two ways of cutting give the same segments iff no crossing hop starts at longitude zero |
| Antimeridian.TestedPartsArePublishedIff | src/geo-api/geo_api/landmask.py:217-230 | the land test and the published geometry use the same segments of a line iff all its longitudes are in [-180, 180) |
| LegCache.MatchingIsNotTransitive | src/geo-api/geo_api/cache.py:172-178 | matching within a tolerance is not transitive |
| LegCache.MatchesIffNear | src/geo-api/geo_api/cache.py:172-178 | a row matches iff each of its four coordinates, of origin and destination, is less than a millionth of a degree from the caller's |
| LegCache.CallMeans | src/geo-api/geo_api/cache.py:148-169 | under the lock the leg is computed iff no row is found or one of the found row's four coordinates is off by a millionth of a degree or more; an answer that is not computed is the found row's, a computed one is what a row that was there or arrived holds, and else what was computed, which the table then holds with the caller's coordinates |
| LegCache.LegGeometryCache.LockFor | src/geo-api/geo_api/cache.py:80-86 | a key's lock is made once and never replaced; different keys have different locks |
| LegCache.LegGeometryCache.Write | src/geo-api/geo_api/cache.py:100-119 | inserts if absent, else leaves the table alone |
| LegCache.LegGeometryCache.GetOrCompute | src/geo-api/geo_api/cache.py:122-169 | a hit answers from the table; otherwise the effect is that of one call on the rows found under the lock, among the rows that other processes insert while the lock is awaited, while the leg is computed and between the insert and the re-read, and the lock is free on every way out; it computes iff the rows under the lock have no row of the key that is near in all four coordinates |
| LegCacheProtocol.StepGrowsRows | src/geo-api/geo_api/cache.py:104-118 | no step ever changes or removes a row |
| LegCacheProtocol.StepKeepsInv | src/geo-api/geo_api/cache.py:122-169 | every step of every caller, also an exception, keeps locks distinct, held by exactly one caller inside, and answers equal to the table |
| LegCacheProtocol.RunKeepsInv | src/geo-api/geo_api/cache.py:122-169 | so does every run |
| LegCacheProtocol.AllAnswersAgree | src/geo-api/geo_api/cache.py:162-169 | all callers of a key in all processes, now and later, return the same value |
| LegCacheProtocol.SingleFlight | src/geo-api/geo_api/cache.py:147-169 | in one process at most one caller per key is past the lock |
| LegCacheProtocol.CallsEndCleanly | src/geo-api/geo_api/cache.py:148-169 | the final re-read always finds a row, and a finished or failed caller holds no lock |
| LegCacheProtocol.HolderCanStep | src/geo-api/geo_api/cache.py:147-169 | in every run a waiting caller can take its lock, or the holder's next ordinary step is possible and brings it nearer to giving the lock back |
| LegCacheProtocol.CacheRefinesComputation | src/geo-api/geo_api/cache.py:9-13 | with stable coordinates and a deterministic computation every answer is what computing gives, and a process completes at most one computation per key more than it lost to exceptions |
| LegCacheProtocol.ProtocolRefinesSoloCall | src/geo-api/geo_api/cache.py:122-169 | a caller that runs alone does what one call of the method does |
| LegCacheDrift.ComputedAnswerMatchesIff | src/geo-api/geo_api/cache.py:127-169 | over all runs the row behind a computed answer has the caller's coordinates iff, just before the caller's own insert, the key was absent or its row matched |
| LegCacheDrift.LooksAreExact | src/geo-api/geo_api/cache.py:135-156 | a caller that looks, before or under the lock, is answered iff there is a row each of whose four coordinates is within a millionth of a degree of the caller's; otherwise it goes on to the lock, or to computing |
| LegCacheDrift.ReadAnswerMatches | src/geo-api/geo_api/cache.py:135-156 | over all runs an answer that was read before or under the lock comes from a row each of whose four coordinates is within a millionth of a degree of the caller's |
| LegCacheDrift.RaceServesOtherCoordinates | src/geo-api/geo_api/cache.py:158-169 | for any two coordinates a run exists in which the key was absent whenever the caller looked and the answer is still another process's |
| LegCacheDrift.UpsertAnswerMatchesIff | src/geo-api/geo_api/cache.py:104-111 | with an overwriting insert, over all runs, the re-read row has the caller's coordinates iff the last insert of the key after its own, if any, had |
| LegCacheDrift.UpsertMeetsRuleInOneProcess | src/geo-api/geo_api/cache.py:147-169 | within one process the lock makes that variant meet D9 in every interleaving: a computed answer comes from a row with exactly the caller's four coordinates |
| LegCacheDrift.UpsertRaceServesOtherCoordinates | src/geo-api/geo_api/cache.py:104-111 | across processes it does not: a run exists |
| Moneys.MajorRoundTrips | src/mock-qms/mock_qms/pricing/money.py:48-57 | writing an amount in major units and reading it back gives the amount |
| Moneys.MinorUnitsAreTenths | src/mock-qms/mock_qms/pricing/money.py:48-57 | with every decimal of the currency an amount is ten times as many minor units |
| Moneys.AddIsExact | src/mock-qms/mock_qms/pricing/money.py:59-67 | adding is defined iff currency and scale agree, exact and commutative |
| Moneys.ConvertedAmountIsExact | src/mock-qms/mock_qms/store.py:330-334 | a converted amount becomes money without a second rounding |
| Moneys.BookingMeans | src/mock-fx/mock_fx/convert.py:18-24 | a line in EUR counts with its own amount, any other with amount times rate, in minor units; what is booked is that number to the nearest whole one, a half away from zero, and refused if it is negative |
| Moneys.BookedIsWithinHalf | src/mock-fx/mock_fx/convert.py:18-24 | a converted line is booked within half a minor unit, an EUR line exactly |
| Moneys.TotalErrorIsBounded | src/mock-qms/mock_qms/store.py:314-339 | a total is within half a minor unit per converted line of the exact sum |
| Pricing.CeilDivIsLeast | src/mock-qms/mock_qms/pricing_policy.py:75-77 | the ceiling of a quotient is at most q iff the numerator is at most q times the denominator |
| PricingContext.RoundedExists | src/mock-qms/mock_qms/pricing_policy.py:76 | every number has exactly one value to 28 significant digits, ties to even |
| PricingContext.SellPriceIsUnaffected | src/mock-qms/mock_qms/pricing_policy.py:75-77 | rounding the quotient to 28 digits before the ceiling gives the exact ceiling, for every quotient below ten to the 25 |
| PricingContext.SellPriceBoundIsSharp | src/mock-qms/mock_qms/pricing_policy.py:75-77 | right above that bound a cost exists whose price comes out one cent short |
| PricingContext.MarginIsUnaffected | src/mock-qms/mock_qms/pricing_policy.py:106-110 | rounding the margin ratio to 28 digits gives the exact ceiling, whatever the cost, if cost and price are at most ten to the 24 apart |
| PricingContext.MarginBoundIsSharp | src/mock-qms/mock_qms/pricing_policy.py:106-110 | three times that far apart a cost and a price exist whose margin comes out a tenth of a percent short |
| CalculatorContext.SellPriceIsExactIff | src/mock-qms/mock_qms/pricing_policy.py:70-97 | the price with commercial rounding is the exact one, for every cost and target, although the quotient before may have lost its last cents, iff it fits into 28 digits, a condition on cost and target; otherwise it is refused |
| CalculatorContext.MarginIsExact | src/mock-qms/mock_qms/pricing_policy.py:100-110 | the margin of any grid price up to 28 digits that covers its cost is the exact one |
| CalculatorContext.CalculationIsExactIff | src/mock-qms/mock_qms/pricing/calculator.py:57-123 | the whole calculation with every quotient rounded to 28 digits has exactly the result or the error of the exact one iff the price, if it comes to one, fits into 28 digits; otherwise it is refused |
| Pricing.RoundUpIsLeastGridPrice | src/mock-qms/mock_qms/pricing_policy.py:81-97 | rounding up gives the least price of the banded grid not below the amount, also across the band edges |
| Pricing.RoundUpIsClosure | src/mock-qms/mock_qms/pricing_policy.py:81-97 | rounding up is extensive, monotone and idempotent |
| Pricing.LeastCompliantPrice | src/mock-qms/mock_qms/pricing_policy.py:70-97 | the price is the least grid price p with p * (1000 - t) >= 1000 * C |
| Pricing.ComposedPrice | src/mock-qms/mock_qms/pricing/calculator.py:95-96 | the two policy functions composed never fail on a valid target and give that price |
| Pricing.CompliantPriceHasMargin | src/mock-qms/mock_qms/pricing_policy.py:100-110 | a compliant price has at least the target margin after rounding |
| Pricing.FloorIsSafeIff | src/mock-qms/mock_qms/pricing/calculator.py:99-101 | R1 is never below the floor, for any cost, iff the profile's base is within its cap and its FX adjustment is not negative |
| Pricing.ShippedProfilesAreSafe | src/mock-qms/mock_qms/pricing_policy.py:48-62 | both shipped profiles, and the fallback for an unknown reference, satisfy that |
| Calculator.CalculatePricing | src/mock-qms/mock_qms/pricing/calculator.py:57-123 | the loops compute the calculation that PriceMeaning.CalculationInNumbers and PriceMeaning.FailuresInNumbers describe |
| Calculator.SumIsTotal | src/mock-qms/mock_qms/pricing/calculator.py:64-68 | summing succeeds iff all costs share currency and scale, and gives their exact sum |
| Calculator.CalculationSucceedsIff | src/mock-qms/mock_qms/pricing/calculator.py:57-97 | a calculation succeeds iff the costs share a unit, their sum is positive and R2 does not divide by a previous rate of zero |
| Calculator.CalculationIsSound | src/mock-qms/mock_qms/pricing/calculator.py:64-112 | the price is the least compliant one for the target that R2 leads to, R1 is within threshold, and total, rate and R2 are those of the inputs |
| Calculator.R2FiresIff | src/mock-qms/mock_qms/pricing/calculator.py:86-90 | R2 is over threshold iff the rate moved by more than 2.05 percent of the previous one |
| PriceMeaning.CalculationInNumbers | src/mock-qms/mock_qms/pricing/calculator.py:57-123 | of every successful calculation: the total is the sum of the costs, the rate used that of the last conversion, and the price the least multiple of 5, 10 or 50 in its band that leaves 18 percent, 20 after a rate breach, and 12 or 14 for "strategic-account"; the margin is the one of that price, and the five rule results are R1 against 18 or 12 percent, R2, and three that are not evaluated |
| PriceMeaning.TargetsInNumbers | src/mock-qms/mock_qms/pricing_policy.py:48-67 | "strategic-account" means 12 percent, 14 after a breach, every other reference and none 18 and 20 |
| PriceMeaning.BreachNeverLowersPrice | src/mock-qms/mock_qms/pricing/calculator.py:86-96 | of two calculations for the same costs and reference that differ in the previous rate, the one whose rate is over threshold has no lower price |
| PriceMeaning.FailuresInNumbers | src/mock-qms/mock_qms/pricing/calculator.py:57-97 | the first cost in another currency or scale is reported as that; otherwise a previous rate of zero to compare with as a division by zero, a total of nothing as an invalid margin, and nothing else fails |
| Decimals.QuoteIdReadsBack | src/mock-qms/mock_qms/store.py:83 | the number in an allocated id reads back |
| Decimals.NumeralHasNoLeadingZero | src/mock-qms/mock_qms/store.py:170 | the number in an id is written without leading zeros |
| Decimals.FirstIds | src/mock-qms/mock_qms/store.py:107 | the first id given out is Q-1001 |
| Decimals.DecisionKeysAreDistinct | src/mock-qms/mock_qms/store.py:392 | different versions never share a key of the decision log, whatever their quote ids contain |
| Decimals.FirstKeys | src/mock-qms/mock_qms/store.py:392 | a key is the quote id, a colon and the number |
| QuoteInvariant.VersionAt | src/mock-qms/mock_qms/store.py:186-187 | the linear search for version n finds position n - 1, and nothing iff there is no such version |
| QuoteInvariant.LaterRateIsHarmless | src/mock-qms/mock_qms/pricing/calculator.py:79-90 | pricing an earlier version later does not falsify the R2 stored with a later one |
| QuoteInvariant.ReplaceKeepsHistories | src/mock-qms/mock_qms/store.py:232-239 | replacing a version keeps numbering and chain, and the mirrored status equal to the last version's |
| QuoteInvariant.PricedReplays | src/mock-qms/mock_qms/store.py:341-358 | what pricing writes can be recomputed from stored fields of the version and the rate its predecessor stored when it was read |
| QuoteInvariant.RewriteKeepsLog | src/mock-qms/mock_qms/store.py:376-393 | moving an undecided version on keeps exactly one log record per decided version |
| QuoteInvariant.AppendKeepsHistory | src/mock-qms/mock_qms/store.py:203-230 | a draft with the next number, chained to the last version, keeps a history good |
| QuoteInvariant.InsertKeepsInv | src/mock-qms/mock_qms/store.py:168-178 | storing a first draft under an id that no quote has keeps the invariant |
| QuoteInvariant.ReloadEstablishesInvIff | src/mock-qms/mock_qms/store.py:105-166 | a reload leaves a good store, however far it gets, iff it was not stopped by a fixture that asks for no version |
| QuoteInvariant.SearchIsScan | src/mock-qms/mock_qms/store.py:398-406 | searching by status finds exactly the quotes whose last version has that status |
| QuotePricing.PricingSucceedsIff | src/mock-qms/mock_qms/store.py:298-347 | pricing succeeds iff the version is a composed draft, the services are there, the route is executable, every rate resolves in one unit to a positive total, and R2 is defined |
| QuotePricing.StoredTotalIsTheSum | src/mock-qms/mock_qms/store.py:314-357 | the stored total is the sum of all referenced rates and the stored snapshot the last conversion's rate |
| QuotePricing.StoredTotalIsCloseToExact | src/mock-qms/mock_qms/store.py:314-339 | the stored total is within half a minor unit per converted rate of the exact cost |
| QuotePricing.ComposedDraftCanBePriced | src/mock-qms/mock_qms/store.py:298-359 | every composed draft can be priced when the services answer favourably |
| QuotePricing.PricingIsReachable | src/mock-qms/mock_qms/store.py:168-264 | three calls lead from the empty store to a state in which a version can be priced |
| QuoteMeaning.StoredIsFound | src/mock-qms/mock_qms/store.py:186-187 | in a good store version n is found iff it is the n-th of its history, and carries that number |
| QuoteMeaning.CreationMeans | src/mock-qms/mock_qms/store.py:168-178 | creating for a known customer stores a quote with the given fields and its first draft, with nothing composed and nothing computed, under an id that no quote has; for an unknown one, or if nobody answers, nothing changes |
| QuoteMeaning.SupersedeMeans | src/mock-qms/mock_qms/store.py:189-230 | superseding succeeds iff both numbers given are the number of versions; it appends one draft with the next number, chained, created by the same and with the same inputs if asked for, and with nothing computed |
| QuoteMeaning.RevisionIsRefused | src/mock-qms/mock_qms/store.py:241-247 | a command on a version that is not there is refused as unknown, one on a version that is not a draft, priced for a submit or awaiting approval for a decision as in the wrong state, and nothing changes |
| QuoteMeaning.RecommendationMeans | src/mock-qms/mock_qms/store.py:249-255 | a composed recommendation puts the recommendation and the route given into the draft and keeps its other inputs; nothing else changes |
| QuoteMeaning.PricingInputsMean | src/mock-qms/mock_qms/store.py:257-264 | composed pricing inputs put the rates, the FX reference, the pricing terms and the margin floor given each into its own field and keep recommendation and route; nothing else changes |
| QuoteMeaning.RateMeans | src/mock-qms/mock_qms/store.py:314-339 | a rate is its base cost and surcharges: in EUR exactly that in minor units, otherwise what converting it answers to the nearest minor unit, a half to the even one, with the rate of the conversion; and which answer of which service leads to which error |
| QuoteMeaning.PricingMeans | src/mock-qms/mock_qms/store.py:276-359 | pricing is refused, in this order, for an incomplete draft or missing services, a route that cannot be executed, the first rate that cannot be had, and a failing calculation; otherwise the draft becomes priced with the total, price, margin, rate and rules calculated from its rates, the rate stored by the version right before it, and its own margin floor |
| QuoteMeaning.PricedInNumbers | src/mock-qms/mock_qms/store.py:341-359 | the price stored is the least round price for the total of all its rates at 12 or 14 percent if the margin floor is "strategic-account", and at 18 or 20 otherwise |
| QuoteMeaning.FloorGovernsPrice | src/mock-qms/mock_qms/store.py:257-359 | a draft composed with "strategic-account" and priced is held against 12 percent by R1 and has the least round price for 12 percent, or 14 after a rate breach; one composed with any other reference against 18, for 18 or 20 |
| QuoteMeaning.SubmissionMeans | src/mock-qms/mock_qms/store.py:361-374 | submitting a priced version asks for approval and changes nothing else |
| QuoteMeaning.DecisionMeans | src/mock-qms/mock_qms/store.py:376-393 | each of the three decisions on a version awaiting approval becomes its status and its one record, with who decided, why and when |
| QuoteMeaning.SearchMeans | src/mock-qms/mock_qms/store.py:398-406 | a quote is found iff it has the customer and the RFQ asked for, and its last version the status, as far as they are given |
| ReloadMeaning.ReloadMeans | src/mock-qms/mock_qms/store.py:105-166 | a reload that is not stopped leaves exactly the fixtures, the last one of an id counting, each with as many chained drafts as it asks for, no decisions, and a next id one past the highest fixture number and at least 1001 |
| ReloadMeaning.ReloadStopsAt | src/mock-qms/mock_qms/store.py:105-166 | one that is stopped, by an unknown customer, a service or an entry without versions, leaves the fixtures before that, and of the last kind also its quote without versions |
| QuoteHistory.PreparedFits | src/mock-qms/mock_qms/store.py:168-393 | what a call prepares from an earlier state still fits the store it is written to |
| QuoteHistory.CommitIsLawfulIff | src/mock-qms/mock_qms/store.py:168-393 | a whole late write -- put, mirror and record at once -- keeps the invariant, every history and the number of quotes iff the version is in the status it was read in or carries the result already, the draft's number is the next one, or the id is free |
| QuoteHistory.ApplyEvolves | src/mock-qms/mock_qms/store.py:168-393 | a call that runs undisturbed keeps the invariant, and changes no identity, frozen content or decision record and moves no status back |
| QuoteHistory.RevisionIsStored | src/mock-qms/mock_qms/store.py:232-239 | and leaves the version it reports |
| QuoteHistory.SupersedeAppendsOneDraft | src/mock-qms/mock_qms/store.py:189-230 | superseding succeeds iff both numbers given are the number of versions; then one draft with no computed field is added and all else is unchanged |
| QuoteAtomicity.CallIsAtomicIff | src/mock-qms/mock_qms/store.py:168-393 | a whole late write leaves what the whole call made at that moment would leave iff nothing the call relies on changed: inputs and status, the previous rate where it counts, the number of versions, the next id |
| QuoteAtomicity.PricedAgainIff | src/mock-qms/mock_qms/store.py:276-359 | pricing again gives the same result iff the inputs are the same and the previous rate is, wherever a conversion makes it count |
| QuoteAtomicity.RateMattersIff | src/mock-qms/mock_qms/pricing/calculator.py:79-97 | another previous rate changes a calculation iff there is a conversion and the rate differs |
| QuoteSteps.CallAloneIsTheCommand | src/mock-qms/mock_qms/store.py:168-393 | the steps of a call that nothing comes in between of -- look, read the previous rate, plan, put, look at the quote, mirror, log; or validate, take the id, raise the counter, store the quote, store its versions -- add up to the command, in what they leave and in what they report |
| QuoteCoupling.SafeStepIsCoupled | src/mock-qms/mock_qms/store.py:168-393 | as long as every put finds what its call looked at and no counter was raised between a create's taking its id and its raising the counter, the store is at every step the one with whole writes, except for mirrors and for what the calls under way have still to store or log |
| QuoteRaces.StepIsLawfulIff | src/mock-qms/mock_qms/store.py:168-393 | then, and only then, the next step keeps the promises of the store: numbered, chained, replayable histories, nothing lost or moved back, one decision for a version, no id given out twice |
| QuoteRaces.RunIsLawfulIff | src/mock-qms/mock_qms/store.py:168-393 | in any interleaving of the steps of any calls every step keeps these promises iff every put finds what its call looked at and no counter was raised between a create's taking its id and its raising the counter |
| QuoteRaces.RunEvolves | src/mock-qms/mock_qms/store.py:168-393 | over any stretch of such a run versions only evolve: content is frozen once a version has left draft, statuses only move forward |
| QuoteRaces.DecidedIsFinal | src/mock-qms/mock_qms/store.py:376-393 | in such a run a decided version is the same for ever |
| QuoteRaces.StepIsAtomicIff | src/mock-qms/mock_qms/store.py:168-393 | a put leaves, with its mirror and record, what the whole call made at that moment would leave iff nothing the call relies on has changed since it looked; such a put is safe |
| QuoteRaces.RunIsSerialIff | src/mock-qms/mock_qms/store.py:168-393 | the writes of a run leave what its calls would leave one after the other, in the order of their puts, at every point iff every one of them is undisturbed in that sense |
| QuoteRaces.SupersedesAtMostOnce | src/mock-qms/mock_qms/store.py:196-226 | after a safe append a second one of the same number is not safe, and a call that only then looks is refused (compare section 13.1.1 of RFC 9110) |
| QuoteMirrors.MirrorAgreesIffLastIsRight | src/mock-qms/mock_qms/store.py:226-239 | whenever no call is between putting a version of a quote and mirroring it, the quote shows its last version iff the mirror written last was right when it was written: its call had put the status the last version still carried, and had copied a quote with as many versions as there were |
| QuoteMirrors.RestIsGoodIff | src/mock-qms/mock_qms/store.py:168-393 | with no call under way the store keeps the whole invariant iff every quote shows its last version |
| QuoteMirrors.RunLeavesGoodStoreIff | src/mock-qms/mock_qms/store.py:168-393 | a run from rest to rest keeps the promises at every step and leaves a store that keeps the invariant iff all its puts and counts are safe and the last mirror of every quote was right |
| QuoteMirrors.RunAmountsToCallsIff | src/mock-qms/mock_qms/store.py:168-393 | a run from rest to rest leaves what its calls leave one after the other, at every write and in the end, iff all its writes are undisturbed and the last mirror of every quote was right |
| QuoteDecisions.StepKeepsDecisionIff | src/mock-qms/mock_qms/store.py:232-239 | one step takes a decision back iff it puts another status over the version, or another history over the quote's, and then its call had looked before the decision |
| QuoteDecisions.DecisionStandsIff | src/mock-qms/mock_qms/store.py:376-393 | in any run, whatever else goes wrong in it, a decision stands from its moment on iff none of the calls that had looked before puts another status over the version, or another history over the quote's, afterwards |
| QuoteDecisions.SafeStepWritesOverNothing | src/mock-qms/mock_qms/store.py:232-239 | a safe step takes no decision back |
| QuoteCollisions.TwoSupersedesBothSucceed | src/mock-qms/mock_qms/store.py:196-226 | from every state in which a supersede is accepted two of them can both succeed: two versions share a number |
| QuoteCollisions.TwoDecisionsAreBothLogged | src/mock-qms/mock_qms/store.py:382-392 | two decisions on one version can both succeed and both be logged |
| QuoteCollisions.CompositionIsLost | src/mock-qms/mock_qms/store.py:249-359 | a draft composed anew while it is priced ends as if the composition had never been made, although both puts are safe and both calls succeed |
| QuoteCollisions.DecisionCanOvertakePricing | src/mock-qms/mock_qms/store.py:298-393 | from every state in which a version can be priced a run exists in which a late price takes a decision back while the log still holds it |
| QuoteCollisions.OvertakenMirrorRun | src/mock-qms/mock_qms/store.py:232-239 | whatever whole call is made between a call's copying the quote and its writing the copy back, the quote ends up saying what the first call says |
| QuoteCollisions.DecisionIsNotMirrored | src/mock-qms/mock_qms/store.py:232-239 | from every state whose last version is priced: a decision overtakes the submit before it mirrors; all puts are safe, both calls succeed, and the quote says that approval is required, so that a search for the decision misses it |
| QuoteCollisions.NewVersionIsNotMirrored | src/mock-qms/mock_qms/store.py:226-239 | from every state whose last version is a draft: a supersede overtakes a composition before it mirrors, and the quote goes on counting the versions without the new one |
| QuoteCreates.TakenIdsAgreeIff | src/mock-qms/mock_qms/store.py:170-171 | in any run two creates take the same id iff nobody raises the counter between their taking |
| QuoteCreates.TwoCreatesShareAnIdIff | src/mock-qms/mock_qms/store.py:168-178 | two creates, in any interleaving, are given one id iff one takes it between the other's taking it and raising the counter; every other overlap is safe throughout and leaves a good store with both quotes |
| QuoteCreates.TwoCreatesCanShareAnId | src/mock-qms/mock_qms/store.py:170-171 | from every state such an overlap exists |
| Qms.QmsStore.Reload | src/mock-qms/mock_qms/store.py:105-123 | clears the store and seeds the fixtures in order, stopping at a customer that cannot be validated or an entry without versions; the store is good iff it did not stop at the latter |
| Qms.QmsStore.SeedQuote | src/mock-qms/mock_qms/store.py:147-166 | stores a quote and its drafts, or nothing if the customer cannot be validated; with no versions asked for it stores an empty history and fails |
| Qms.QmsStore.CreateQuote | src/mock-qms/mock_qms/store.py:168-178 | performs the command (see QuoteMeaning.CreationMeans) and keeps the invariant |
| Qms.QmsStore.FindVersion | src/mock-qms/mock_qms/store.py:186-187 | the first version of that number |
| Qms.QmsStore.Replace | src/mock-qms/mock_qms/store.py:232-239 | overwrites the version in place and mirrors its status if it is the last |
| Qms.QmsStore.CreateNextVersion | src/mock-qms/mock_qms/store.py:189-230 | performs the command (see QuoteMeaning.SupersedeMeans) and keeps the invariant |
| Qms.QmsStore.ComposeRouteRecommendation | src/mock-qms/mock_qms/store.py:249-255 | performs the command (see QuoteMeaning.RecommendationMeans) and keeps the invariant |
| Qms.QmsStore.ComposePricing | src/mock-qms/mock_qms/store.py:257-264 | performs the command (see QuoteMeaning.PricingInputsMean) and keeps the invariant |
| Qms.QmsStore.Resolve | src/mock-qms/mock_qms/store.py:314-339 | resolves all rates in order or reports the first problem |
| Qms.QmsStore.PriceVersion | src/mock-qms/mock_qms/store.py:276-359 | performs the command (see QuoteMeaning.PricingMeans) and keeps the invariant; a failure changes nothing |
| Qms.QmsStore.SubmitForApproval | src/mock-qms/mock_qms/store.py:361-374 | performs the command (see QuoteMeaning.SubmissionMeans) and keeps the invariant |
| Qms.QmsStore.RecordDecision | src/mock-qms/mock_qms/store.py:376-393 | performs the command (see QuoteMeaning.DecisionMeans) and keeps the invariant |
| Qms.QmsStore.SearchQuotes | src/mock-qms/mock_qms/store.py:398-406 | the quotes passing all filters given |
| ApprovalMcp.ResumesAreTraced | src/approval-mcp/approval_mcp/api.py:185-227 | in any run of the tools and of any calls to the store a resume that goes on read a decision, and reports the status it read |
| ApprovalMcp.ResumedStatusIsCurrentIff | src/approval-mcp/approval_mcp/api.py:185-227 | what a resume reported was the version's status when it was read, and remains it up to any later point of the run iff no call that had looked at the version before that puts another status over it |
| ApprovalMcp.ResumeIsARun | src/approval-mcp/approval_mcp/api.py:194-227 | from every state with a decided version fetching, being permitted and answering lead to such an answer |
| ApprovalMcp.FetchMeans | src/approval-mcp/approval_mcp/api.py:144-198 | a handler goes on only with a version that is stored, and a resume only with one that is approved, rejected or to be revised |
| ApprovalMcp.ActionsArePermitted | src/approval-mcp/approval_mcp/api.py:158-227 | in any run nothing is sent to the store and nothing answered without a permit given to that handler after it read the version |
| ApprovalMcp.RecommendationNeedsDraft | src/approval-mcp/approval_mcp/api.py:171-180 | a recommendation is taken up iff the version was a draft when the store looked, whatever was fetched; otherwise nothing is written and the handler is refused |
| ApprovalMcp.RecordedIsWhatWasAsked | src/approval-mcp/approval_mcp/api.py:158-180 | in any run, whatever else the store is asked for, a recommendation is reported as recorded only with the version it asked for, a draft holding its own recommendation and route |
| ApprovalMcp.RecommendationLandsOnDraftIff | src/mock-qms/mock_qms/store.py:249-255 | one that is taken up is put lawfully iff the version still is a draft then; in any case the version holds it |
| ApprovalMcp.TimeoutAfterThePut | src/approval-mcp/approval_mcp/api.py:171-178 | a handler that stops waiting after the put has refused its caller with the recommendation stored, while its call goes on to succeed |
| ApprovalMcp.PricedMeanwhileIsRefused | src/approval-mcp/approval_mcp/api.py:160-178 | a permitted write whose version was priced before the store looks is refused, with nothing written |
| Topology.LaneIdParsesIff | src/mock-tms/mock_tms/store.py:37-46 | a lane id parses to (o, d) iff it is o, a hyphen and d with no other hyphen |
| Topology.PoolIsAcceptedIff | src/mock-tms/mock_tms/store.py:129-151 | a pool is accepted iff ids are unique, every id is the mode in capitals, the origin and the destination with hyphens between them, and no edge is a loop; the duplicate-topology branch is never taken |
| Topology.PoolFaultMeans | src/mock-tms/mock_tms/store.py:129-151 | the fault reported is the first of repeated id, loop and mismatched id that applies to the first edge with which the pool is no longer sound |
| Topology.ValidateEdgePool | src/mock-tms/mock_tms/store.py:129-151 | the loop with its two sets reports the first fault of the pool |
| Topology.SizesAgreeIff | src/mock-tms/mock_tms/store.py:182-183 | comparing a list's length with its set's size detects repetitions |
| Topology.PathIsAcceptedIff | src/mock-tms/mock_tms/store.py:163-199 | a route passes iff it is a non-empty path of known edges, each starting where the one before ended, that comes to no location twice, and whose ends are the two codes of its lane or listed as compatible with them |
| Topology.RoutesAreAcceptedIff | src/mock-tms/mock_tms/store.py:153-199 | a list of routes is accepted iff ids are unique and every route is such a path |
| Topology.RoutesFaultMeans | src/mock-tms/mock_tms/store.py:153-199 | the fault reported is the first of eight complaints that applies to the first route with which the routes are no longer sound |
| Topology.ValidatePath | src/mock-tms/mock_tms/store.py:163-199 | the loops report the first fault of a route |
| Topology.ValidateRoutes | src/mock-tms/mock_tms/store.py:153-199 | the loop reports the first fault among the routes |
| EdgeIndex.SortingSorts | src/mock-tms/mock_tms/store.py:104 | sorting by id permutes, and with unique ids the order is strict |
| EdgeIndex.SortedIsUnique | src/mock-tms/mock_tms/store.py:201-202 | a strictly sorted list is determined by its elements |
| EdgeIndex.LessIff | src/mock-tms/mock_tms/store.py:104 | an id comes before another iff they agree up to a position at which it ends or has the lower character |
| EdgeIndex.IndexBy | src/mock-tms/mock_tms/store.py:101-106 | every lookup in the index is the id-sorted filter of the pool, and no bucket is empty |
| EdgeIndex.BucketsPartition | src/mock-tms/mock_tms/store.py:101-106 | a bucket holds exactly the edges of its own end, in id order |
| Tms.TmsStore.Reload | src/mock-tms/mock_tms/store.py:69-99 | a topology is rejected iff it is not sound, with the complaint about its first unsound edge or route, and then nothing changes; a bad overlay is noticed after the topology has been replaced |
| Tms.ByIdFinds | src/mock-tms/mock_tms/store.py:86 | with unique ids the dictionary of the pool finds every edge under its id and nothing else |
| Tms.OverlayReads | src/mock-tms/mock_tms/store.py:97-99 | the overlay has, for every route named, the last entry that names it, and cannot be read iff an entry is malformed |
| Tms.TmsStore.ListEdges | src/mock-tms/mock_tms/store.py:201-202 | the pool in id order, whatever order the dictionary has |
| Tms.TmsStore.OutgoingEdges | src/mock-tms/mock_tms/store.py:204-205 | exactly the edges of the pool that start at the location, in id order |
| Tms.TmsStore.IncomingEdges | src/mock-tms/mock_tms/store.py:207-208 | exactly the edges of the pool that end at the location, in id order |
| Tms.TmsStore.ResolveLegs | src/mock-tms/mock_tms/store.py:210-225 | every stored route resolves, its legs join up, and their days add up to the route's |
| Tms.TmsStore.GetRoute | src/mock-tms/mock_tms/store.py:230-231 | the one route of that id, if there is one |
| Tms.TmsStore.TransitTime | src/mock-tms/mock_tms/store.py:248-252 | the sum of the route's days, at least one per edge; nothing iff there is no such route |
| Tms.TotalDaysIsSum | src/mock-tms/mock_tms/store.py:248-252 | the days of one edge are its own, of two stretches those of both |
| Tms.TmsStore.SetAvailability | src/mock-tms/mock_tms/store.py:239-246 | updates one entry of the overlay and nothing else |
| PolicyBundles.SplitPolicies | src/rfq_common/rfq_common/pdp/bundle.py:15-25 | the loop cuts the text into its policies |
| PolicyBundles.LinesReadBack | src/rfq_common/rfq_common/pdp/bundle.py:17-23 | lines joined by line feeds are read back iff the last one is not empty |
| PolicyBundles.JoinFromLeft | src/rfq_common/rfq_common/pdp/bundle.py:23 | joined lines are the first one, a line feed and the rest joined |
| PolicyBundles.WrittenPoliciesAreRead | src/rfq_common/rfq_common/pdp/bundle.py:15-25 | policies written line by line into a text, with any blank or comment lines around them, are read back as written |
| PolicyBundles.SplitUndoesPrinting | src/rfq_common/rfq_common/pdp/bundle.py:15-25 | splitting policies printed with any blank or comment lines around them gives exactly those policies |
| PolicyBundles.EveryTextIsAPrint | src/rfq_common/rfq_common/pdp/bundle.py:15-25 | every text is such a print of the policies found, followed by an unterminated rest; only padding and that rest are dropped |
| PolicyMeaning.TextMeans | src/rfq_common/rfq_common/pdp/bundle.py:15-25 | what is read from any text, character by character: its lines end at a line break of Unicode or an ASCII separator, a carriage return and line feed counting as one; lines of white space, or of white space and two slashes, are skipped between policies; a policy runs from the next line to the first that ends in a semicolon and white space, and an unterminated rest is dropped |
| PolicyMeaning.StripCuts | src/rfq_common/rfq_common/pdp/bundle.py:18 | stripping takes off white space on both ends, as much of it as there is |
| PolicyBundles.PolicyBundle.Load | src/rfq_common/rfq_common/pdp/bundle.py:31-41 | loads every policy in order, the last of an id deciding its obligations, and fails iff one has no id |
| PolicyBundles.PolicyBundle.ResolveObligationIds | src/rfq_common/rfq_common/pdp/bundle.py:51-58 | the loops compute the first occurrences of all listed obligations |
| PolicyMeaning.ObligationsAddUp | src/rfq_common/rfq_common/pdp/bundle.py:53-55 | the obligations of a list of policies are those the table has for each, one after the other, and none for an unknown policy |
| PolicyBundles.FirstOccurrencesKeepElements | src/rfq_common/rfq_common/pdp/bundle.py:51-58 | no obligation is lost or invented |
| PolicyBundles.FirstOccurrencesKeepOrder | src/rfq_common/rfq_common/pdp/bundle.py:51-58 | none is listed twice, and the order is that of first occurrence |

## Left out

- Shapely, pyproj, the coastline data and haversine trigonometry are parameters: the search metric is any metric, `line_crosses_*` and `is_blocked` are any predicates, `Geod.npts` returns as many points as asked for.
- Floating point: coordinates, distances, rates and ratios are exact reals. Decimal arithmetic is exact too, but for the price and the margin, of which `CalculatorContext` proves that their 28 digits make no difference; the decimals of currency conversion and of major units are not rounded to 28 digits.
- `heapq` is a multiset from which an entry of least priority is taken; the order among equal priorities is left open, so the results hold for every tie-breaking.
- The clear zones that loading the graph registers with the land mask, the caches of the geometry getters, logging and the native-memory workaround of `prewarm.py`.
- SQLite files, connections and pragmas: the table is a map, each statement one step. Taking the master lock and looking up a key's lock is one step.
- In `LegCache.LegGeometryCache.GetOrCompute` a call is one thread's, with other processes' rows arriving at three points; interleavings of any number of callers at every point are in `LegCacheProtocol`.
- Process restarts, and a caller that never returns from its computation.
- Qms.QmsStore.SearchQuotes: returns a set, so the order of results (the dictionary's insertion order) is not modelled; nor is the `validAt` filter, which the code does not implement.
- Time stamps are strings passed in; `authorization_decision_ids`, `valid_until` and `fx_variance_pct_x10`, which no operation of the store writes; the reasons attached to rule results and the pricing provenance, which only report.
- The caches of validated customers and of minor units: each call asks the other services afresh. Their answers are arbitrary functions, so a cached answer is one of the cases; a create, which validates its customer twice, finds the first answer again.
- Ids with non-ASCII digits or a trailing line break, which the id pattern of the quote store also accepts.
- The steps of a call to the quote store are its accesses to what threads share: validating the customer, taking the id, raising the counter, storing the quote, storing its versions; looking a version up, reading the previous rate, putting the version (finding its place and overwriting it, or appending), looking whether it is the last one and copying the quote, writing the copy back, logging. None of these is taken apart further: a version's place does not change between finding and overwriting it, the look at the last version and the copy of the quote have no call between them, nor has raising the counter by one; asking the services, which touches nothing shared, happens with the reading of the previous rate. A history that a second create replaces while a supersede still appends to the old list is not distinguished from the new one.
- A quote created through the web layer never says who created it (`src/mock-qms/mock_qms/api.py:293-295`), so runs contain only such creates; the create command itself has the field.
- A reset in the middle of a run: it discards history and reuses ids by design, and appears only as the reload that re-establishes the invariant.
- Statuses no operation reaches (published, accepted, expired, withdrawn), routes that answer 501, templates, the command line, sessions and HTTP status codes.
- Token verification and the Cedar engine: an authorization answer is an arbitrary permit or deny, and any handler may stop with an error at any point before it has answered.
- The check of location codes and of the compatibility file against the master data, which raises before anything is assigned; route roles and applicability; `feasible_lanes`, `capacity` and statistics.
- PolicyBundles.PolicyBundle.Load: reading the `@id` and `@obligations` annotations with regular expressions is given as two functions, because they concern the syntax inside a policy only.
- Masterdata look-ups, mission control, the A2A executors, identity generators and theming would only add easy members.
