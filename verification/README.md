# Verified model of the polygon nesting engine's exact core

The engine places polygons on sheets. It tiles the plane with *periodic cells* on an exact integer
grid, crops finite pieces out of those tilings, and ranks them; it reads polygons from a user; and it
runs as a job inside a JavaScript host that can cancel it, listen to its events and shut down at any
time. This project models the parts of it whose correctness is not visible from one function body.

* **Exact geometry.** A finite check and a determinant inequality that together promise a legal
  *infinite* tiling (`Lattice`); the monotone-chain hull (`ConvexHull`); lowest-terms rationals, their
  rounding and the exact intersections of boundaries with a grid line (`Rationals`,
  `AxisIntersections`); segment intersection and the simplicity of accepted rings (`Segments`, `Rings`);
  the canonical rotation and direction of a ring and the whole polygon importer (`RingOrder`,
  `PolygonInput`); canonical keys of rings and cells (`CyclicKeys`, `CanonicalCells`); crop enumeration
  (`Crops`); the Pareto front of seeds and the ranked front of cells (`SeedFront`, `CellFront`).
* **Protocols.** The terminal latch, every load, store, compare-exchange and park a step of its own
  (`TerminalLatches`); the event pipeline from the core's sequencer to the callback transport
  (`EventPipeline`), and the two together in any interleaving of the job's thread, the callbacks and the
  environment's cleanup (`DeliveryRuns`); what a job resolves to (`JobTasks`); first-writer-wins cancellation, the committed result, the registry of leases and
  the environment cleanup hook (`Cancellation`).
* **Fast forms and their simple counterparts.** The chunked parallel driver (`ChunkedDriver`), the
  update-in-place deduplication of the archive (`Archive`), and telemetry flattened to text keys and
  parsed back (`Telemetry`).

`Grid`, `Text`, `Lists`, `Sets`, `Sorting`, `Permutations`, `Cycles`, `OrderedMaps` and `Wrappers` hold
what several of these share. Grid coordinates are `int`; the importer's coordinates and millimetre
measures are `real`. `dafny verify dfyconfig.toml` checks everything.

Functions of other parts of the engine are parameters with stated assumptions: the overlap and legality
relations are symmetric and translation invariant (`Lattice.OverlapRelation`, `Crops.LegalRelation`), an
overlap implies a shared point of the convex hulls, the lower left corner of placed pieces moves with
them (`Crops.MovesAlong`), and the locale's comparison of keys is a total preorder
(`SeedFront.IsOrder`). The legality checks themselves may fail with an error, but a verdict is that of
the relation (`Lattice.Decides`, `Crops.Decides`). Identity, topology and envelope of a layout are any
function of the multiset of its pieces.

Three properties hold on a condition, which is proved exact:

* The cell key confuses a cell without members with one whose only member has no vertices
  (`CanonicalCells.KeyIsComplete`, `CanonicalCells.EmptyMemberClashes`).
* The ranking of cells, whose areas and determinants are absolute values, is always total; it is
  transitive exactly when no cell with neither area nor determinant stands, by its shape, between two
  cells of its priority the denser of which is last (`CellFront.RankingIsOrder`). The comparison of
  densities alone is transitive exactly when there is no such null cell or all densities tie
  (`CellFront.DensityIsTransitive`). A cell with a positive determinant is not null.
* The telemetry round trip succeeds exactly when no namespace name is empty (`Telemetry.RoundTrip`).

A terminal frame is delivered exactly when the latch admits the terminal call: a latch that the
environment's cleanup has closed before answers with the closing status, and the frame is not handed to
the transport (`DeliveryRuns.FramesOfHistory`, `DeliveryRuns.RefusedCall`).

## Model

| member | source | states |
|---|---|---|
| `Lattice.FarNeighborMaximumDistanceSquared` | crates/polygon-nesting-core/src/archive/periodic_cells.rs:1202-1235 | the greatest squared distance between two member vertices, attained and bounding all pairs; absent exactly without vertices |
| `Lattice.CertifiedTranslatesAreFar` | crates/polygon-nesting-core/src/archive/periodic_cells.rs:1237-1250 | a certified basis has no lattice vector outside the 3x3 block as short as the members' spread |
| `Lattice.CertificateByHeights` | crates/polygon-nesting-core/src/archive/periodic_cells.rs:1237-1250 | an independent basis is certified exactly when twice the harmonic mean of its parallelogram's squared heights exceeds the spread |
| `Lattice.SquareBasisCertificate` | crates/polygon-nesting-core/src/archive/periodic_cells.rs:1237-1250 | a square basis is certified exactly when its diagonal exceeds the spread |
| `Lattice.CertificateIsMonotone` | crates/polygon-nesting-core/src/archive/periodic_cells.rs:1237-1250 | a basis of at least the area and with vectors no longer is certified for members no wider |
| `Lattice.CertifiedBasisIsIndependent` | crates/polygon-nesting-core/src/archive/periodic_cells.rs:1237-1250 | a degenerate basis is never certified |
| `Lattice.MeetingHullsAreClose` | crates/polygon-nesting-core/src/archive/periodic_cells.rs:1197-1235 | translates whose convex hulls share a point are displaced by at most the spread of their vertices |
| `Lattice.PlaceBlock` | crates/polygon-nesting-core/src/archive/periodic_cells.rs:3423-3450 | the nested loops end as the scan of the block's attempts does: all pieces placed, one missing or illegal, or the check's error |
| `Lattice.ScanIsVerdict` | crates/polygon-nesting-core/src/archive/periodic_cells.rs:3429-3448 | a scan without an error succeeds exactly when all attempts have a place and no two pieces overlap |
| `Lattice.PlacedBlockIsLegal` | crates/polygon-nesting-core/src/archive/periodic_cells.rs:3423-3450 | unless the check fails, the 3x3 block is placed exactly when every member is on the grid and no two of its copies overlap |
| `Lattice.DiagnoseLattice` | crates/polygon-nesting-core/src/archive/periodic_cells.rs:3419-3495 | the check's first error, or legality, contact completeness and contact length in terms of the placed block |
| `Lattice.InfiniteLatticeIsLegal` | crates/polygon-nesting-core/src/archive/periodic_cells.rs:3419-3450 | certificate and legal block together: no two distinct copies anywhere in the infinite lattice overlap |
| `Lattice.HullOverlapIsOverlapRelation` | crates/polygon-nesting-core/src/archive/periodic_cells.rs:1197-1235 | sharing a point of the hulls is an overlap relation as assumed |
| `ConvexHull.BuildChain` | crates/polygon-nesting-core/src/archive/periodic_cells.rs:4261-4290 | a sweep leaves a strictly left-turning chain with every swept point on or left of it |
| `ConvexHull.ConvexHullGrid` | crates/polygon-nesting-core/src/archive/periodic_cells.rs:4261-4301 | the hull of any list of points: inputs only, strictly convex, enclosing every input; two extremes for collinear points |
| `ConvexHull.UniquePoints` | crates/polygon-nesting-core/src/archive/periodic_cells.rs:4261-4275 | deduplication by text key keeps exactly the different points |
| `OrderedMaps.OrderedMap.Set` | crates/polygon-nesting-core/src/archive/periodic_cells.rs:744-752 | a present key gets its value replaced where it stands, an absent one is appended |
| `OrderedMaps.OrderedMap.SetIfAbsent` | crates/polygon-nesting-core/src/archive/periodic_cells.rs:754-758 | a present key is left alone |
| `OrderedMaps.PutReplacesOrAppends` | crates/polygon-nesting-core/src/archive/periodic_cells.rs:718-752 | what setting does to the entries in order; keys stay distinct |
| `Segments.SegmentsIntersectIsExact` | crates/polygon-nesting-cli/src/polygon_input.rs:409-449 | the orientation test is true exactly when two segments, degenerate ones included, share a point |
| `Segments.InBoxIsOnSegment` | crates/polygon-nesting-cli/src/polygon_input.rs:443-449 | a collinear point in the bounding box is a point of the segment |
| `Rings.HasSelfIntersection` | crates/polygon-nesting-cli/src/polygon_input.rs:390-415 | finds exactly the crossings of edges without a common vertex; a passing check tests n(n-3)/2 pairs |
| `Rings.NonCollinearTripleIsExact` | crates/polygon-nesting-cli/src/polygon_input.rs:366-388 | the check against one pair of vertices decides whether all vertices are collinear |
| `Rings.AdjacentEdgesFollow` | crates/polygon-nesting-cli/src/polygon_input.rs:394-399 | the pairs left out are those of edges that follow one another around the ring |
| `Rings.AcceptedRingsAreSimple` | crates/polygon-nesting-cli/src/polygon_input.rs:311-320 | a ring of distinct vertices passes both checks exactly when its edges meet in common vertices only |
| `RingOrder.CanonicalizeRing` | crates/polygon-nesting-cli/src/polygon_input.rs:451-469 | the ring is replaced by its canonical form, for distinct vertices the least of all rotations and reversals |
| `RingOrder.CanonicalIsLeast` | crates/polygon-nesting-cli/src/polygon_input.rs:451-483 | two comparisons at the least vertex find the lexicographically least of all 2n variants |
| `RingOrder.CanonicalStartsLowestLeft` | crates/polygon-nesting-cli/src/polygon_input.rs:451-457 | the canonical ring starts at the lowest of its leftmost vertices |
| `RingOrder.FirstDifferenceDecides` | crates/polygon-nesting-cli/src/polygon_input.rs:471-483 | rings compare at the first vertex in which they differ, by x before y |
| `Cycles.VariantsAreRotations` | crates/polygon-nesting-cli/src/polygon_input.rs:458-463 | the two directions are a rotation and the reverse of one |
| `RingOrder.CanonicalIsInvariant` | crates/polygon-nesting-cli/src/polygon_input.rs:451-469 | every rotation and reversal has the same canonical form |
| `RingOrder.CanonicalIsIdempotent` | crates/polygon-nesting-cli/src/polygon_input.rs:451-469 | canonicalising again changes nothing |
| `PolygonInput.NormalizePolygon` | crates/polygon-nesting-cli/src/polygon_input.rs:245-331 | accepts exactly the lists that open to a simple ring that fits, with its bounds rounded up and its sides; a rejection names the first fault; work stays within the budget |
| `PolygonInput.ClosedOrRepeatedSameResult` | crates/polygon-nesting-cli/src/polygon_input.rs:255-278 | closing a list by its first point or repeating a point in place changes neither acceptance nor fault nor ring |
| `PolygonInput.OpenIsOpened` | crates/polygon-nesting-cli/src/polygon_input.rs:255-273 | a list without a point repeated in place, around the end included, is left as it is |
| `PolygonInput.OpenedIsOpen` | crates/polygon-nesting-cli/src/polygon_input.rs:255-273 | what is left of a list has no point repeated in place, around the end included |
| `PolygonInput.TriangleIsAccepted` | crates/polygon-nesting-cli/src/polygon_input.rs:245-331 | every triangle that is not flat and fits is accepted |
| `PolygonInput.ExtentIsSpan` | crates/polygon-nesting-cli/src/polygon_input.rs:286-300 | the extent is the greatest difference of two coordinates |
| `PolygonInput.PairsGrow` | crates/polygon-nesting-cli/src/polygon_input.rs:192-208 | the pairs budgeted on the listed points cover those of the ring left after deduplication |
| `PolygonInput.NormalRing` | crates/polygon-nesting-cli/src/polygon_input.rs:301-321 | an accepted ring is simple, has its corner at the origin and is the least variant |
| `PolygonInput.SameShapeSameResult` | crates/polygon-nesting-cli/src/polygon_input.rs:245-321 | rotated, reversed and translated inputs are accepted alike and give one ring |
| `PolygonInput.NormalizingIsIdempotent` | crates/polygon-nesting-cli/src/polygon_input.rs:245-321 | importing an imported ring gives that ring |
| `Rationals.GreatestCommonDivisor` | crates/polygon-nesting-core/src/archive/periodic_cells.rs:897-911 | the loop computes the specified divisor, 1 instead of 0 |
| `Rationals.GcdIsGreatest` | crates/polygon-nesting-core/src/archive/periodic_cells.rs:897-911 | the result divides both arguments and every common divisor divides it |
| `Rationals.MakeRationalIsLowest` | crates/polygon-nesting-core/src/archive/periodic_cells.rs:913-931 | lowest terms with positive denominator and the value of the parts; 0/1 over zero |
| `Rationals.LowestTermsAreUnique` | crates/polygon-nesting-core/src/archive/periodic_cells.rs:913-931 | equal values have equal lowest terms |
| `Rationals.TextsAreValues` | crates/polygon-nesting-core/src/archive/periodic_cells.rs:1009-1014 | texts of lowest terms are equal exactly when the values are |
| `Rationals.ArithmeticIsExact` | crates/polygon-nesting-core/src/archive/periodic_cells.rs:933-945 | addition and subtraction compute the real sum and difference in lowest terms |
| `Rationals.CompareIsExact` | crates/polygon-nesting-core/src/archive/periodic_cells.rs:961-963 | comparing cross products compares the values |
| `Rationals.RoundIsNearest` | crates/polygon-nesting-core/src/archive/periodic_cells.rs:965-982 | rounding is to a nearest integer, ties away from zero |
| `Rationals.CanonicalGridAlternatives` | crates/polygon-nesting-core/src/archive/periodic_cells.rs:984-1007 | exactly the integers at a distance below one, ascending, the rounded value among them |
| `AxisIntersections.KeysAreValues` | crates/polygon-nesting-core/src/archive/periodic_cells.rs:1009-1014 | point keys are equal exactly for the same point of the plane |
| `AxisIntersections.CrossingIsExact` | crates/polygon-nesting-core/src/archive/periodic_cells.rs:3281-3321 | of a non-parallel edge exactly the computed point lies on the line, and only when the edge reaches it |
| `AxisIntersections.ContributionsLieOnLine` | crates/polygon-nesting-core/src/archive/periodic_cells.rs:3265-3327 | whatever an edge contributes lies on the line and on the edge |
| `AxisIntersections.ParallelEdgeContributesEnds` | crates/polygon-nesting-core/src/archive/periodic_cells.rs:3285-3301 | an edge on the line contributes exactly its two ends, a parallel edge off the line nothing |
| `AxisIntersections.BoundaryLineIntersections` | crates/polygon-nesting-core/src/archive/periodic_cells.rs:3265-3327 | exactly the crossings of non-parallel edges and both ends of edges on the line, without repetition |
| `CyclicKeys.CanonicalBidirectionalCyclicKey` | crates/polygon-nesting-core/src/js_number/mod.rs:246-274 | the scan joins the least of the texts of all 2n rotations and reversals |
| `CyclicKeys.FirstCharacterDecides` | crates/polygon-nesting-core/src/js_number/mod.rs:228-234 | texts compare at the first character in which they differ, and a part of a text comes before it |
| `CyclicKeys.CyclicKeyIsComplete` | crates/polygon-nesting-core/src/archive/periodic_cells.rs:4372-4388 | token lists share a key exactly when one is a rotation or reversal of the other |
| `CanonicalCells.RingKeyIsComplete` | crates/polygon-nesting-core/src/archive/periodic_cells.rs:4195-4201 | rings share a key exactly when they are the same ring up to start and direction |
| `CanonicalCells.RotationsCompose` | crates/polygon-nesting-core/src/archive/periodic_cells.rs:4079-4095 | quarter turns add up modulo four |
| `CanonicalCells.TurnIsRightAngle` | crates/polygon-nesting-core/src/archive/periodic_cells.rs:4079-4095 | one turn is a right angle to the left, no turn leaves a point where it is |
| `CanonicalCells.AtOriginTouchesAxes` | crates/polygon-nesting-core/src/archive/periodic_cells.rs:4101-4121 | at the origin no coordinate is negative and zero is reached both ways |
| `CanonicalCells.JoinedKeysAreComplete` | crates/polygon-nesting-core/src/archive/periodic_cells.rs:4123-4158 | sorted and joined member keys are equal exactly for the same pieces in some order |
| `CanonicalCells.CanonicalCellKey` | crates/polygon-nesting-core/src/archive/periodic_cells.rs:4165-4191 | computes the key that the completeness theorem is about |
| `CanonicalCells.KeyIsComplete` | crates/polygon-nesting-core/src/archive/periodic_cells.rs:4097-4191 | cells of one role share a key exactly when turn, translation, basis swap, member order and ring start make them one, save for the empty clash |
| `CanonicalCells.EmptyMemberClashes` | crates/polygon-nesting-core/src/archive/periodic_cells.rs:4101-4158 | the exception is real: no member and one empty member share a key |
| `CanonicalCells.RolesDiffer` | crates/polygon-nesting-core/src/archive/periodic_cells.rs:4186-4191 | cells of different roles never share a key |
| `CanonicalCells.KeyShowsRole` | crates/polygon-nesting-core/src/archive/periodic_cells.rs:4186-4191 | the key starts with the name of the role |
| `Text.DigitsDenote` | crates/polygon-nesting-core/src/archive/periodic_cells.rs:4101-4121 | the digits in keys denote the number, without leading zeros |
| `Crops.CropCoordinates` | crates/polygon-nesting-core/src/archive/periodic_cells.rs:1924-1959 | the positions chosen for a rectangle, a traversal and a corner |
| `Crops.ChosenAt` | crates/polygon-nesting-core/src/archive/periodic_cells.rs:1931-1958 | the position at every place of an attempt, along rows or columns, seen from the corner |
| `Crops.CornersGoAround` | crates/polygon-nesting-core/src/archive/periodic_cells.rs:1943-1958 | the four attempts of a traversal start in the four corners |
| `Crops.AttemptPositions` | crates/polygon-nesting-core/src/archive/periodic_cells.rs:1985-1998 | every attempt uses exactly q distinct positions inside its rectangle |
| `Crops.RoomForAll` | crates/polygon-nesting-core/src/archive/periodic_cells.rs:1985-1987 | the columns are the fewest that hold all copies |
| `Crops.CopiesFit` | crates/polygon-nesting-core/src/archive/periodic_cells.rs:1975-1980 | the copies are as many as the family fills |
| `Crops.LayoutsAreMoves` | crates/polygon-nesting-core/src/archive/periodic_cells.rs:1999-2012 | layouts are equal exactly for positions that differ by a common move and their order |
| `Crops.PlaceCrop` | crates/polygon-nesting-core/src/archive/periodic_cells.rs:2019-2058 | without an error of a checkpoint or check, piece-by-piece placing succeeds exactly when the members are on the grid and all pairs are legal, and hands out the family in order |
| `Crops.PlacedPiece` | crates/polygon-nesting-core/src/archive/periodic_cells.rs:2025-2045 | whose piece is placed where: member after member of copy after copy, each moved from its own base point by the position's lattice vector |
| `Crops.SameLayoutSamePieces` | crates/polygon-nesting-core/src/archive/periodic_cells.rs:2001-2018 | attempts with one layout are legal alike and settle to the same multiset of pieces |
| `Crops.EnumerateCrops` | crates/polygon-nesting-core/src/archive/periodic_cells.rs:1962-2103 | unless a checkpoint or the legality check ends it with an error, the enumeration with the skip table returns the candidates of the one without; none for a basis off the grid |
| `Crops.SeedsUseTheFamily` | crates/polygon-nesting-core/src/archive/periodic_cells.rs:2059-2100 | placed pieces followed by the remaining members are the family list; whole copies are filled |
| `Crops.SeedKeepsPositions` | crates/polygon-nesting-core/src/archive/periodic_cells.rs:2025-2057 | all pieces of a seed lie to each other as the cell's base points and the lattice have them |
| `Crops.SettledAtOrigin` | crates/polygon-nesting-core/src/archive/periodic_cells.rs:2057 | the pieces of a seed have their lower left corner at the origin |
| `Crops.EveryIdentityIsKept` | crates/polygon-nesting-core/src/archive/periodic_cells.rs:2069-2073 | every identity that an attempt yields is kept |
| `Crops.KeptAreFirst` | crates/polygon-nesting-core/src/archive/periodic_cells.rs:2069-2073 | candidates are exactly the first attempts with their identities |
| `Crops.KeptAreDistinct` | crates/polygon-nesting-core/src/archive/periodic_cells.rs:2069-2073 | candidates come from attempts and no two share an identity |
| `SeedFront.DominanceOfCosts` | crates/polygon-nesting-core/src/archive/periodic_cells.rs:2269-2310 | dominance is being no worse in six costs and better in one, among seeds measured alike |
| `SeedFront.DominanceIsStrictOrder` | crates/polygon-nesting-core/src/archive/periodic_cells.rs:2269-2310 | dominance is irreflexive, asymmetric and transitive, mixed envelopes included |
| `SeedFront.FrontIsAntichain` | crates/polygon-nesting-core/src/archive/periodic_cells.rs:2254-2267 | no kept seed dominates another |
| `SeedFront.DroppedIsDominated` | crates/polygon-nesting-core/src/archive/periodic_cells.rs:2254-2267 | every dropped seed is dominated by a kept one |
| `SeedFront.FrontCounts` | crates/polygon-nesting-core/src/archive/periodic_cells.rs:2254-2267 | the front has every seed that none dominates as often as the list, and no other |
| `SeedFront.RankingExtendsDominance` | crates/polygon-nesting-core/src/archive/periodic_cells.rs:2163-2169 | a dominating seed ranks strictly first |
| `SeedFront.RankingIsOrder` | crates/polygon-nesting-core/src/archive/periodic_cells.rs:2163-2208 | the ranking is a total preorder |
| `SeedFront.RankingIsLexicographic` | crates/polygon-nesting-core/src/archive/periodic_cells.rs:2163-2208 | the ranking compares seven costs in a fixed order, an envelope before none |
| `SeedFront.StoredEnvelopeDecides` | crates/polygon-nesting-core/src/archive/periodic_cells.rs:2171-2181 | a stored envelope is the one compared, a missing one is measured |
| `Sorting.SortIsStable` | crates/polygon-nesting-core/src/archive/periodic_cells.rs:2236-2241 | sorting keeps the order of items that rank alike |
| `SeedFront.CapTruncates` | crates/polygon-nesting-core/src/archive/periodic_cells.rs:2244-2251 | the cap cuts the ranked front off and nothing else |
| `SeedFront.HeadIsMinimum` | crates/polygon-nesting-core/src/archive/periodic_cells.rs:2244-2251 | for a cap of at least one the head of the selection is a minimum of all seeds |
| `SeedFront.SelectionIsRankedFront` | crates/polygon-nesting-core/src/archive/periodic_cells.rs:2236-2251 | the selection is in ranking order and, uncapped, the whole front |
| `CellFront.DensityOrder` | crates/polygon-nesting-core/src/archive/periodic_cells.rs:4330-4337 | cross-multiplied comparison is comparison of area densities |
| `CellFront.RankingIsLexicographic` | crates/polygon-nesting-core/src/archive/periodic_cells.rs:4320-4346 | legality, density, size, hull waste and contact in this order, keys last |
| `CellFront.LegalCellsRankFirst` | crates/polygon-nesting-core/src/archive/periodic_cells.rs:4320-4328 | legal cells come first, among them those with complete centre contact; contact does not matter for illegal cells |
| `CellFront.DensityIsTransitive` | crates/polygon-nesting-core/src/archive/periodic_cells.rs:4330-4337 | comparing densities is transitive exactly when no cell is null or all densities tie |
| `CellFront.RankingIsOrder` | crates/polygon-nesting-core/src/archive/periodic_cells.rs:4330-4346 | always total; transitive exactly when no null cell is squeezed, so a total preorder without null cells |
| `CellFront.OnlySqueezedCellsBreakTheOrder` | crates/polygon-nesting-core/src/archive/periodic_cells.rs:4330-4346 | three cells out of order contain a null cell squeezed between the other two |
| `CellFront.DegenerateCellsBreakTheOrder` | crates/polygon-nesting-core/src/archive/periodic_cells.rs:4330-4346 | every squeezed null cell breaks the order |
| `CellFront.CanonicalizeBasis` | crates/polygon-nesting-core/src/archive/periodic_cells.rs:3388-3398 | an independent basis comes out with positive determinant, a degenerate one is refused |
| `CellFront.DeduplicationKeepsLast` | crates/polygon-nesting-core/src/archive/periodic_cells.rs:1858-1865 | each key once, with the last cell that has it |
| `CellFront.KindsAreStated` | crates/polygon-nesting-core/src/archive/periodic_cells.rs:1866-1871 | source kinds are told apart as stated, unstated is legacy |
| `CellFront.PeriodicCellFront` | crates/polygon-nesting-core/src/archive/periodic_cells.rs:1854-1896 | when the ranking is an order, of each source kind exactly the best few of the deduplicated cells, in order; coverage is complete exactly when none is dropped |
| `TerminalLatches.ParkedWaiterIsWoken` | crates/polygon-nesting-napi/src/events.rs:96-231 | no lost wakeup over any interleaving; the admission states occur inside admission only |
| `TerminalLatches.FinishedCallFreesWaiter` | crates/polygon-nesting-napi/src/events.rs:126-142 | once the acknowledgement or a cleanup call is over, the waiter can go on, has returned or is about to be woken |
| `TerminalLatches.NeverPanicsAndRetriesAreBounded` | crates/polygon-nesting-napi/src/events.rs:144-256 | the unreachable branch is never reached and no loop loses more than three compare-exchanges |
| `TerminalLatches.OutcomeIsCommittedOnce` | crates/polygon-nesting-napi/src/events.rs:140-256 | a decided outcome never changes; at most three writes, each to a later stage |
| `TerminalLatches.WaitReturnsTheDecision` | crates/polygon-nesting-napi/src/events.rs:96-132 | the wait returns the one decision, and Ok only after an Ok acknowledgement and no cleanup write |
| `TerminalLatches.DecisionIsGiven` | crates/polygon-nesting-napi/src/events.rs:113-224 | a decided status was given by the transport's failing answer or the acknowledgement; the latch is closed only after a cleanup call |
| `TerminalLatches.EveryEndIsReachable` | crates/polygon-nesting-napi/src/events.rs:96-132 | there are runs in which a failing enqueue returns its status, an acknowledgement its own, and a closed latch refuses |
| `TerminalLatches.CallsAreWaitFree` | crates/polygon-nesting-napi/src/events.rs:134-224 | an acknowledgement or cleanup call ends after at most thirteen own steps |
| `TerminalLatches.DecidedWaitEnds` | crates/polygon-nesting-napi/src/events.rs:122-132 | with a decided outcome the waiter ends after at most sixteen own steps and never parks anew |
| `TerminalLatches.StepsInterfere` | crates/polygon-nesting-napi/src/events.rs:96-231 | every step of a run is interference as the latch's operations assume it |
| `TerminalLatches.TerminalLatch.RunLoop` | crates/polygon-nesting-napi/src/events.rs:144-224 | a retry loop under interference ends, writing its proposal over what it last saw or nothing |
| `TerminalLatches.TerminalLatch.EnqueueTerminalAndWait` | crates/polygon-nesting-napi/src/events.rs:96-132 | under interference enqueues exactly when it is admitted, a latch closed before refuses, and a returned status is that of a decided outcome; undisturbed, a failing enqueue returns its own status |
| `TerminalLatches.TerminalLatch.Acknowledge` | crates/polygon-nesting-napi/src/events.rs:182-199 | under interference leaves the outcome decided or left to the admission; a status it committed stands and a registered waiter is unparked |
| `TerminalLatches.TerminalLatch.CloseForCleanup` | crates/polygon-nesting-napi/src/events.rs:134-138 | leaves the outcome decided or left to the admission, and a registered waiter unparked |
| `EventPipeline.DeliveryFailure.Record` | crates/polygon-nesting-napi/src/events.rs:273-280 | the first status recorded stays |
| `EventPipeline.EventBridge.DeliverCore` | crates/polygon-nesting-napi/src/events.rs:310-332 | every branch's effect on ordinal, frames and failure |
| `EventPipeline.EventBridge.EmitTerminalAndWait` | crates/polygon-nesting-napi/src/events.rs:340-359 | hands over one terminal frame with the next ordinal exactly when the latch admits it, records a failing wait after the callbacks' failures, does nothing on a second call |
| `EventPipeline.EventSequencer.Emit` | crates/polygon-nesting-core/src/events.rs:25-29 | numbers an event and passes it through the snapshot filter |
| `EventPipeline.RunPipeline` | crates/polygon-nesting-napi/src/job.rs:172-180 | a job's run on a latch that may be closed at any time: the transport gets exactly the specified frames, the first failure is reported |
| `EventPipeline.DeliveredFrames` | crates/polygon-nesting-napi/src/events.rs:303-359 | frames carry unfiltered events with rising own ordinals; after them, exactly when the terminal call was admitted, a terminal frame that counts the events |
| `EventPipeline.TerminalFrameWhenAdmitted` | crates/polygon-nesting-napi/src/events.rs:340-359 | a frame is the terminal one exactly when the first terminal call was admitted and it is the last |
| `EventPipeline.PassingEventsAreDelivered` | crates/polygon-nesting-napi/src/job.rs:172-180 | no unfiltered event is lost |
| `EventPipeline.OnlySnapshotsAreLeftOut` | crates/polygon-nesting-napi/src/job.rs:172-180 | the events left out are exactly the state snapshots, when they are switched off |
| `EventPipeline.UnfilteredIsGapless` | crates/polygon-nesting-core/src/events.rs:25-29 | with snapshots switched on the ordinals have no gap |
| `EventPipeline.NothingAfterTerminal` | crates/polygon-nesting-napi/src/events.rs:310-317 | whatever happens after the terminal call, admitted or refused, adds no frame |
| `EventPipeline.FirstFailureStays` | crates/polygon-nesting-napi/src/events.rs:272-289 | a reported failure is never replaced |
| `EventPipeline.NoFailures` | crates/polygon-nesting-napi/src/events.rs:272-289 | no failure is recorded exactly when no step reports a failing status |
| `DeliveryRuns.LatchRuns` | crates/polygon-nesting-napi/src/events.rs:96-231 | inside the whole system the latch runs as it does alone, so its theorems apply |
| `DeliveryRuns.PipelineRuns` | crates/polygon-nesting-napi/src/events.rs:292-364 | inside the whole system the pipeline has sent and recorded what its part of the history says |
| `DeliveryRuns.RunsAreHistories` | crates/polygon-nesting-napi/src/events.rs:96-231 | any work of a job followed by any run of the latch is a history of the whole system |
| `DeliveryRuns.FramesOfHistory` | crates/polygon-nesting-napi/src/events.rs:96-112 | over every interleaving: the unfiltered events, and the terminal frame exactly when the admitted call has reached the transport |
| `DeliveryRuns.RefusedCall` | crates/polygon-nesting-napi/src/events.rs:100-108 | a refused call was refused by cleanup, returns and records the closing status, and no terminal frame is sent |
| `DeliveryRuns.WaitStatusIsGiven` | crates/polygon-nesting-napi/src/events.rs:113-132 | the terminal call returns a status that transport or acknowledgement gave, or the closing one after a cleanup |
| `DeliveryRuns.NoFailureMeansDelivered` | crates/polygon-nesting-napi/src/events.rs:340-364 | a finished job without a failure has sent every frame, and the terminal one was acknowledged with Ok before any cleanup wrote |
| `JobTasks.Compute` | crates/polygon-nesting-napi/src/job.rs:325-373 | resolves to the first delivery failure exactly when there is one, else to output or panic; a latch closed before always gives a delivery failure, an undisturbed failing enqueue its own |
| `Cancellation.FirstWriterWins` | crates/polygon-nesting-core/src/control.rs:42-65 | exactly the first cancel or completion of a run returns true, and it fixes state and reason |
| `Cancellation.CommitTerminalResult` | crates/polygon-nesting-core/src/job.rs:2118-2137 | under racing calls the candidate is committed unchanged or replaced by the typed failure of the winning reason |
| `Cancellation.ControlFailureOutcome` | crates/polygon-nesting-core/src/job.rs:2086-2106 | the failure's category and message for each cancelled state, none otherwise |
| `Cancellation.WinnerDecidesResult` | crates/polygon-nesting-core/src/job.rs:2086-2137 | completion delivers the candidate, a winning cancellation a failure of its category |
| `Cancellation.CancellationRegistry.Register` | crates/polygon-nesting-napi/src/registry.rs:29-37 | succeeds exactly for a free token |
| `Cancellation.CancellationRegistry.Cancel` | crates/polygon-nesting-napi/src/registry.rs:38-44 | reaches the lease registered at the lookup, whatever other threads do to the registry and the control before it cancels |
| `Cancellation.RegistrationLasts` | crates/polygon-nesting-napi/src/registry.rs:45-53 | only its own removal ends a registration |
| `Cancellation.StaleLeaseIsHarmless` | crates/polygon-nesting-napi/src/registry.rs:45-53 | a removed lease that is not registered again stays gone and its removals remove nothing |
| `Cancellation.RegisteredBefore` | crates/polygon-nesting-napi/src/registry.rs:29-53 | a registered lease has been registered and not removed since |
| `Cancellation.CancelReachesWhatItFound` | crates/polygon-nesting-napi/src/registry.rs:38-44 | a cancellation reaches the lease registered at its lookup and no other, although it cancels after the lock is released |
| `Cancellation.TerminalCleanupHook.Cleanup` | crates/polygon-nesting-napi/src/job.rs:191-200 | once: cancels the own control, closes the latch, removes the own registration |
| `Cancellation.RunLifecycle` | crates/polygon-nesting-napi/src/job.rs:285-310 | which of output, delivery failure and panic a job resolves to; the own lease is removed |
| `ChunkedDriver.MapSliceWithJobPool` | crates/polygon-nesting-core/src/parallel.rs:398-410 | any completion order fills the slots with the items' own results |
| `ChunkedDriver.ForEachChunkedOutcome` | crates/polygon-nesting-core/src/parallel.rs:353-378 | same checkpoints, announcements, replays and error as the serial loop |
| `ChunkedDriver.ErrorsStop` | crates/polygon-nesting-core/src/parallel.rs:345-352 | nothing happens after the first error |
| `ChunkedDriver.SerialAccounts` | crates/polygon-nesting-core/src/parallel.rs:335-378 | every item up to the first error is announced once, in order and just before its replay; a checkpoint at every boundary; the first failure ends the run |
| `Archive.RetainNamespace` | crates/polygon-nesting-core/src/archive/anytime.rs:96-137 | hands the folds of all identities, each at its first position, to the ranking exactly once and returns its result |
| `Archive.IdentitiesAreDistinct` | crates/polygon-nesting-core/src/archive/anytime.rs:114-135 | each non-empty identity occurs once |
| `Archive.IdentitiesKeepFirstPositions` | crates/polygon-nesting-core/src/archive/anytime.rs:107-135 | identities are ordered by first valid occurrence |
| `Archive.UnseenHasNoFold` | crates/polygon-nesting-core/src/archive/anytime.rs:114-135 | an identity is stored exactly when a valid endpoint has it |
| `Archive.IgnoredChangesNothing` | crates/polygon-nesting-core/src/archive/anytime.rs:114-123 | an endpoint that is not valid or has no identity changes nothing |
| `Archive.FoldedIsLeftFold` | crates/polygon-nesting-core/src/archive/anytime.rs:124-133 | what is stored is the left fold of the duplicates' selection from the first endpoint on |
| `Telemetry.KeysParse` | crates/polygon-nesting-napi/src/diagnostics.rs:93-140 | a key parses to the counter it stands for; a nameless namespace is malformed |
| `Telemetry.KeysAreDistinct` | crates/polygon-nesting-core/src/job.rs:363-441 | different counters have different keys, dots in names included |
| `Telemetry.ExecutionCounters` | crates/polygon-nesting-core/src/job.rs:363-448 | the flattened map holds exactly the counters of the snapshot |
| `Telemetry.TelemetryRecords.ApplyCounter` | crates/polygon-nesting-napi/src/diagnostics.rs:93-175 | assigns one counter or reports its error |
| `Telemetry.FromCounters` | crates/polygon-nesting-napi/src/diagnostics.rs:23-61 | applies the entries in order up to the first error |
| `Telemetry.RoundTrip` | crates/polygon-nesting-napi/src/diagnostics.rs:23-175 | parsing the flattened counters in any order rebuilds the snapshot exactly when no namespace name is empty |
| `Telemetry.SchemaIsValid` | crates/polygon-nesting-core/src/caches/telemetry.rs:35-92 | the engine's field names contain no dot |

## Left out

- Floating-point rounding, NaN handling and the conversion between millimetres and the grid: coordinates are `int` or `real`, and a coordinate without a grid value is an absent one. The importer's tests for finite coordinates have no counterpart on reals.
- The importer's totals over several polygons and its option checks: sums against limits.
- Lazy evaluation: texts that the code produces while it compares them are compared as texts. All of them are ASCII, where UTF-16 code units order like characters.
- TerminalLatches.TerminalLatch.EnqueueTerminalAndWait: bounds the number of wakeups by a parameter, because the wait of an unacknowledged callback does not end; other threads act through a script of interference.
- Memory orderings weaker than sequential consistency, real threads, pools and clocks: a deadline is a cancel call, a parallel map is a completion order.
- The N-API transport, raw pointers and JSON: a callback call is a status, an acknowledgement may come at any later step.
- The doubled area and shape measures of cells, boundary contact lengths, polygon union, no-fit polygons and pairwise placement: not part of this model, or parameters.
- Generation of basis candidates, regular-polygon and circle symmetry, DXF curves: not part of this model.
- The projections of results and errors in `crates/polygon-nesting-core/src/job.rs`, the worker counts and elapsed time of the diagnostics, and request field checks: field-by-field copying.
- `select_intrinsic_anytime_settled_endpoint` and the area-first seed comparison: they would only add easy members.
