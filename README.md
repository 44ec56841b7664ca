# Slab analysis and reinforcement design, modelled in Dafny

This project models the calculation engine of a reinforced-concrete floor
design tool. Floor panels ("slabs") are drawn as rectangles of cells on a
grid. Each panel is one-way (ONEWAY), two-way (TWOWAY) or a cantilever
(BALCONY). Beams are drawn on cell edges. The engine does the following:

- It finds neighbours across each side of a panel, how much of each edge
  they cover, and which gridlines carry beams.
- For a one-way panel it builds the chain of one-way panels continuous
  across their long edges. It finds the support gridlines, spans and end
  fixity of that chain and applies the TS 500 moment coefficients.
- For a two-way panel it picks one of the boundary cases 1..7 from the
  edge continuities. It then reads the alpha coefficients at the aspect
  ratio and places the moments on the X and Y axes.
- For a balcony it guesses the fixed edge, computes the cantilever moment,
  and raises it to the support moments of the neighbours on the fixed edge.
- It balances the support moments that neighbouring two-way and one-way
  panels meet on a shared edge.
- It designs the reinforcement. The design chart turns a moment into a
  steel area (K, then ks, then As). The bar catalogue search picks the
  (diameter, spacing) pair of least area that meets the requirement. The
  code's constructive rules add the spacing caps, the minimum ratios, the
  split into straight and bent-up bars, distribution bars, and edge,
  interior-support and extra support bars.

## Modules, one per source file

| Dafny file | source file |
|---|---|
| `common.dfy` | vocabulary shared by all modules: Option/Result, axes, sides, edges, kinds, the 1e-9 tolerance |
| `tables.dfy` | the tables the engine imports from its constants module, passed in as a record with its well-formedness |
| `struct_design.dfy` | `struct_design.py` |
| `slab_model.dfy` | `slab_model.py` |
| `oneway_slab.dfy` | `oneway_slab.py` |
| `twoway_slab.dfy` | `twoway_slab.py` |
| `balcony_slab.dfy` | `balcony_slab.py` |
| `moment_balance_slab.dfy` | `moment_balance_slab.py` |

### How each part is modelled

- **`SlabSystem`.** It updates its dictionaries in place, so it is a Dafny
  `class` whose fields are the grid size, the panels, the cell-owner map
  and the two beam sets. Its methods are `AddSlab`, `DeleteSlab`, the
  neighbour scan and the coverage scan. Each is proved against a function
  on a `Grid` value, the snapshot `State()`. Adding and deleting keep the
  ownership invariant `Inv`.
- **The analyses.** They only read the system, so they take a `Grid` value.
- **Loops.** Worklists, scans and searches are `method`s with loop
  invariants. Each is proved equal to a function, or to a relation stated
  as a ghost predicate. The properties are proved as lemmas about those
  functions and relations.
- **Expressions.** Pure expression code is written as functions with
  contracts. This covers the case table, lerp and interp_alpha, the
  coefficient moments and the stiffness ratio.
- **Iteration order of Python sets.** The order in which Python iterates
  over a set of neighbour ids is not specified. The model picks elements
  with `:|` and its contracts state only facts that hold whatever the
  order. The order of the dictionary of raw moments does matter when the
  moments are balanced, so it is modelled as a sequence of (id, entry)
  with distinct ids.
- **Numbers.** Reals are exact. Python's `int()` on a float is truncation
  toward zero (`Trunc`). Python's lexicographic `<` on strings is written
  out as `LexLess`.

## Model

| member | source | states |
|---|---|---|
| StructDesign.Lerp | struct_design.py:24-28 | y0 when the two abscissae coincide; the line passes through (x0, y0) and (x1, y1); between x0 and x1 the value lies between y0 and y1 |
| StructDesign.InterpScanFirst | struct_design.py:35-39 | the segment scan returns the straight-line value on the first segment that contains m |
| StructDesign.InterpAlpha | struct_design.py:30-39 | at or below the first breakpoint the first tabulated value; at or above the last breakpoint the last value |
| StructDesign.InterpAlphaBracketed | struct_design.py:35-38 | strictly inside the breakpoint range the value lies between the two tabulated values of a segment containing m |
| StructDesign.InterpAlphaAtBreakpoint | struct_design.py:30-39 | at a breakpoint of an increasing table the tabulated value is returned exactly |
| StructDesign.OneWayCoefficients | struct_design.py:44-90 | n + 1 support and n span coefficients, each the TS 500 entry for n spans (outer supports -1/24; inner -1/9 or -1/10 at the middle of an even count; end spans 1/11, others 1/15; special cases for 1, 2, 3 spans) |
| StructDesign.CoefficientsSymmetric | struct_design.py:59-90 | the coefficient tables are mirror-symmetric: support i equals support n-i, span i equals span n-1-i |
| StructDesign.OneSpanCoeffByFixity | struct_design.py:92-99 | the span coefficient is positive and the end coefficients are non-positive; an end coefficient is zero exactly when that end is free; 1/8 when both ends are free; -1/12, -1/12 and 1/24 when both are fixed; with one end fixed the ends sum to -1/8 and the span is 9/128 |
| StructDesign.OneSpanMirror | struct_design.py:97-99 | swapping the two ends swaps the two end coefficients and keeps the span coefficient |
| StructDesign.ConcToTabCol | struct_design.py:107-113 | the column is always one of C25, C30, C35, C40; grades starting with C20 or C25 read C25, C30 reads C30, C35 reads C35, C40 reads C40, and every other grade falls back to C25 |
| StructDesign.SteelToTabCol | struct_design.py:115-116 | the column is S420 exactly for B420C, otherwise B500 |
| StructDesign.ChartPairs | struct_design.py:121-125 | one (K, ks) pair per chart row, read from the concrete and steel columns of that row |
| StructDesign.InsertDesc | struct_design.py:126 | inserting into a list sorted by descending K keeps it sorted and adds exactly that element |
| StructDesign.SortDesc | struct_design.py:126 | the result is sorted by descending K and is a permutation of the input |
| StructDesign.KsScanFirst | struct_design.py:140-146 | the scan returns the interpolant on the first pair of rows that brackets K |
| StructDesign.Ks | struct_design.py:128-150 | K at or above the largest chart K gives that row's ks; K at or below the smallest gives the last row's ks |
| StructDesign.KsBracketed | struct_design.py:140-146 | strictly inside the chart's K range, ks lies between the ks values of a bracketing pair of rows |
| StructDesign.KsAtBreakpoint | struct_design.py:128-150 | when K equals a chart row's K, the result is the ks of a row with that K |
| StructDesign.LerpAntitone | struct_design.py:24-28 | on a segment running down in x with rising y, the interpolant does not fall as x falls |
| StructDesign.KsRange | struct_design.py:128-150 | for a chart whose ks rises as K falls, ks lies between the first and the last row's ks |
| StructDesign.KsMonotone | struct_design.py:128-150 | for a chart sorted by descending K whose ks rises as K falls, a smaller K never gives a smaller ks, rows with equal K included |
| StructDesign.InterpKsFromK | struct_design.py:118-150 | the lookup returns the clamped and interpolated ks over the chart pairs sorted by descending K |
| StructDesign.CollectPairs | struct_design.py:121-125 | the loop collects exactly the chart's (K, ks) pairs, row by row |
| StructDesign.ScanPairs | struct_design.py:128-150 | the clamps and the scan over sorted pairs return the chart value Ks |
| StructDesign.SortedChart | struct_design.py:186-190 | the pairs for given materials are one per chart row and sorted by descending K |
| StructDesign.AbacusArea | struct_design.py:193 | the area times the effective depth is ks * M * 1000 |
| StructDesign.AsFromAbacus | struct_design.py:155-195 | None without a moment; 0 for a non-positive moment; for a positive moment an error exactly when the depth is not positive, otherwise the chart area at K = 100 * b * d^2 / M |
| StructDesign.DesignKDecreasing | struct_design.py:185 | on the same section, a larger moment gives a strictly smaller K |
| StructDesign.AreaPerM | struct_design.py:200-202 | a bar of non-zero diameter gives a positive area per metre |
| StructDesign.AreaPerMCross | struct_design.py:200-202 | the area times the spacing is 250 pi phi^2, whatever the spacing |
| StructDesign.AreaPerMDoubleSpacing | struct_design.py:200-202 | doubling the spacing halves the area |
| StructDesign.AreaPerMSpacingDecreasing | struct_design.py:200-202 | a wider spacing gives a strictly smaller area |
| StructDesign.AreaGap | struct_design.py:213-222 | two catalogue areas are equal or differ by more than the 1e-9 tolerance, so the search's tolerant comparisons decide exactly |
| StructDesign.Update | struct_design.py:215-222 | the running best becomes the candidate or stays; the first candidate is taken; a smaller area, or an equal area at a wider spacing, replaces the best |
| StructDesign.SelectRebarMinArea | struct_design.py:204-223 | the choice is an admissible catalogue pair that meets the requirement; None exactly when no pair does; no candidate has a smaller area, or the same area at a wider spacing |
| StructDesign.SelectInRow | struct_design.py:209-222 | the scan of one diameter keeps a valid best, never makes it worse, and covers every candidate of that diameter |
| StructDesign.MaxPossibleArea | struct_design.py:225-234 | the largest area of any admissible pair, 0 when none is admissible; positive exactly when some pair is admissible |
| StructDesign.MaxInRow | struct_design.py:230-233 | the scan of one diameter keeps a witnessed maximum that bounds every admissible spacing of that diameter |
| StructDesign.SelectFailsIffMaxTooSmall | struct_design.py:204-234 | when some pair is admissible, the search fails exactly when the largest possible area is below the requirement by more than the tolerance |
| StructDesign.SplitDuzPilye | struct_design.py:236-241 | straight and bent-up bars are equal, of the same diameter at twice the spacing; their areas sum to the original, and each is the catalogue area at the doubled spacing |
| StructDesign.RhoMinOneway | struct_design.py:246-247 | 0.002 exactly for B420C and B500C, otherwise 0.003 |
| StructDesign.OnewaySmaxMain | struct_design.py:249-250 | at most 200; for h >= 0 between 0 and 1.5 h; 1.5 h truncated below 200; 200 from there on |
| StructDesign.OnewaySmaxDist | struct_design.py:252-253 | 300 mm |
| StructDesign.TwowaySmaxShort | struct_design.py:255-256 | the value is 1.5 h truncated toward zero below the cap (at most 1.5 h and within 1 of it for h ≥ 0) and exactly 200 at or above it |
| StructDesign.TwowaySmaxLong | struct_design.py:258-259 | the value is 1.5 h truncated toward zero below the cap (at most 1.5 h and within 1 of it for h ≥ 0) and exactly 250 at or above it; never below the short-direction cap |
| StructDesign.AsbMinArea | struct_design.py:261-266 | positive; the area of 5/150 for B500C, of 8/300 for B420C, and of 8/200 for every other grade |
| SlabModel.Slab.SizeCells | slab_model.py:37-38 | for an ordered box, at least one cell each way, and the counts reach exactly the last cell of the box |
| SlabModel.Slab.SizeMGross | slab_model.py:40-42 | for an ordered box with positive cell sizes, the gross size is at least one cell each way |
| SlabModel.Clamp | slab_model.py:51-52 | within [lo, hi] when lo <= hi; v itself inside the range; lo below it; hi above it; lo whenever hi < lo |
| SlabModel.RectNormalize | slab_model.py:54-56 | the low corner is below the high corner on both axes, and the coordinates are those of the two input corners |
| SlabModel.AddOwners | slab_model.py:69-71 | every cell of the box is owned by the new panel; every other cell keeps its owner or stays free |
| SlabModel.DeleteOwners | slab_model.py:77-80 | exactly the cells of the box owned by sid are freed; other owners are kept |
| SlabModel.AddPreservesInv | slab_model.py:67-71 | adding a panel with a fresh id onto free cells keeps the ownership map equal to the union of the panels' boxes |
| SlabModel.DeletePreservesInv | slab_model.py:73-81 | deleting a panel keeps that invariant |
| SlabModel.DeleteAfterAdd | slab_model.py:67-81 | deleting a panel just added onto free cells restores the previous state |
| SlabModel.NeighbourSet | slab_model.py:94-96 | neither the panel itself nor the empty owner is ever reported as a neighbour |
| SlabModel.NeighbourSetMembers | slab_model.py:94-115 | n is in the set exactly when n owns one of the cells just outside the side, at a scanned position, and n is not the panel itself |
| SlabModel.NeighborsOnSide | slab_model.py:83-116 | never holds the panel itself; empty on a side that lies on the grid boundary |
| SlabModel.NeighborsOnSideMembers | slab_model.py:83-116 | n is a neighbour exactly when the side is interior and n owns a cell just outside it |
| SlabModel.FoundCount | slab_model.py:126-129 | the count of neighbour cells never exceeds the number of scanned cells |
| SlabModel.FoundCountPositive | slab_model.py:149 | some neighbour cell was found exactly when the neighbour set is non-empty |
| SlabModel.FoundCountAll | slab_model.py:150 | every scanned cell has a neighbour exactly when the count equals the number of cells |
| SlabModel.EdgeCoverage | slab_model.py:118-152 | nothing on a boundary edge; otherwise the ratio is the number of outside cells owned by another panel over the number of cells along the edge (0 for an empty edge); it lies in [0, 1]; full coverage implies some coverage and ratio 1; no coverage means ratio 0 |
| SlabModel.CoverageAnyIffNeighbour | slab_model.py:149 | an edge is partly covered exactly when it has some neighbour panel |
| SlabModel.CoverageFullIffAllCells | slab_model.py:150 | an edge is fully covered exactly when it is interior and non-empty and every outside cell belongs to another panel |
| SlabModel.AllBeams | slab_model.py:205 | true exactly when every position of the range carries a beam |
| SlabModel.IsBeamGridline | slab_model.py:197-209 | false outside the grid; inside it, true exactly when a beam is drawn along the gridline at every cell the panel spans |
| SlabModel.BeamGridlinesFrom | slab_model.py:216-218 | increasing, holds only beamed gridlines of the range, and holds all of them |
| SlabModel.SupportGridlinesFromBeams | slab_model.py:211-218 | exactly the beamed gridlines strictly inside the panel, in increasing order |
| SlabModel.NetSpan | slab_model.py:220-228 | never below 0.05; gross less bw per two beamed ends or less bw/2 per one, floored at 0.05; never above the gross length |
| SlabModel.RequiredArea | slab_model.py:315-327 | an error exactly when a positive moment meets a non-positive depth; otherwise the larger of the chart area and the minimum steel (RhoMin * 1000 * max(1, d) unless overridden) |
| SlabModel.DesignMainRebarFromM | slab_model.py:302-336 | fails with the chart's error, or with no-rebar-found when the catalogue has no candidate; on success returns the required area and the least-area catalogue choice for it |
| SlabModel.SlabSystem.constructor | slab_model.py:59-65 | an empty grid of the given size, which satisfies the ownership invariant |
| SlabModel.SlabSystem.AddSlab | slab_model.py:67-71 | the new state is the panel stored under its id with its box painted with the id |
| SlabModel.SlabSystem.DeleteSlab | slab_model.py:73-81 | nothing for an unknown id; otherwise the panel is removed and the cells of its box that it owns are freed |
| SlabModel.SlabSystem.NeighborSlabsOnSide | slab_model.py:83-116 | the scan returns exactly the neighbour set of the side |
| SlabModel.SlabSystem.EdgeNeighborCoverage | slab_model.py:118-152 | the scan returns the coverage of the edge |
| SlabModel.SlabSystem.TwowayEdgeContinuityFull | slab_model.py:154-159 | the four coverages, in the order L, R, T, B |
| OnewaySlab.InsertByKey | oneway_slab.py:59-62 | inserting into a chain sorted by first gridline keeps it sorted and adds exactly that panel |
| OnewaySlab.SortByKey | oneway_slab.py:59-62 | the chain is sorted by first gridline along the long-edge axis and is a permutation of its input |
| OnewaySlab.VisitNeighbours | oneway_slab.py:51-56 | every neighbour across the side is marked seen; exactly the newly seen one-way panels are pushed, each once |
| OnewaySlab.VisitAll | oneway_slab.py:51-56 | the scan marks every id of the set seen and pushes each newly seen one-way panel once |
| OnewaySlab.StepKeepsInv | oneway_slab.py:44-56 | one step of the worklist keeps the work invariant: done and pending panels are distinct one-way panels, and every one-way panel seen is done or pending |
| OnewaySlab.StepKeepsOrder | oneway_slab.py:44-56 | one step of the worklist keeps the discovery order: the popped panel joins the done list after the panel it was found from, and every panel pushed lies across a long edge of a done panel |
| OnewaySlab.BuildOnewayChain | oneway_slab.py:15-63 | [sid] for a panel that is not one-way; otherwise a chain holding sid, made only of one-way panels without repeats, sorted along the long-edge axis, closed under one-way neighbours across the long edges, and whose every member is reached from sid across long edges (a discovery order from sid lists the same panels) |
| OnewaySlab.ExpandTop | oneway_slab.py:44-56 | one step of the search: the panel on top of the stack joins the discovery order, its unseen one-way neighbours across both long edges are pushed, the search invariant (listed panels one-way, seen and distinct, sid listed, every seen one-way panel listed, every neighbour of a visited panel seen) and the discovery order are kept, and fewer panels stay unseen or the stack shrinks |
| OnewaySlab.SortedChainShape | oneway_slab.py:59-63 | sorting the finished worklist result (done in discovery order from sid) gives a chain of that shape |
| OnewaySlab.ChainLeast | oneway_slab.py:40-56 | the chain is the least closed set holding sid: any list holding sid and closed under one-way neighbours across the long edges holds every chain member |
| OnewaySlab.ChainMembersDetermined | oneway_slab.py:15-63 | two chains of the same seed have the same members, so only the order among panels with equal keys is left open |
| OnewaySlab.Boundaries | oneway_slab.py:80-93 | no supports for fewer than two members, and at most one per consecutive pair |
| OnewaySlab.BoundariesMembers | oneway_slab.py:83-92 | a gridline is a boundary support exactly when some consecutive pair abuts on it |
| OnewaySlab.ChainPanelBoundarySupports | oneway_slab.py:66-93 | the loop returns the shared gridlines of abutting consecutive members, in chain order |
| OnewaySlab.ScanEnd | oneway_slab.py:121-130 | fixed exactly when some neighbour is two-way; if not fixed, continuous exactly when some neighbour is one-way or a balcony |
| OnewaySlab.ChainEndFixity | oneway_slab.py:96-142 | that rule holds for the first member's start side and for the last member's end side |
| OnewaySlab.EndStateSupported | oneway_slab.py:121-142 | an end has a flag set exactly when it has a known neighbour |
| OnewaySlab.FirstContaining | oneway_slab.py:155-165 | the first chain index from i whose range contains the midpoint, or none when no member contains it |
| OnewaySlab.SegmentOwner | oneway_slab.py:145-166 | the owner is a member of the chain |
| OnewaySlab.OwnerSlabForSegment | oneway_slab.py:145-166 | the linear search returns the segment owner |
| OnewaySlab.SegmentOwnerFirst | oneway_slab.py:155-166 | the owner is the first member containing the midpoint, or the first member when none contains it |
| OnewaySlab.MinLo | oneway_slab.py:203-206 | the least first gridline of the members, attained by one of them |
| OnewaySlab.MaxEnd | oneway_slab.py:204-207 | the greatest closing gridline of the members, attained by one of them |
| OnewaySlab.SortedUnique | oneway_slab.py:213 | increasing, with exactly the values of its input |
| OnewaySlab.IncreasingUnique | oneway_slab.py:213 | two increasing sequences with the same values are equal, so the sorted, deduplicated list is unique |
| OnewaySlab.SupportGridlines | oneway_slab.py:202-213 | increasing; a gridline is a support exactly when it is the outer start or end of the chain, a boundary between abutting members, or a beamed gridline inside a member |
| OnewaySlab.SupportsSpanSeed | oneway_slab.py:209-213 | a chain holding a non-empty panel has at least two supports, so at least one span |
| OnewaySlab.SpanOf | oneway_slab.py:217-227 | the owner is the chain member that owns the segment's midpoint; the span length is the owner's shorter gross side; the net span lies between 0.05 and that length |
| OnewaySlab.BuildSpans | oneway_slab.py:216-227 | one span per pair of consecutive supports, each as SpanOf describes |
| OnewaySlab.SupportL2 | oneway_slab.py:263-269 | the squared length at a support is never negative |
| OnewaySlab.MomentSigns | oneway_slab.py:252-271 | under a non-negative load, span moments are >= 0 and support moments are <= 0 |
| OnewaySlab.MultiSpanMoments | oneway_slab.py:252-271 | the span moments are coefficient * w * L^2 and the support moments use the end spans' L^2 at the two ends and the mean of the neighbouring L^2 inside |
| OnewaySlab.OwnedExtremes | oneway_slab.py:273-282 | both are None when the panel owns no span; otherwise the largest span moment the panel owns and the least support moment next to one of its spans, each attained |
| OnewaySlab.ExtremesSigns | oneway_slab.py:273-282 | under a non-negative load the reported positive moment is >= 0 and the reported negative moment is <= 0 |
| OnewaySlab.StripMoments | oneway_slab.py:230-294 | keeps the geometry; a single span uses the fixity coefficients with "fixed or continuous" ends; two or more spans use the TS 500 tables and the owned extremes |
| OnewaySlab.CarryingDir | oneway_slab.py:186-187 | the load is carried along Y exactly when the panel is shorter along X |
| OnewaySlab.AnalyseStrip | oneway_slab.py:190-228 | chain, end fixity, supports and spans satisfy the strip geometry relation, whose chain is the connected strip of sid (closed and reached from sid) |
| OnewaySlab.ComputeOnewayPerSlab | oneway_slab.py:169-294 | load w = pd * b, the carrying direction, the strip geometry over the connected strip of sid, and the one-span or multi-span moments |
| OnewaySlab.ScanPilye | oneway_slab.py:486-493 | the bent-up area of a neighbour that has one, 0 when no neighbour has one |
| OnewaySlab.ExtraRequirement | oneway_slab.py:495-496 | max(0, the support area less the own and the neighbour's bent-up bars) |
| OnewaySlab.LongSideBars | oneway_slab.py:483-507 | no extra bars on a discontinuous long edge; on a continuous one, the catalogue choice for the missing area, none at or below 1e-6 |
| OnewaySlab.ShortSideBars | oneway_slab.py:417-457 | edge bars for the minimum area on a discontinuous short edge; interior-support bars for 0.6 of the main area on a continuous one |
| OnewaySlab.OnewayBars | oneway_slab.py:375-533 | the straight and bent-up split, distribution bars for a fifth of the main area, and the short-edge and long-edge rules on the edges that the carrying direction selects |
| OnewaySlab.OnewayReport | oneway_slab.py:297-574 | succeeds exactly when both the span and the support moment can be designed; fails with the span design's error first, then the support design's; on success follows every design rule |
| TwowaySlab.SlabEdgeHasBeam | twoway_slab.py:15-32 | true exactly when the edge's gridline lies on the grid and a beam runs along it at every cell of the edge |
| TwowaySlab.TwowayNetLxLy | twoway_slab.py:33-51 | the net spans along X and Y, less half a beam width per beamed edge, each at least 0.05 |
| TwowaySlab.Pair | twoway_slab.py:92 | the set holds exactly the two named edges |
| TwowaySlab.DiscSet | twoway_slab.py:63-100 | an edge is in the set exactly when it is discontinuous |
| TwowaySlab.PickTwoWayCaseExact | twoway_slab.py:63-100 | the case lies in 1..7 |
| TwowaySlab.PickMatchesTable | twoway_slab.py:63-100 | the choice agrees with the case table written on the four flags |
| TwowaySlab.CaseByCount | twoway_slab.py:63-100 | 0, 1, 3 and 4 discontinuous edges are exactly cases 1, 2, 6 and 7; two discontinuous edges give 3 to 5 |
| TwowaySlab.CaseTwoEdges | twoway_slab.py:63-100 | a corner pair gives 3; T and B give 4 unless the panel is longer along X by more than the tolerance (then 5); L and R give 5 unless it is longer along X by more than the tolerance (then 4) |
| TwowaySlab.CaseTransposed | twoway_slab.py:63-100 | away from the square case, transposing the panel and its edge flags gives the same case |
| TwowaySlab.SquareCaseAsymmetric | twoway_slab.py:63-100 | in the square case the choice depends on orientation: T and B discontinuous gives 4, L and R discontinuous gives 5 |
| TwowaySlab.ShortAlpha | twoway_slab.py:130-131 | the coefficient is present exactly when the table entry is |
| TwowaySlab.MomentOf | twoway_slab.py:141-144 | the moment is present exactly when the coefficient is |
| TwowaySlab.CaseOf | twoway_slab.py:124-126 | the case of the full-coverage flags lies in 1..7 |
| TwowaySlab.AspectRatio | twoway_slab.py:119-121 | m >= 1 and m * ls = ll |
| TwowaySlab.ComputeTwowayPerSlab | twoway_slab.py:101-174 | net spans, ls the shorter and m >= 1 with m * ls the longer, the case from full coverage, the short axis X exactly when lx <= ly, and each moment alpha * pd * ls^2 from the case's row, present exactly when its coefficient is |
| TwowaySlab.Assemble | twoway_slab.py:130-168 | the short-direction coefficients interpolated at m and the long-direction ones as tabulated become moments alpha * pd * ls^2, each present exactly when its coefficient is; the short pair goes on X exactly when lx <= ly, the long pair on the other axis |
| TwowaySlab.ShortMomentClamped | twoway_slab.py:130-131 | beyond the breakpoint range the short-direction coefficient is the end value of the table |
| TwowaySlab.TwowayCases | twoway_slab.py:200-210 | exactly four main designs, in order X span, Y span (depth 10 mm less), X support, Y support, missing moments counting as 0 |
| TwowaySlab.DesignCase | twoway_slab.py:206-210 | succeeds exactly when the moment can be designed, with that design's error and choice |
| TwowaySlab.DesignMains | twoway_slab.py:206-210 | succeeds exactly when all four designs succeed; otherwise fails with the first failure's error |
| TwowaySlab.TwowayReport | twoway_slab.py:177-222 | succeeds exactly when all four main designs do, fails with the first failure, and on success follows the design rules, with additional support bars for the support area less the span area, capped at 330 mm |
| TwowaySlab.SupportExtraAlwaysFound | twoway_slab.py:212-213 | the additional support bars of a successful design are always found |
| TwowaySlab.ExtraCandidate | twoway_slab.py:212-213 | support bars within a cap of at most 250 mm are themselves a candidate for the additional requirement |
| BalconySlab.EdgeRatio | balcony_slab.py:22-24 | exactly the edge's coverage ratio (found over total cells), in [0, 1], and 0 when nothing touches it |
| BalconySlab.RatioWithoutNeighbour | balcony_slab.py:22-24 | an edge without neighbour panels has ratio 0 |
| BalconySlab.FirstMaxIndex | balcony_slab.py:26 | the first index of the maximum: no ratio is larger and every earlier one is strictly smaller |
| BalconySlab.FixedEdge | balcony_slab.py:15-28 | the fixed edge has the largest ratio and is the first such edge in the order L, R, T, B |
| BalconySlab.BalconyFixedEdgeGuess | balcony_slab.py:15-28 | the loops return the fixed edge |
| BalconySlab.CantileverMoment | balcony_slab.py:81 | a non-negative load gives a non-negative moment |
| BalconySlab.ComputeBalconyPerSlab | balcony_slab.py:59-83 | w = pd * b, the shorter-side direction, the net length max(0.05, Lg - bw/2), and the cantilever moment 0.5 * w * Lnet^2 |
| BalconySlab.AbsOrZero | balcony_slab.py:46-48 | never negative; the absolute moment when one is given |
| BalconySlab.TwowayEdgeMoment | balcony_slab.py:45-48 | the two-way neighbour's |Mx-| on L or R and |My-| on T or B, 0 when missing |
| BalconySlab.NeighborSupportMomentForEdge | balcony_slab.py:31-56 | 0 for an unknown panel; otherwise the support moment of the neighbour's own analysis by kind, never negative |
| BalconySlab.BalconyNeighbours | balcony_slab.py:100-119 | the panel itself is never among them |
| BalconySlab.BalconyNeighboursAgree | balcony_slab.py:100-119 | for a box with non-negative low corner, the fixed-edge scan finds exactly the neighbours across that side |
| BalconySlab.ScanFixedEdge | balcony_slab.py:97-119 | the loop returns the panels across the fixed edge |
| BalconySlab.NeighbourMoments | balcony_slab.py:125-129 | each neighbour's support moment, and their maximum (0 when there are none), attained by one of them |
| BalconySlab.GetBalconyDesignMoment | balcony_slab.py:86-133 | the design moment is at least the balcony's own and every neighbour's support moment and equals one of them; it is the balcony's own when there are no neighbours |
| BalconySlab.BalconyReport | balcony_slab.py:136-172 | the design moment rule; success exactly when that moment can be designed, with the design's error otherwise; on success the fixed edge, the main bars and the distribution bars for a fifth of their area |
| MomentBalanceSlab.OppositeEdge | moment_balance_slab.py:60-63 | the opposite edge lies on the same axis, on the other side |
| MomentBalanceSlab.OppositeInvolution | moment_balance_slab.py:60-63 | the opposite of the opposite is the edge itself, and no edge is its own opposite |
| MomentBalanceSlab.FirstNeighbourFrom | moment_balance_slab.py:31-34 | a found neighbour is a known panel other than the panel itself |
| MomentBalanceSlab.FirstNeighbourFromSpec | moment_balance_slab.py:31-34 | none exactly when no cell from position k on has a known other owner; otherwise the owner of the first such cell |
| MomentBalanceSlab.NeighbourOnEdge | moment_balance_slab.py:11-57 | none on a boundary edge; a found neighbour is a known panel other than the panel itself, reported with its kind |
| MomentBalanceSlab.NeighbourOnEdgeMembers | moment_balance_slab.py:11-57 | the found neighbour is one of the neighbours across that side; none exactly when no neighbour across the side is a known panel |
| MomentBalanceSlab.GetNeighborOnEdge | moment_balance_slab.py:11-57 | the scan with early return finds that neighbour |
| MomentBalanceSlab.EntryMoment | moment_balance_slab.py:66-81 | only a two-way result has a support moment: Mx- for L and R, My- for T and B |
| MomentBalanceSlab.EntrySpan | moment_balance_slab.py:153-154 | 1.0 for an entry that is not a two-way result |
| MomentBalanceSlab.EntryMomentOpposite | moment_balance_slab.py:184-191 | the opposite edge reads the same moment and span as the edge itself |
| MomentBalanceSlab.Lookup | moment_balance_slab.py:180-181 | none exactly when the id has no entry |
| MomentBalanceSlab.LookupAt | moment_balance_slab.py:180-181 | with distinct ids, looking up an entry's id finds that entry |
| MomentBalanceSlab.AbsOf | moment_balance_slab.py:93 | present exactly when the moment is; never negative, and plus or minus the moment |
| MomentBalanceSlab.GetOnewaySupportMoment | moment_balance_slab.py:84-95 | none for an unknown panel; otherwise the absolute support moment of the panel's one-way analysis |
| MomentBalanceSlab.StiffnessRatio | moment_balance_slab.py:98-116 | the factors sum to 1 and lie in (0, 1); (0.5, 0.5) for a non-positive span; otherwise K1/(K1+K2) = L2/(L1+L2) and K2/(K1+K2) = L1/(L1+L2) |
| MomentBalanceSlab.ShorterSpanStiffer | moment_balance_slab.py:109-116 | the shorter span takes the larger share |
| MomentBalanceSlab.Redistribute | moment_balance_slab.py:218-238 | after moving 2/3 of the difference, the adjusted moments differ by a third of it, keep their order, and stay within [Min, Max] |
| MomentBalanceSlab.DesignMoment | moment_balance_slab.py:208-251 | within [Min, Max]; the larger moment when Min >= 0.8 Max; otherwise the larger adjusted moment, at least Min + (Max - Min)/3 |
| MomentBalanceSlab.PairKeySymmetric | moment_balance_slab.py:168 | A seen from B's opposite edge gives the same pair key as B seen from A's edge |
| MomentBalanceSlab.EdgeTableNonNegative | moment_balance_slab.py:254-255 | every recorded design moment is non-negative |
| MomentBalanceSlab.DrivenEdgeMarked | moment_balance_slab.py:145-171 | every edge a two-way panel with a result drives toward a two-way or one-way neighbour ends up among the processed pair keys |
| MomentBalanceSlab.NoKeysWithoutDriver | moment_balance_slab.py:145-151 | a panel that is not two-way, or has no result, contributes no pair keys |
| MomentBalanceSlab.NeighbourSide | moment_balance_slab.py:179-203 | a two-way neighbour contributes exactly when it has a moment facing the edge, its |M| and span on that axis; a one-way neighbour contributes its strip's absolute support moment and its shorter gross side, and contributes nothing only when its strip has no support moment |
| MomentBalanceSlab.BalanceEdge | moment_balance_slab.py:156-255 | keeps the phase invariant (every recorded edge follows the balancing rule, keys are distinct and processed, the table is the replay of the records); adds this edge's pair key when it drives one; records at most one balanced edge, of this panel and edge and only when recordable (driven, fresh key, own moment); records it whenever it is wanted (also the neighbour's moment exists), and for a fresh key with a two-way neighbour exactly when the neighbour's facing moment exists |
| MomentBalanceSlab.PassTraceStep | moment_balance_slab.py:156-255 | one more edge of the current entry extends the pass trace: by one record of that panel and edge when it is recordable, by nothing when it is not wanted |
| MomentBalanceSlab.PassTraceIdle | moment_balance_slab.py:146-151 | an entry that is not a two-way panel with a result records nothing for its four edges |
| MomentBalanceSlab.PassTraceRecordsWanted | moment_balance_slab.py:145-256 | completeness: every edge that came up driven, with a fresh pair key, the panel's own moment and the neighbour's moment, is in the trace |
| MomentBalanceSlab.PassTraceRecordsOnlyRecordable | moment_balance_slab.py:156-177 | soundness: every recorded edge is the panel and edge of a slot that came up driven, with a fresh pair key and the panel's own moment |
| MomentBalanceSlab.BalancePanel | moment_balance_slab.py:156-256 | the four edges in order L, R, T, B keep the phase invariant, add exactly the panel's pair keys, and extend the pass trace over the panel's four edges (each recorded only when recordable, always when wanted) |
| MomentBalanceSlab.BalanceSlot | moment_balance_slab.py:156-255 | balancing edge k of entry i, with the keys of the edges before it processed, keeps the phase invariant, adds exactly that edge's pair key and extends the pass trace by that one edge |
| MomentBalanceSlab.CollectBalanced | moment_balance_slab.py:145-256 | the loop over the entries keeps the phase invariant, processes exactly the pair keys of all driven edges, and its trace is the pass trace over all entries: edges in the order entries × L, R, T, B, every wanted edge recorded, nothing else, so the table's overwrites follow that order |
| MomentBalanceSlab.NewNeg | moment_balance_slab.py:274-283 | the negated balanced moment of the first edge that has one, otherwise the raw moment |
| MomentBalanceSlab.BalancedNeg | moment_balance_slab.py:274-283 | the loop with break returns that value |
| MomentBalanceSlab.BalancedEntry | moment_balance_slab.py:259-286 | empty entries stay empty; entries that are not of two-way panels are copied unchanged; positive moments are kept; Mx- and My- take the negated balanced moments of L/R and T/B |
| MomentBalanceSlab.ApplyBalanced | moment_balance_slab.py:258-288 | one output per entry, in order, each the balanced entry |
| MomentBalanceSlab.BalanceSupportMoments | moment_balance_slab.py:119-288 | the phase invariant over all entries, every driven pair processed, the trace the pass trace over all entries (every wanted edge balanced, in processing order), and every output entry the balanced copy of its input |
| MomentBalanceSlab.BalancedNegativeNonPositive | moment_balance_slab.py:274-283 | a balanced support moment is stored as a non-positive value |

## Left out

- The report strings, the calculation-step logs and the balance log are not modelled. These cover labels, `label_with_area`, the collected `steps`/`lines` and the formatted numbers. Only the values they print are modelled.
- The `SlabSystem` wrappers at slab_model.py:233-301 only delegate to the module functions, so they are not modelled. Those module functions are modelled instead.
- `color_for_id` and `bbox` are left out: colouring for the user interface, and a tuple accessor.
- The constants module (alpha table, aspect breakpoints, design chart, diameter and spacing lists) is not part of this model. Its tables are a parameter record that must satisfy `Tables.Valid`. Spacings of at most 10000 mm are assumed, which is what makes the area gap exact.
- `get_table_value` is modelled as indexing the chart parameter by column.
- KsMonotone: monotonicity of ks in K is proved for any chart whose ks rises as K falls. The chart data itself is not part of this model, so that property of the data is a hypothesis of the lemma.
- Floating point is modelled as exact reals. `math.pi` is the constant 3.141592653589793.
- `pick_two_way_case_exact` appears twice, at slab_model.py:161-196 and twoway_slab.py:63-100, with the same body. It is modelled once. The same holds for `twoway_edge_continuity_full`, at slab_model.py:154-159 and twoway_slab.py:52-62.
- Python set iteration order is not modelled. The neighbour scans in chain_end_fixity, the pilye lookup and the balcony's neighbour loop pick elements in an unspecified order. Their contracts state only what holds in every order, for example "the bent-up area of some neighbour that has one".
- The edge-name and direction `.upper()` normalisation and the fallbacks for unknown names are left out. Edges, axes, sides and kinds are enumerations.
- Edge sets in the case picker are four flags (`EdgeSet`), not Python sets of strings.
- OnewaySlab.ComputeOnewayPerSlab requires an ordered box for the panel. Every panel the editor creates is ordered through `rect_normalize`. The downstream analyses assume `BoxesOrdered` for the whole grid.
- OnewaySlab.OnewayResult: the single-span result in the source has no per-span moment lists and keeps the fixity flags. The model carries one record type for both cases and states the fixity in `StripGeometry`.
- Per-span Lnet: in compute_oneway_per_slab the net span is computed with `is_beam_gridline_for_slab(owner, direction, …)` on the carrying axis, at gridlines of the long-edge axis. It is modelled as written. It only feeds the log, because the moments use the gross L_short.
- The `bw` argument of compute_oneway_report and compute_twoway_report only enters the report text (hook lengths), so it is not a parameter of the report models.
- The `neighbor_pilye_areas` map of the one-way report is a `map<string, real>` parameter. How the user interface fills it is not part of this model.
- A balcony's support-moment lookup and a moment-balance neighbour of kind ONEWAY use the neighbour's one-way analysis as a relation (`OnewayPerSlabRule`), not as a single value. Its chain's members are determined (`ChainMembersDetermined`); only the order among chain panels with equal keys, which Python's set iteration decides, is left open.
- MomentBalanceSlab.GetOnewaySupportMoment: the bare `except` in get_oneway_support_moment is modelled as None for an unknown panel only. For a known panel with an ordered grid, the analysis does not raise.
- MomentBalanceSlab.RawEntry: raw result dictionaries are a datatype with a two-way result, a one-way result or no result. `res.get("Lx_net", 1.0)` and `res.get("Mx", (None, None))` then give 1.0 and None exactly for entries that are not two-way results.
- MomentBalanceSlab.BalancedEntry: in the source, a TWOWAY panel whose raw entry is not a two-way result gets `Mx`/`My` keys of (None, None) added to its copy. The model leaves such an entry unchanged.
- File I/O, the GUI and DXF drawing are outside the core and are not part of this model.
