# Scale explorer: grid arrangement and two-group state

This project models the core of a browser app for comparing quantities. The
user places two groups of identical 3-D units, group A and group B, side by
side. Then they switch the groups or compare their sizes. The model covers
three parts:

- **Grid** (`grid.dfy`). `calculateGridArrangement` picks the rows × cols
  lattice for a count of units. It scans rows = 1, 2, … while rows² ≤ count
  for the exact factor pair with the smallest cols − rows. When only the
  1 × count pair exists, it falls back to a ⌈√count⌉ square. The scan is a
  `method` with loop invariants. It is proved equal to the specification
  function `GridArrangement`, whose properties are proved as lemmas.
  `getGridPosition` gives the offset of unit `index` from its group's base.
  Units are placed row-major, with the lattice centred on the base, at
  spacing 1.5.
- **Comparison** (`comparison.dfy`). This is the verdict branch of
  `performComparison`. The float test |A/B − 1| < 0.01 is restated and
  proved equivalent over the integers.
- **AppModel** (`app_state.dfy`). The application state is a `class AppState`
  with the selected shape and quantity and two group records. Five of its
  methods update the records in place: `placeGroup`, `clearGroup`,
  `clearAllObjects`, `switchGroups` and `repositionGroup`.
  `performComparison` reads the two quantities and returns a verdict; it
  changes no record. A mesh is represented only by its position. The
  group bases are A = (−5, 0, 0) and B = (5, 0, 0) (`AppModel.Base`,
  script.js:17-20). The class invariant `Valid` says that every group's
  meshes sit exactly on the lattice for its quantity at its base.

`arith.dfy` holds small arithmetic facts used by the proofs.

Three behaviours of the arrangement are worth knowing:

- Only exact divisors are used, so 10 units become 2 × 5.
- The lattice is centred on the group's base.
- A fallback square that is not full is bounded symmetrically about the
  base but is not mean-centred (`Grid.FallbackNotCentred`).

## Model

| member | source | states |
|---|---|---|
| `Grid.FloorSqrt` | script.js:422 | s² ≤ n < (s+1)², so the loop test `rows <= Math.sqrt(count)` for an integer rows is `rows <= FloorSqrt(count)` |
| `Grid.FloorSqrtUnique` | script.js:422 | the loop exits at the first rows with rows² > count, so its last rows is FloorSqrt(count) |
| `Grid.CeilSqrt` | script.js:436 | `Math.ceil(Math.sqrt(n))` is the least s with n ≤ s²: n ≤ s², (s−1)² < n for n > 0, and 0 for n = 0 |
| `Grid.SquarestDivisor` | script.js:422-432 | the divisor the scan keeps is a divisor of n, and no larger e ≤ r divides n |
| `Grid.GridArrangement` | script.js:412-442 | the arrangement always has spacing 1.5 and rows ≤ cols, covers count units (count ≤ rows·cols), and is non-empty for count ≥ 1 |
| `Grid.ScanStep` | script.js:423-431 | one loop iteration: a divisor rows beats the best pair so far (strictly smaller cols − rows) exactly when rows ≥ 2, so the best row count stays the largest divisor found so far |
| `Grid.CalculateGridArrangement` | script.js:412-442 | the scanning loop with its fallback returns exactly `GridArrangement(count)`, for count = 0 included |
| `Grid.ExactFactorPair` | script.js:418-432 | if count has a divisor d with 2 ≤ d and d² ≤ count, the grid is an exact pair rows·cols = count, and rows is a divisor with rows² ≤ count and rows ≥ d |
| `Grid.PrimeFallback` | script.js:435-439 | for a prime count the grid is the ⌈√count⌉ square, and it has more cells than units |
| `Grid.ExactIffNotPrime` | script.js:412-442 | for count ≥ 1 the lattice is exactly full (rows·cols = count) if and only if count is not prime |
| `Grid.ArrangementExamples` | script.js:412-442 | 1 → 1×1, 12 → 3×4, 10 → 2×5, 9 → 3×3, and the primes 7 → 3×3, 3 → 2×2, 2 → 2×2 |
| `Grid.GridPosition` | script.js:444-452 | getGridPosition: row = index / cols and col = index % cols, x and z the column and row distances from the centre lines times the spacing; its contract says the offset is on the floor plane (y = 0), and its properties are proved in `DistinctIndicesDistinctCells`, `OffsetBounds` and `FullGridCentred` |
| `Grid.GridPositionScaled` | script.js:444-452 | the offset is the unit offset (column and row distance from the centre lines, height 0) scaled by the spacing |
| `Grid.DistinctIndicesDistinctCells` | script.js:444-452 | every offset has y = 0, and two indices with the same offset are equal (for a non-zero spacing) |
| `Grid.RowInRange` | script.js:445 | an index below rows·cols has row index / cols below rows |
| `Grid.ColumnBound` | script.js:446-448 | \|x\| ≤ (cols−1)/2 · spacing for every index |
| `Grid.RowBound` | script.js:445-449 | \|z\| ≤ (rows−1)/2 · spacing for every index inside the lattice |
| `Grid.OffsetBounds` | script.js:444-452 | inside the lattice the offsets are bounded symmetrically about the base in x and in z |
| `Grid.Coverage` | script.js:444-446 | for the arrangement of count, every index below count gets a row below rows and a column below cols |
| `Grid.CellIsDivMod` | script.js:445-446 | counting off cols units per row gives row = index / cols and col = index % cols |
| `Grid.UnitSums` | script.js:444-452 | the unit offsets of units 0..n−1 sum to the column distances in x and to the row distances in z |
| `Grid.OffsetSumX` | script.js:448 | the x offsets sum to the unit x sum scaled by the spacing |
| `Grid.OffsetSumZ` | script.js:449 | the z offsets sum to the unit z sum scaled by the spacing |
| `Grid.FullColumnsCancel` | script.js:446-448 | over complete rows the column distances sum to 0 |
| `Grid.FullRows` | script.js:445-449 | over r complete rows the row distances sum to cols·r·(r − rows)/2 |
| `Grid.FullGridCentred` | script.js:444-452 | when count = rows·cols, the x offsets and the z offsets each sum to 0 |
| `Grid.PartialUnitSums` | script.js:444-452 | with r complete rows and c units in row r, the x sum is c(c − cols)/2 and the z sum is cols·r·(r − rows)/2 plus c times the distance of row r |
| `Grid.FallbackNotCentred` | script.js:435-452 | 7 units on the fallback 3×3 grid have x offsets summing to −1.5 and z offsets summing to −3, so they are not mean-centred |
| `Comparison.RatioTest` | script.js:536-541 | for positive counts, \|a/b − 1\| < 0.01 exactly when 100·\|a − b\| < b, and a/b > 1 exactly when a > b |
| `Comparison.Compare` | script.js:527-547 | each verdict holds if and only if its condition does: nothing to compare when a count is 0; "equal" within one percent of B; otherwise the group with the larger count |
| `Comparison.EqualMeansSameCountUpTo100` | script.js:539 | for counts 1..100 the "equal" verdict holds exactly when the counts are equal |
| `Comparison.EqualityNotSymmetric` | script.js:536-541 | 100 against 101 is "equal", but 101 against 100 names A as larger |
| `Comparison.SwapVerdict` | script.js:537-547 | swapping the counts turns "B larger" into "A larger", and keeps "equal" when A ≥ B |
| `AppModel.Base` | script.js:17-20 | the fixed group bases: A at (−5, 0, 0) and B at (5, 0, 0) |
| `AppModel.Lattice` | script.js:383-395 | n positions, position i being base + getGridPosition(i) on the given arrangement |
| `AppModel.Layout` | script.js:382-398 | the meshes placeGroup creates for quantity q: exactly q positions, position i being base + getGridPosition(i) on the arrangement for q |
| `AppModel.Relaid` | script.js:508-524 | repositionGroup's effect on a record: an empty group is unchanged; otherwise shape, quantity and mesh count are kept and mesh i moves to base + getGridPosition(i) on the arrangement for the quantity |
| `AppModel.Switched` | script.js:483-506 | switchGroups' effect on the pair: A gets B's shape, quantity and meshes and B gets A's, each re-laid at its new base |
| `AppModel.LayoutUnit` | script.js:385-392 | mesh i of a placed group is at base + getGridPosition(i), at the base's height, inside the lattice's symmetric bounds |
| `AppModel.LayoutDistinct` | script.js:385-396 | no two meshes of a placed group share a position |
| `AppModel.TranslateSums` | script.js:387-391 | moving n offsets to a base adds n copies of the base coordinate to each coordinate sum |
| `AppModel.LatticeCentred` | script.js:383-396 | the meshes on a full lattice have the base as their mean x and mean z |
| `AppModel.LayoutCentred` | script.js:383-396 | a group placed with a quantity that is not prime is centred on its base |
| `AppModel.SwitchTwiceRestores` | script.js:483-506 | switching keeps both groups on their lattices, exchanges shape and quantity, and switching twice restores both records, positions included |
| `AppModel.AppState.constructor` | script.js:24-42 | initial state: shape "sphere", quantity 5, both groups empty (no meshes, no shape, quantity 0) |
| `AppModel.AppState.ClearGroup` | script.js:455-472 | the named group is reset to empty; the other group and the selection are unchanged; `Valid` is kept |
| `AppModel.AppState.ClearAllObjects` | script.js:474-481 | both groups are empty afterwards, the selection is unchanged and `Valid` is kept |
| `AppModel.AppState.PlaceGroup` | script.js:370-410 | the group holds exactly `selectedQuantity` meshes, mesh i at base + getGridPosition(i, arrangement), with the selected shape and quantity; the other group is unchanged; `Valid` is kept |
| `AppModel.AppState.RepositionGroup` | script.js:508-524 | an empty group is untouched; otherwise mesh i moves to base + getGridPosition(i) on the arrangement for the group's quantity, and shape, quantity and the other group are unchanged |
| `AppModel.AppState.SwitchGroups` | script.js:483-506 | the records are exchanged and each is re-laid at its new base, so A holds B's former shape and quantity on A's lattice and vice versa; `Valid` is kept |
| `AppModel.AppState.PerformComparison` | script.js:527-553 | the verdict is the comparison of the two group quantities, and it is "nothing to compare" exactly when either group is empty |

## Left out

- `main.js` is not part of this model.
- Babylon setup is left out: the engine, scene, camera and lights (`initializeBabylon`), and the drop zones (`createDropZones`, script.js:159-266). These are rendering only.
- Mesh and material creation is left out (`createShape`, `createMaterial`, script.js:333-367). A mesh is represented by its position; colours and sizes are not modelled.
- Mesh disposal in `clearGroup` (script.js:458-463) is left out. It is a rendering call; the record reset that follows it is modelled.
- DOM wiring and UI feedback are left out (script.js:78-156, 269-330, 587-601). This includes `updatePlacementButtonState`, `updateFeedback` and enabling or disabling the compare button. They change only the page.
- `animateCameraToShowBothGroups` (script.js:555-584) is left out: it is a camera animation.
- The comparison message text is left out, including the "×" factor rounded with `Math.round(ratio * 10) / 10` (script.js:542, 545). Only the verdict is modelled.
- The `engine`, `scene`, `camera`, `isPlacingGroupA` and `isPlacingGroupB` fields of `AppState` are left out. They belong to the rendering and UI layers.
- Floating point is not modelled. Coordinates are exact reals, and `Math.sqrt` with `Math.ceil` becomes integer square roots. For integer rows, this agrees with the float test `rows <= Math.sqrt(count)`. The ratio test is decided over exact rationals, which is what the one-percent tolerance is meant to approximate.
- Aliasing of mesh objects is not modelled. In the source, `switchGroups` exchanges array references and `repositionGroup` writes each mesh's position in place. The model holds the positions as sequence values in the group records, so the result is the same, but shared references are not represented.
- AppModel.AppState.RepositionGroup: requires that a group holding meshes has a quantity of at least 1. Every state reachable through `PlaceGroup` satisfies this (`Valid`). In the source, a quantity of 0 with meshes present would yield a 0 × 0 arrangement, where `index / 0` and `index % 0` give NaN coordinates.
