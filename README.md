# Flood fill, modelled and verified in Dafny

This project models the flood fill in `floodfill.py`. A fill takes a
caller-owned rectangular grid of one-character shape strings, a seed cell and
a new shape. It overwrites, in place, every cell connected to the seed through
cells holding the seed's original shape. It returns how many cells it
overwrote. The search is breadth-first. It uses a FIFO queue and a visited
set, and a cell is marked visited when it is enqueued.

The source has three public variants. They differ only in their direction
list and in an optional boundary shape:

- `perform_flood_fill` steps in the four cardinal directions.
- `flood_fill_diagonal` adds the four diagonals.
- `flood_fill_with_boundary` takes cardinal steps. With an active
  (non-empty) `boundary_shape`, it never enqueues a cell holding that shape,
  and it does nothing when the seed holds it.

The model shares one engine, `FloodFill.Fill`, across the three variants. It
takes the live grid as an `array2<Shape>`, a direction list and an
`Option<Shape>` boundary. A boundary of `None` or `""` is inactive, matching
Python truthiness.

`Fill` is proved against `FloodFill.FillSpec`, a function on a value snapshot
of the grid (`seq<seq<Shape>>`). FillSpec gives one of three outcomes:

- `IndexError` for a seed out of bounds.
- The grid unchanged with count 0 when the seed already holds the new shape,
  or holds an active boundary shape.
- Otherwise the grid with the seed's region overwritten, with count equal to
  the region's size.

The region, `Regions.Region`, is defined declaratively: the in-bounds cells
reachable from the seed by a walk of direction steps through cells holding
the original shape.

The breadth-first loop, `FloodFill.Drain`, keeps `Traversal.BfsInvariant`:

- The queue holds visited, unfilled cells, each once.
- Every visited cell is in the region.
- Every filled cell has had all its open neighbours visited.

When the queue is empty, the filled cells are therefore exactly the region,
by `Regions.RegionLeast`. Termination uses the unvisited cells and then the
queue length.

The file `properties.dfy` proves what the source promises about every input:

- the error path and the early exits;
- that exactly the region changes, each cell once, from the original shape
  to the new shape;
- that the count equals the number of changed cells (for a grid whose rows
  are distinct lists);
- that a boundary cell is never overwritten;
- that the eight-direction fill covers the four-direction fill.

The file `scenarios.dfy` works through concrete grids.

Two observations about the source are proved rather than assumed:

- For a grid whose rows are distinct lists, the
  `grid[row][col] == original_shape` test at `floodfill.py:59` (and its
  copies at 138 and 216) always passes. A dequeued cell has never been filled,
  and it held the original shape when it was enqueued. `Drain` keeps the
  test.
- The boundary skip at `floodfill.py:235` never rejects a cell that the
  original-shape test at 239 would accept. After the early exit at 195, the
  original shape differs from an active boundary shape.
  `FillProperties.BoundaryFillIsPlainFill` states the consequence: away from
  that early exit, the boundary variant fills exactly what the plain variant
  fills.

## Model

| member | source | states |
|---|---|---|
| FloodFill.Fill | floodfill.py:26-81 | The final grid and result are those `FillSpec` gives for the initial grid: `Err(IndexError)` with the grid untouched for an out-of-bounds seed, `Ok(0)` with the grid untouched on an early exit (`NoOp`: lines 38, 114 and 195), otherwise the seed's region painted with the new shape and the count of its cells. |
| FloodFill.PerformFloodFill | floodfill.py:7-81 | The four-direction fill with no boundary realises FillSpec with the cardinal directions. |
| FloodFill.FloodFillDiagonal | floodfill.py:83-160 | The eight-direction fill realises FillSpec with the cardinal then diagonal directions. |
| FloodFill.FloodFillWithBoundary | floodfill.py:162-243 | The four-direction fill with an optional boundary realises FillSpec, including the early exit when the seed holds an active boundary shape. |
| FloodFill.Drain | floodfill.py:41-81 | Starting from an untouched grid, the breadth-first loop leaves exactly the seed's region overwritten with the new shape, and the count is the size of that region. |
| FloodFill.EnqueueNeighbours | floodfill.py:225-241 | The scan keeps the queue's old contents as a prefix. It appends, each once, every neighbour that `Accepts` (in bounds, unvisited, not an active boundary shape, holding the original shape), in direction order as `ScanOrder` lists them. It visits exactly the appended cells, and every accepted neighbour ends up visited. The same scan without the boundary skip is at lines 68-79 and 147-158. |
| FloodFill.AcceptsIsOriginalShape | floodfill.py:229-241 | Once the original shape is not an active boundary shape, `Accepts` (the enqueue test of lines 73-76, 152-155 and 230-239) holds exactly for an in-bounds cell holding the original shape. |
| FloodFill.Visit | floodfill.py:58-79 | Overwriting the dequeued head and scanning its neighbours keeps the breadth-first invariant with the head now filled, and decreases the loop's measure. |
| FloodFill.Commit | floodfill.py:59-62 | Writing the new shape into one cell extends the set of overwritten cells by that cell and changes no other cell. |
| FloodFill.ScanIsOpenExpansion | floodfill.py:229-241 | On cells not yet visited the live grid still holds the original snapshot, and the boundary test never rejects an original-shape cell. So the scan enqueues exactly the open neighbours of the snapshot. |
| Traversal.BfsStart | floodfill.py:42-51 | The initial queue `[seed]`, visited set `{seed}` and empty filled set satisfy the breadth-first invariant. |
| Traversal.BfsHead | floodfill.py:56-59 | The dequeued cell is not filled yet, lies in the region and holds the original shape, so the test at line 59 passes. |
| Traversal.BfsStep | floodfill.py:54-79 | Filling the head and enqueueing its unvisited open neighbours keeps the invariant, and either visits a new cell or shortens the queue. |
| Traversal.BfsDone | floodfill.py:54-81 | With the queue empty, the filled cells and the visited cells both equal the seed's region. |
| Regions.RegionLeast | floodfill.py:54-79 | The region is contained in every set that holds the seed and contains each open neighbour of its members, so the search cannot miss a reachable cell. |
| Regions.PathInside | floodfill.py:69-79 | Every cell of a walk through open cells from the seed lies in any set that is closed under open steps. |
| Regions.RegionExactly | floodfill.py:54-79 | A set that holds the seed, is closed under open steps and contains only reachable cells is the region. |
| Regions.RegionBound | floodfill.py:51-62 | The region has between 1 and height*width cells. |
| Regions.RegionMonotone | floodfill.py:121-124 | A direction list containing another yields a region containing the other's region. |
| Regions.DiagonalCoversCardinal | floodfill.py:121-124 | The eight-direction region contains the four-direction region and is at least as large. |
| Grids.BoxCellsCard | floodfill.py:27-28 | A height-by-width grid has exactly height*width cells. |
| Grids.InBoundsSetBound | floodfill.py:73-74 | Any set of in-bounds cells has at most height*width members. |
| FillProperties.FillErrorsAndEarlyExits | floodfill.py:31-39 | `FillSpec` is an IndexError exactly when the seed is out of bounds. On the early exits of `NoOp`, a seed holding the new shape or an active boundary shape, it gives count 0 and the grid unchanged. |
| FillProperties.InactiveBoundaryIgnored | floodfill.py:195 | `BoundaryActive` is Python truthiness: an inactive boundary is `None` or `""`, and the fill then behaves as if no boundary were given. |
| FillProperties.FillChangesExactlyRegion | floodfill.py:54-81 | For a grid whose rows are distinct lists, a fill keeps the grid's dimensions. It changes exactly the seed's region, or nothing on an early exit. Each changed cell held the original shape and now holds the new one. The count equals the number of changed cells. |
| FillProperties.FillChangesOnlyReachable | floodfill.py:68-79 | An in-bounds cell changes if and only if the fill did not exit early and the cell is reachable from the seed through cells of the original shape. |
| FillProperties.FillCountBounds | floodfill.py:62 | The count is at most height*width, and it is 0 exactly on an early exit. |
| FillProperties.FillIdempotent | floodfill.py:37-39 | A second identical fill on the result changes nothing and counts 0. |
| FillProperties.BoundaryNeverOverwritten | floodfill.py:194-241 | With an active boundary, the region holds no boundary cell, and every boundary cell keeps its shape. |
| FillProperties.BoundaryEncloses | floodfill.py:234-236 | Suppose a set around the seed has every outward step leaving the grid or landing on the boundary shape. Then every cell the boundary fill changes lies inside that set. |
| FillProperties.DiagonalFillCoversCardinal | floodfill.py:120-124 | On the same grid and seed, the eight-direction fill changes every cell the four-direction fill changes, and its count is at least as large. |
| FillProperties.BoundaryFillIsPlainFill | floodfill.py:234-241 | Unless the seed holds the active boundary shape, the boundary fill gives the same grid and count as the plain fill. |
| FillScenarios.CheckerboardCardinal | floodfill.py:44-45 | On the 2x2 checkerboard `- X / X -`, the four-direction fill from (0,0) changes only (0,0) and counts 1. |
| FillScenarios.CheckerboardDiagonal | floodfill.py:120-124 | On the same checkerboard, the eight-direction fill also reaches (1,1) diagonally and counts 2. |
| FillScenarios.RingWithBoundary | floodfill.py:234-241 | Filling the centre of a 3x3 ring of `#` with `#` as the boundary changes only the centre and counts 1. |
| FillScenarios.SeedOutside | floodfill.py:31-32 | A seed outside the grid is an IndexError. |
| FillScenarios.AlreadyTarget | floodfill.py:38-39 | A seed already holding the new shape gives count 0 and leaves the grid unchanged. |
| FillScenarios.SeedOnBoundary | floodfill.py:195-196 | A seed holding the boundary shape gives count 0 and leaves the grid unchanged. |

## Left out

- The `animate`, `visualizer` and `delay` parameters, and the call to
  `visualizer.animate_fill` (`floodfill.py:65-66`, 144-145, 222-223), are
  left out. They only display the grid and never change it or the count.
- `main.py` (the command-line driver) and `visualizer.py` (terminal
  rendering and its delays) are not part of this model.
- Rows are assumed to be distinct lists. A Python grid built as
  `[[v] * w] * h` shares one list between rows, so one write changes several
  positions. Then a queued cell can fail the test at `floodfill.py:59`, and
  the count is smaller than the number of changed positions. The `array2`
  grid cannot alias its rows, so that behaviour is not modelled.
- Ragged grids are left out. The live grid is an `array2`, so every row has
  the same length. For a ragged Python list, the bounds check uses the first
  row's length, and indexing a shorter row could raise.
- The visited set and queue are modelled as a Dafny `set` and `seq`. The
  constant-time hashing of Python's `set`/`deque` is not modelled.
- Only string shapes are modelled. Any other cell value compared with `==`
  is left out.
