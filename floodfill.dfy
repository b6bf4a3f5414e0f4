// FloodFill: the breadth-first region fill of floodfill.py. The three
// variants of the source (four directions, eight directions, four directions
// with a boundary shape) are one engine, Fill, parameterised by the direction
// list and an optional boundary shape.

module FloodFill {
  import opened Grids
  import opened Regions
  import opened Traversal

  /** The source raises IndexError for a seed outside the grid. */
  datatype Error = IndexError

  datatype Result<T> = Ok(value: T) | Err(error: Error)

  /** The grid after a fill and the number of cells it overwrote. */
  datatype Outcome = Outcome(grid: Grid, count: nat)

  /** Python truthiness of `boundary_shape`: None and "" mean "no boundary". */
  predicate BoundaryActive(boundary: Option<Shape>)
  {
    boundary.Some? && boundary.value != ""
  }

  /** The early exit: the seed already holds the new shape, or sits on the boundary. */
  predicate NoOp(seedShape: Shape, newShape: Shape, boundary: Option<Shape>)
  {
    seedShape == newShape || (BoundaryActive(boundary) && seedShape == boundary.value)
  }

  /**
   * What a fill does to a grid snapshot: an error for a seed out of bounds,
   * nothing for the early exit, and otherwise every cell of the seed's region
   * overwritten, the count being the size of the region.
   */
  ghost function FillSpec(g: Grid, seed: Cell, newShape: Shape, dirs: seq<Offset>, boundary: Option<Shape>): Result<Outcome>
    requires Rectangular(g)
  {
    if !InBounds(g, seed) then Err(IndexError)
    else if NoOp(At(g, seed), newShape, boundary) then Ok(Outcome(g, 0))
    else
      var r := Region(g, dirs, seed);
      Ok(Outcome(Paint(g, r, newShape), |r|))
  }

  /** A method result and final grid match the specified ones. */
  ghost predicate Realises(spec: Result<Outcome>, before: Grid, after: Grid, r: Result<nat>)
  {
    match spec
    case Err(e) => r == Err(e) && after == before
    case Ok(o) => r == Ok(o.count) && after == o.grid
  }

  /** A neighbour the scan may enqueue: in bounds, not the boundary, holding the original shape. */
  predicate Accepts(grid: array2<Shape>, orig: Shape, boundary: Option<Shape>, p: Cell)
    reads grid
  {
    0 <= p.0 < grid.Length0 && 0 <= p.1 < grid.Length1 &&
    !(BoundaryActive(boundary) && grid[p.0, p.1] == boundary.value) &&
    grid[p.0, p.1] == orig
  }

  /**
   * Once the original shape is not an active boundary shape, as after the
   * early exit, a neighbour is accepted exactly when it is in bounds and
   * holds the original shape: the boundary skip never decides.
   */
  lemma AcceptsIsOriginalShape(grid: array2<Shape>, orig: Shape, boundary: Option<Shape>, p: Cell)
    requires !(BoundaryActive(boundary) && orig == boundary.value)
    ensures Accepts(grid, orig, boundary, p) <==>
      0 <= p.0 < grid.Length0 && 0 <= p.1 < grid.Length1 && grid[p.0, p.1] == orig
  {
  }

  /**
   * The cells the scan of the first `k` directions appends, in direction
   * order: an accepted neighbour that is neither visited before the scan nor
   * already appended.
   */
  ghost function ScanOrder(grid: array2<Shape>, cur: Cell, orig: Shape, dirs: seq<Offset>, boundary: Option<Shape>,
                           visited: set<Cell>, k: nat): seq<Cell>
    requires k <= |dirs|
    reads grid
  {
    if k == 0 then []
    else
      var earlier := ScanOrder(grid, cur, orig, dirs, boundary, visited, k - 1);
      var next := Add(cur, dirs[k - 1]);
      if next !in visited && next !in earlier && Accepts(grid, orig, boundary, next) then earlier + [next]
      else earlier
  }

  /**
   * The neighbour scan of one dequeued cell: every cell one step of `dirs`
   * away that is accepted and not yet visited is appended to the queue, in
   * direction order, and marked visited, each once.
   */
  method EnqueueNeighbours(grid: array2<Shape>, cur: Cell, orig: Shape, dirs: seq<Offset>, boundary: Option<Shape>,
                           queue: seq<Cell>, visited: set<Cell>)
    returns (queue': seq<Cell>, visited': set<Cell>)
    requires forall k :: 0 <= k < |queue| ==> queue[k] in visited
    requires forall a, b :: 0 <= a < b < |queue| ==> queue[a] != queue[b]
    ensures |queue| <= |queue'| && queue'[..|queue|] == queue
    ensures forall k :: |queue| <= k < |queue'| ==>
      queue'[k] !in visited && Adjacent(dirs, cur, queue'[k]) && Accepts(grid, orig, boundary, queue'[k])
    ensures forall a, b :: 0 <= a < b < |queue'| ==> queue'[a] != queue'[b]
    ensures forall p :: p in visited' <==> p in visited || p in queue'[|queue|..]
    ensures forall j :: 0 <= j < |dirs| && Accepts(grid, orig, boundary, Add(cur, dirs[j])) ==> Add(cur, dirs[j]) in visited'
    ensures queue' == queue + ScanOrder(grid, cur, orig, dirs, boundary, visited, |dirs|)
  {
    queue', visited' := queue, visited;
    var height := grid.Length0;
    var width := if height > 0 then grid.Length1 else 0;
    for k := 0 to |dirs|
      invariant |queue| <= |queue'| && queue'[..|queue|] == queue
      invariant forall i :: |queue| <= i < |queue'| ==>
        queue'[i] !in visited && Adjacent(dirs, cur, queue'[i]) && Accepts(grid, orig, boundary, queue'[i])
      invariant forall a, b :: 0 <= a < b < |queue'| ==> queue'[a] != queue'[b]
      invariant forall p :: p in visited' <==> p in visited || p in queue'[|queue|..]
      invariant forall j :: 0 <= j < k && Accepts(grid, orig, boundary, Add(cur, dirs[j])) ==> Add(cur, dirs[j]) in visited'
      invariant queue'[|queue|..] == ScanOrder(grid, cur, orig, dirs, boundary, visited, k)
    {
      var next := Add(cur, dirs[k]);
      if 0 <= next.0 < height && 0 <= next.1 < width && next !in visited' {
        // The source skips a boundary cell before testing for the original shape.
        var skip := BoundaryActive(boundary) && grid[next.0, next.1] == boundary.value;
        if !skip && grid[next.0, next.1] == orig {
          assert (next.0 - cur.0, next.1 - cur.1) == dirs[k];
          assert (queue' + [next])[|queue|..] == queue'[|queue|..] + [next];
          queue' := queue' + [next];
          visited' := visited' + {next};
        }
      }
    }
  }

  /** The live grid is the snapshot with the filled cells overwritten by `v`. */
  ghost predicate Painted(grid: array2<Shape>, g0: Grid, filled: set<Cell>, v: Shape)
    reads grid
  {
    |g0| == grid.Length0 && (forall i :: 0 <= i < |g0| ==> |g0[i]| == grid.Length1) &&
    forall i, j :: 0 <= i < grid.Length0 && 0 <= j < grid.Length1 ==>
      grid[i, j] == if (i, j) in filled then v else g0[i][j]
  }

  /**
   * What the neighbour scan of the head of `queue0` guarantees on the live
   * grid: the head is dequeued, the accepted unvisited neighbours are
   * appended once each and visited, and nothing else is.
   */
  ghost predicate LiveScanned(grid: array2<Shape>, orig: Shape, dirs: seq<Offset>, boundary: Option<Shape>,
                              queue0: seq<Cell>, visited0: set<Cell>, queue: seq<Cell>, visited: set<Cell>)
    requires queue0 != []
    reads grid
  {
    |queue0| - 1 <= |queue| && queue[..|queue0| - 1] == queue0[1..] &&
    (forall k :: |queue0| - 1 <= k < |queue| ==>
      queue[k] !in visited0 && Adjacent(dirs, queue0[0], queue[k]) && Accepts(grid, orig, boundary, queue[k])) &&
    (forall a, b :: 0 <= a < b < |queue| ==> queue[a] != queue[b]) &&
    (forall p :: p in visited <==> p in visited0 || p in queue[|queue0| - 1..]) &&
    (forall j :: 0 <= j < |dirs| && Accepts(grid, orig, boundary, Add(queue0[0], dirs[j])) ==> Add(queue0[0], dirs[j]) in visited)
  }

  /** The guarantees of EnqueueNeighbours on the dequeued queue are LiveScanned of the queue before the dequeue. */
  lemma EnqueuedIsLiveScanned(grid: array2<Shape>, orig: Shape, dirs: seq<Offset>, boundary: Option<Shape>,
                              queue0: seq<Cell>, visited0: set<Cell>, queue: seq<Cell>, visited: set<Cell>)
    requires queue0 != []
    requires |queue0| - 1 <= |queue| && queue[..|queue0| - 1] == queue0[1..]
    requires forall k :: |queue0| - 1 <= k < |queue| ==>
      queue[k] !in visited0 && Adjacent(dirs, queue0[0], queue[k]) && Accepts(grid, orig, boundary, queue[k])
    requires forall a, b :: 0 <= a < b < |queue| ==> queue[a] != queue[b]
    requires forall p :: p in visited <==> p in visited0 || p in queue[|queue0| - 1..]
    requires forall j :: 0 <= j < |dirs| && Accepts(grid, orig, boundary, Add(queue0[0], dirs[j])) ==> Add(queue0[0], dirs[j]) in visited
    ensures LiveScanned(grid, orig, dirs, boundary, queue0, visited0, queue, visited)
  {
  }

  /**
   * On cells not yet visited the live grid still holds the snapshot, so the
   * scan's acceptance test on the live grid is openness in the snapshot:
   * the boundary test never rejects an open cell, because after the early
   * exit the original shape is not the boundary shape.
   */
  lemma ScanIsOpenExpansion(grid: array2<Shape>, g0: Grid, dirs: seq<Offset>, seed: Cell, newShape: Shape,
                            boundary: Option<Shape>, filled: set<Cell>,
                            queue0: seq<Cell>, visited0: set<Cell>, queue: seq<Cell>, visited: set<Cell>)
    requires Rectangular(g0) && InBounds(g0, seed) && !NoOp(At(g0, seed), newShape, boundary)
    requires queue0 != [] && filled <= visited0 && queue0[0] in visited0
    requires Painted(grid, g0, filled + {queue0[0]}, newShape)
    requires LiveScanned(grid, At(g0, seed), dirs, boundary, queue0, visited0, queue, visited)
    ensures Scanned(g0, dirs, seed, queue0, visited0, queue, visited)
  {
    var orig := At(g0, seed);
    forall k | |queue0| - 1 <= k < |queue| ensures Open(g0, orig, queue[k]) {
      var q := queue[k];
      assert Accepts(grid, orig, boundary, q);
      assert grid[q.0, q.1] == g0[q.0][q.1];
    }
    forall j | 0 <= j < |dirs| && Open(g0, orig, Add(queue0[0], dirs[j])) ensures Add(queue0[0], dirs[j]) in visited {
      var q := Add(queue0[0], dirs[j]);
      if q !in visited0 {
        assert grid[q.0, q.1] == g0[q.0][q.1];
        assert Accepts(grid, orig, boundary, q);
      }
    }
  }

  /** After filling the head and scanning its neighbours, the breadth-first invariant holds again. */
  lemma ScanKeepsInvariant(grid: array2<Shape>, g0: Grid, dirs: seq<Offset>, seed: Cell, newShape: Shape,
                           boundary: Option<Shape>, filled: set<Cell>,
                           queue0: seq<Cell>, visited0: set<Cell>, queue: seq<Cell>, visited: set<Cell>)
    requires Rectangular(g0) && InBounds(g0, seed) && !NoOp(At(g0, seed), newShape, boundary)
    requires BfsInvariant(g0, dirs, seed, queue0, visited0, filled) && queue0 != []
    requires Painted(grid, g0, filled + {queue0[0]}, newShape)
    requires LiveScanned(grid, At(g0, seed), dirs, boundary, queue0, visited0, queue, visited)
    ensures BfsInvariant(g0, dirs, seed, queue, visited, filled + {queue0[0]})
    ensures Cells(g0) - visited < Cells(g0) - visited0 || (visited == visited0 && |queue| < |queue0|)
  {
    ScanIsOpenExpansion(grid, g0, dirs, seed, newShape, boundary, filled, queue0, visited0, queue, visited);
    BfsStep(g0, dirs, seed, queue0, visited0, filled, queue, visited);
  }

  /** Overwrites one in-bounds cell, which then counts as filled. */
  method Commit(grid: array2<Shape>, p: Cell, v: Shape, ghost g0: Grid, ghost filled: set<Cell>)
    requires 0 <= p.0 < grid.Length0 && 0 <= p.1 < grid.Length1
    requires Painted(grid, g0, filled, v)
    modifies grid
    ensures Painted(grid, g0, filled + {p}, v)
  {
    grid[p.0, p.1] := v;
    forall i, j | 0 <= i < grid.Length0 && 0 <= j < grid.Length1
      ensures grid[i, j] == if (i, j) in filled + {p} then v else g0[i][j]
    {
      if (i, j) != p {
        assert grid[i, j] == old(grid[i, j]);
      }
    }
  }

  /**
   * The shared engine. Validates the seed, captures its shape, returns early
   * when there is nothing to do, and otherwise drains the queue. Returns the
   * number of cells overwritten.
   */
  method Fill(grid: array2<Shape>, row: int, col: int, newShape: Shape, dirs: seq<Offset>, boundary: Option<Shape>)
    returns (r: Result<nat>)
    modifies grid
    ensures Realises(FillSpec(old(Snapshot(grid)), (row, col), newShape, dirs, boundary), old(Snapshot(grid)), Snapshot(grid), r)
  {
    ghost var g0 := Snapshot(grid);
    var height := grid.Length0;
    var width := if height > 0 then grid.Length1 else 0;
    if !(0 <= row < height && 0 <= col < width) {
      return Err(IndexError);
    }
    var orig := grid[row, col];
    assert orig == At(g0, (row, col));
    if NoOp(orig, newShape, boundary) {
      return Ok(0);
    }
    var cellsFilled := Drain(grid, g0, row, col, orig, newShape, dirs, boundary);
    GridExtensional(Snapshot(grid), Paint(g0, Region(g0, dirs, (row, col)), newShape));
    r := Ok(cellsFilled);
  }

  /**
   * The breadth-first loop: a cell enters `visited` when it is enqueued and
   * is overwritten when it is dequeued. Afterwards exactly the seed's region
   * holds the new shape, and the count is the size of the region.
   */
  method Drain(grid: array2<Shape>, ghost g0: Grid, row: int, col: int, orig: Shape, newShape: Shape,
               dirs: seq<Offset>, boundary: Option<Shape>)
    returns (cellsFilled: nat)
    requires Rectangular(g0) && InBounds(g0, (row, col)) && orig == At(g0, (row, col))
    requires !NoOp(orig, newShape, boundary)
    requires Painted(grid, g0, {}, newShape)
    modifies grid
    ensures Painted(grid, g0, Region(g0, dirs, (row, col)), newShape)
    ensures cellsFilled == |Region(g0, dirs, (row, col))|
  {
    ghost var seed := (row, col);
    var queue: seq<Cell> := [(row, col)];
    var visited: set<Cell> := {(row, col)};
    ghost var filled: set<Cell> := {};
    cellsFilled := 0;
    BfsStart(g0, dirs, seed);

    while queue != []
      invariant Painted(grid, g0, filled, newShape)
      invariant BfsInvariant(g0, dirs, seed, queue, visited, filled)
      invariant cellsFilled == |filled|
      decreases Cells(g0) - visited, |queue|
    {
      BfsHead(g0, dirs, seed, queue, visited, filled);
      var cur := queue[0];
      ghost var queue0 := queue;
      queue := queue[1..];
      // The test always passes: a queued cell is not filled yet and held the original shape.
      if grid[cur.0, cur.1] == orig {
        queue, visited := Visit(grid, g0, seed, orig, newShape, dirs, boundary, cur, queue, visited, queue0, filled);
        cellsFilled := cellsFilled + 1;
        assert |filled + {cur}| == |filled| + 1;
        filled := filled + {cur};
      }
    }

    BfsDone(g0, dirs, seed, visited, filled);
  }

  /**
   * The body of the breadth-first loop once the head `cur` is dequeued:
   * overwrite it, then enqueue its accepted neighbours. The invariant holds
   * again with `cur` filled, and the loop's measure decreases.
   */
  method Visit(grid: array2<Shape>, ghost g0: Grid, ghost seed: Cell, orig: Shape, newShape: Shape,
               dirs: seq<Offset>, boundary: Option<Shape>, cur: Cell, queue: seq<Cell>, visited: set<Cell>,
               ghost queue0: seq<Cell>, ghost filled: set<Cell>)
    returns (queue': seq<Cell>, visited': set<Cell>)
    requires Rectangular(g0) && InBounds(g0, seed) && orig == At(g0, seed) && !NoOp(orig, newShape, boundary)
    requires BfsInvariant(g0, dirs, seed, queue0, visited, filled)
    requires queue0 != [] && cur == queue0[0] && queue == queue0[1..]
    requires Painted(grid, g0, filled, newShape)
    modifies grid
    ensures Painted(grid, g0, filled + {cur}, newShape)
    ensures BfsInvariant(g0, dirs, seed, queue', visited', filled + {cur})
    ensures Cells(g0) - visited' < Cells(g0) - visited || (visited' == visited && |queue'| < |queue0|)
  {
    BfsHead(g0, dirs, seed, queue0, visited, filled);
    Commit(grid, cur, newShape, g0, filled);
    queue', visited' := EnqueueNeighbours(grid, cur, orig, dirs, boundary, queue, visited);
    EnqueuedIsLiveScanned(grid, orig, dirs, boundary, queue0, visited, queue', visited');
    ScanKeepsInvariant(grid, g0, dirs, seed, newShape, boundary, filled, queue0, visited, queue', visited');
  }

  /** perform_flood_fill: four-directional fill. */
  method PerformFloodFill(grid: array2<Shape>, startRow: int, startCol: int, newShape: Shape)
    returns (r: Result<nat>)
    modifies grid
    ensures Realises(FillSpec(old(Snapshot(grid)), (startRow, startCol), newShape, Cardinal, None), old(Snapshot(grid)), Snapshot(grid), r)
  {
    r := Fill(grid, startRow, startCol, newShape, Cardinal, None);
  }

  /** flood_fill_diagonal: eight-directional fill. */
  method FloodFillDiagonal(grid: array2<Shape>, startRow: int, startCol: int, newShape: Shape)
    returns (r: Result<nat>)
    modifies grid
    ensures Realises(FillSpec(old(Snapshot(grid)), (startRow, startCol), newShape, Diagonal, None), old(Snapshot(grid)), Snapshot(grid), r)
  {
    r := Fill(grid, startRow, startCol, newShape, Diagonal, None);
  }

  /** flood_fill_with_boundary: four-directional fill that never crosses the boundary shape. */
  method FloodFillWithBoundary(grid: array2<Shape>, startRow: int, startCol: int, newShape: Shape, boundaryShape: Option<Shape>)
    returns (r: Result<nat>)
    modifies grid
    ensures Realises(FillSpec(old(Snapshot(grid)), (startRow, startCol), newShape, Cardinal, boundaryShape), old(Snapshot(grid)), Snapshot(grid), r)
  {
    r := Fill(grid, startRow, startCol, newShape, Cardinal, boundaryShape);
  }
}
