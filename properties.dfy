// FillProperties: what a fill promises, proved about FillSpec, the value-level
// description that FloodFill.Fill is verified against.

module FillProperties {
  import opened Grids
  import opened Regions
  import opened FloodFill

  /** A seed out of bounds is an IndexError; the early exits change nothing and count 0. */
  lemma FillErrorsAndEarlyExits(g: Grid, seed: Cell, newShape: Shape, dirs: seq<Offset>, boundary: Option<Shape>)
    requires Rectangular(g)
    ensures FillSpec(g, seed, newShape, dirs, boundary) == Err(IndexError) <==> !InBounds(g, seed)
    ensures InBounds(g, seed) && At(g, seed) == newShape ==>
      FillSpec(g, seed, newShape, dirs, boundary) == Ok(Outcome(g, 0))
    ensures InBounds(g, seed) && BoundaryActive(boundary) && At(g, seed) == boundary.value ==>
      FillSpec(g, seed, newShape, dirs, boundary) == Ok(Outcome(g, 0))
  {
  }

  lemma PaintShape(g: Grid, r: set<Cell>, v: Shape)
    requires Rectangular(g)
    ensures SameShape(g, Paint(g, r, v)) && Rectangular(Paint(g, r, v))
    ensures Width(Paint(g, r, v)) == Width(g)
  {
  }

  /**
   * A fill keeps the grid's dimensions, changes exactly the seed's region
   * (nothing on an early exit), changes each such cell from the original
   * shape to the new shape, and counts exactly the changed cells.
   */
  lemma FillChangesExactlyRegion(g: Grid, seed: Cell, newShape: Shape, dirs: seq<Offset>, boundary: Option<Shape>)
    requires Rectangular(g) && InBounds(g, seed)
    ensures FillSpec(g, seed, newShape, dirs, boundary).Ok?
    ensures var o := FillSpec(g, seed, newShape, dirs, boundary).value;
      SameShape(g, o.grid) && Rectangular(o.grid) &&
      Changed(g, o.grid) == (if NoOp(At(g, seed), newShape, boundary) then {} else Region(g, dirs, seed)) &&
      o.count == |Changed(g, o.grid)| &&
      forall p :: p in Changed(g, o.grid) ==> InBounds(g, p) && At(g, p) == At(g, seed) && o.grid[p.0][p.1] == newShape
  {
    var o := FillSpec(g, seed, newShape, dirs, boundary).value;
    if !NoOp(At(g, seed), newShape, boundary) {
      var r := Region(g, dirs, seed);
      PaintShape(g, r, newShape);
      forall p | p in r ensures p in Changed(g, o.grid) {
        RegionIsOpen(g, dirs, seed, p);
        CellsAreInBounds(g, p);
      }
      forall p | p in Changed(g, o.grid) ensures p in r {
        CellsAreInBounds(g, p);
      }
      forall p | p in Changed(g, o.grid) ensures InBounds(g, p) && At(g, p) == At(g, seed) && o.grid[p.0][p.1] == newShape {
        CellsAreInBounds(g, p);
        RegionIsOpen(g, dirs, seed, p);
      }
    } else {
      assert Changed(g, o.grid) == {};
    }
  }

  /** Every cell the fill changes is reachable from the seed through cells of the original shape. */
  lemma FillChangesOnlyReachable(g: Grid, seed: Cell, newShape: Shape, dirs: seq<Offset>, boundary: Option<Shape>, p: Cell)
    requires Rectangular(g) && InBounds(g, seed) && InBounds(g, p)
    ensures var g1 := FillSpec(g, seed, newShape, dirs, boundary).value.grid;
      |g1| == |g| && |g1[p.0]| == |g[p.0]| &&
      (g1[p.0][p.1] != At(g, p) <==> !NoOp(At(g, seed), newShape, boundary) && Reachable(g, dirs, seed, p))
  {
    FillChangesExactlyRegion(g, seed, newShape, dirs, boundary);
    CellsAreInBounds(g, p);
    InRegion(g, dirs, seed, p);
  }

  /** The count lies between 1 and height*width when the fill runs, and is 0 on an early exit. */
  lemma FillCountBounds(g: Grid, seed: Cell, newShape: Shape, dirs: seq<Offset>, boundary: Option<Shape>)
    requires Rectangular(g) && InBounds(g, seed)
    ensures var n := FillSpec(g, seed, newShape, dirs, boundary).value.count;
      n <= Height(g) * Width(g) &&
      (n == 0 <==> NoOp(At(g, seed), newShape, boundary))
  {
    RegionBound(g, dirs, seed);
  }

  /** Filling again from the same seed with the same shape does nothing. */
  lemma FillIdempotent(g: Grid, seed: Cell, newShape: Shape, dirs: seq<Offset>, boundary: Option<Shape>)
    requires Rectangular(g) && FillSpec(g, seed, newShape, dirs, boundary).Ok?
    ensures var g1 := FillSpec(g, seed, newShape, dirs, boundary).value.grid;
      Rectangular(g1) && FillSpec(g1, seed, newShape, dirs, boundary) == Ok(Outcome(g1, 0))
  {
    var g1 := FillSpec(g, seed, newShape, dirs, boundary).value.grid;
    if !NoOp(At(g, seed), newShape, boundary) {
      SeedInRegion(g, dirs, seed);
      PaintShape(g, Region(g, dirs, seed), newShape);
      assert At(g1, seed) == newShape;
    }
  }

  /** With a boundary shape set, no cell holding it is changed, and the region never contains one. */
  lemma BoundaryNeverOverwritten(g: Grid, seed: Cell, newShape: Shape, dirs: seq<Offset>, boundary: Option<Shape>)
    requires Rectangular(g) && InBounds(g, seed) && BoundaryActive(boundary)
    ensures !NoOp(At(g, seed), newShape, boundary) ==>
      forall p :: p in Region(g, dirs, seed) ==> InBounds(g, p) && At(g, p) != boundary.value
    ensures var g1 := FillSpec(g, seed, newShape, dirs, boundary).value.grid;
      SameShape(g, g1) &&
      forall p :: InBounds(g, p) && At(g, p) == boundary.value ==> g1[p.0][p.1] == boundary.value
  {
    FillChangesExactlyRegion(g, seed, newShape, dirs, boundary);
    var g1 := FillSpec(g, seed, newShape, dirs, boundary).value.grid;
    forall p | p in Region(g, dirs, seed) ensures InBounds(g, p) && At(g, p) == At(g, seed) {
      RegionIsOpen(g, dirs, seed, p);
    }
    forall p | InBounds(g, p) && At(g, p) == boundary.value ensures g1[p.0][p.1] == boundary.value {
      CellsAreInBounds(g, p);
    }
  }

  /**
   * A set of cells around the seed whose every step outward lands outside the
   * grid or on the boundary shape (an enclosing ring) contains every cell the
   * boundary fill changes.
   */
  lemma BoundaryEncloses(g: Grid, seed: Cell, newShape: Shape, dirs: seq<Offset>, boundary: Option<Shape>, inside: set<Cell>)
    requires Rectangular(g) && InBounds(g, seed) && BoundaryActive(boundary)
    requires seed in inside
    requires forall p, k :: p in inside && 0 <= k < |dirs| ==>
      Add(p, dirs[k]) in inside || !InBounds(g, Add(p, dirs[k])) || At(g, Add(p, dirs[k])) == boundary.value
    ensures var g1 := FillSpec(g, seed, newShape, dirs, boundary).value.grid;
      SameShape(g, g1) && Changed(g, g1) <= inside
  {
    FillChangesExactlyRegion(g, seed, newShape, dirs, boundary);
    if !NoOp(At(g, seed), newShape, boundary) {
      forall q | q in inside ensures Expanded(g, At(g, seed), dirs, inside, q) {
        assert forall k :: 0 <= k < |dirs| ==>
          Add(q, dirs[k]) in inside || !InBounds(g, Add(q, dirs[k])) || At(g, Add(q, dirs[k])) == boundary.value;
      }
      RegionLeast(g, dirs, seed, inside);
    }
  }

  /**
   * The eight-direction fill changes every cell the four-direction fill
   * changes from the same grid and seed, so its count is at least as large.
   */
  lemma DiagonalFillCoversCardinal(g: Grid, seed: Cell, newShape: Shape, boundary: Option<Shape>)
    requires Rectangular(g) && InBounds(g, seed)
    ensures var c := FillSpec(g, seed, newShape, Cardinal, boundary).value;
      var d := FillSpec(g, seed, newShape, Diagonal, boundary).value;
      SameShape(g, c.grid) && SameShape(g, d.grid) &&
      Changed(g, c.grid) <= Changed(g, d.grid) && c.count <= d.count
  {
    FillChangesExactlyRegion(g, seed, newShape, Cardinal, boundary);
    FillChangesExactlyRegion(g, seed, newShape, Diagonal, boundary);
    DiagonalCoversCardinal(g, seed);
  }

  /**
   * Unless the seed itself holds the boundary shape, a boundary fill gives the
   * same grid and count as the plain fill: the boundary test on neighbours
   * never rejects a cell of the original shape.
   */
  lemma BoundaryFillIsPlainFill(g: Grid, seed: Cell, newShape: Shape, dirs: seq<Offset>, boundary: Option<Shape>)
    requires Rectangular(g)
    requires InBounds(g, seed) && BoundaryActive(boundary) ==> At(g, seed) != boundary.value
    ensures FillSpec(g, seed, newShape, dirs, boundary) == FillSpec(g, seed, newShape, dirs, None)
  {
  }

  /** A boundary of None or the empty string is falsy: the fill behaves as if no boundary were given. */
  lemma InactiveBoundaryIgnored(g: Grid, seed: Cell, newShape: Shape, dirs: seq<Offset>, boundary: Option<Shape>)
    requires Rectangular(g) && !BoundaryActive(boundary)
    ensures boundary == None || boundary == Some("")
    ensures FillSpec(g, seed, newShape, dirs, boundary) == FillSpec(g, seed, newShape, dirs, None)
  {
  }
}
