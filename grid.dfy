// Grids: the caller-owned 2-D grid of shapes, its dimensions and its bounds.
// The live grid is an `array2<Shape>`; specifications talk about value
// snapshots of it, rows of shapes (`seq<seq<Shape>>`).

module Grids {

  /** A cell value. The source stores one-character strings. */
  type Shape = string

  /** A (row, column) coordinate, 0-indexed. */
  type Cell = (int, int)

  /** A (row delta, column delta) movement direction. */
  type Offset = (int, int)

  /** A value snapshot of the grid, as a list of rows. */
  type Grid = seq<seq<Shape>>

  datatype Option<T> = None | Some(value: T)

  /** Number of rows: `len(grid)`. */
  function Height(g: Grid): nat { |g| }

  /** Number of columns: `len(grid[0]) if height > 0 else 0`. */
  function Width(g: Grid): nat { if |g| > 0 then |g[0]| else 0 }

  /** Every row is as long as the first one. */
  ghost predicate Rectangular(g: Grid)
  {
    forall i :: 0 <= i < |g| ==> |g[i]| == Width(g)
  }

  /** `0 <= row < height and 0 <= col < width`. */
  predicate InBounds(g: Grid, p: Cell)
  {
    0 <= p.0 < Height(g) && 0 <= p.1 < Width(g)
  }

  /** The shape at an in-bounds cell. */
  function At(g: Grid, p: Cell): Shape
    requires Rectangular(g) && InBounds(g, p)
  {
    g[p.0][p.1]
  }

  /** Moving a cell by an offset. */
  function Add(p: Cell, d: Offset): Cell { (p.0 + d.0, p.1 + d.1) }

  /** The cells of row `i` with column below `w`. */
  ghost function RowCells(i: int, w: nat): set<Cell>
  {
    set j | 0 <= j < w :: (i, j)
  }

  /** All cells of an h-by-w rectangle. */
  ghost function BoxCells(h: nat, w: nat): set<Cell>
  {
    set i, j | 0 <= i < h && 0 <= j < w :: (i, j)
  }

  /** All in-bounds cells of a grid. */
  ghost function Cells(g: Grid): set<Cell>
  {
    BoxCells(Height(g), Width(g))
  }

  lemma {:induction false} RowCellsCard(i: int, w: nat)
    ensures |RowCells(i, w)| == w
  {
    if w > 0 {
      RowCellsCard(i, w - 1);
      assert RowCells(i, w) == RowCells(i, w - 1) + {(i, w - 1)};
      assert (i, w - 1) !in RowCells(i, w - 1);
    } else {
      assert RowCells(i, w) == {};
    }
  }

  /** An h-by-w rectangle is its first h-1 rows plus its last row. */
  lemma BoxCellsSplit(h: nat, w: nat)
    requires h > 0
    ensures BoxCells(h, w) == BoxCells(h - 1, w) + RowCells(h - 1, w)
    ensures BoxCells(h - 1, w) !! RowCells(h - 1, w)
  {
    forall p | p in BoxCells(h, w) ensures p in BoxCells(h - 1, w) + RowCells(h - 1, w) {
      if p.0 < h - 1 { assert p in BoxCells(h - 1, w); } else { assert p in RowCells(h - 1, w); }
    }
  }

  /** An h-by-w rectangle holds exactly h*w cells. */
  lemma {:induction false} BoxCellsCard(h: nat, w: nat)
    ensures |BoxCells(h, w)| == h * w
  {
    if h > 0 {
      BoxCellsCard(h - 1, w);
      RowCellsCard(h - 1, w);
      BoxCellsSplit(h, w);
      var top, last := BoxCells(h - 1, w), RowCells(h - 1, w);
      assert |top + last| == |top| + |last|;
      assert (h - 1) * w + w == h * w;
    } else {
      assert BoxCells(h, w) == {};
    }
  }

  lemma CellsAreInBounds(g: Grid, p: Cell)
    ensures p in Cells(g) <==> InBounds(g, p)
  {
    if InBounds(g, p) {
      assert p == (p.0, p.1);
    }
  }

  /** Any set of in-bounds cells has at most height*width members. */
  lemma InBoundsSetBound(g: Grid, s: set<Cell>)
    requires forall p :: p in s ==> InBounds(g, p)
    ensures |s| <= Height(g) * Width(g)
  {
    forall p | p in s ensures p in Cells(g) {
      CellsAreInBounds(g, p);
    }
    assert s <= Cells(g);
    BoxCellsCard(Height(g), Width(g));
    SubsetCard(s, Cells(g));
  }

  lemma SubsetCard<T>(s: set<T>, t: set<T>)
    requires s <= t
    ensures |s| <= |t|
  {
    assert t == s + (t - s);
  }

  /** The grid with every cell of `r` overwritten by `v`. */
  ghost function Paint(g: Grid, r: set<Cell>, v: Shape): Grid
  {
    seq(|g|, i requires 0 <= i < |g| =>
      seq(|g[i]|, j requires 0 <= j < |g[i]| => if (i, j) in r then v else g[i][j]))
  }

  /** Two grids have the same dimensions row by row. */
  ghost predicate SameShape(g: Grid, h: Grid)
  {
    |g| == |h| && forall i :: 0 <= i < |g| ==> |g[i]| == |h[i]|
  }

  /** The in-bounds cells whose shape differs between two grids of one shape. */
  ghost function Changed(g: Grid, h: Grid): set<Cell>
    requires Rectangular(g) && SameShape(g, h)
  {
    set p | p in Cells(g) && InBounds(g, p) && At(g, p) != h[p.0][p.1]
  }

  /** A value snapshot of an array grid. */
  ghost function Snapshot(a: array2<Shape>): (g: Grid)
    reads a
    ensures |g| == a.Length0 && Rectangular(g)
    ensures Width(g) == if a.Length0 > 0 then a.Length1 else 0
    ensures forall i :: 0 <= i < a.Length0 ==> |g[i]| == a.Length1
    ensures forall i, j :: 0 <= i < a.Length0 && 0 <= j < a.Length1 ==> g[i][j] == a[i, j]
  {
    seq(a.Length0, i requires 0 <= i < a.Length0 reads a =>
      seq(a.Length1, j requires 0 <= j < a.Length1 reads a => a[i, j]))
  }

  /** Two grids of one shape agreeing cell by cell are equal. */
  lemma GridExtensional(g: Grid, h: Grid)
    requires SameShape(g, h)
    requires forall i, j :: 0 <= i < |g| && 0 <= j < |g[i]| ==> g[i][j] == h[i][j]
    ensures g == h
  {
    forall i | 0 <= i < |g| ensures g[i] == h[i] {
      assert |g[i]| == |h[i]|;
    }
  }
}
