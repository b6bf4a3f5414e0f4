// FillScenarios: worked examples of fills on small grids, stated on FillSpec.

module FillScenarios {
  import opened Grids
  import opened Regions
  import opened FloodFill

  /** A 2-by-2 checkerboard of "-" and "X". */
  const Checkerboard: Grid := [["-", "X"], ["X", "-"]]

  /** A single "-" enclosed by a ring of "#". */
  const Ring: Grid := [["#", "#", "#"], ["#", "-", "#"], ["#", "#", "#"]]

  /** The checkerboard corner is cut off in four directions. */
  lemma CheckerboardCardinalRegion()
    ensures Rectangular(Checkerboard)
    ensures Region(Checkerboard, Cardinal, (0, 0)) == {(0, 0)}
  {
    var g, s := Checkerboard, {(0, 0)};
    assert At(g, (0, 0)) == "-" && At(g, (1, 0)) == "X" && At(g, (0, 1)) == "X";
    assert Expanded(g, "-", Cardinal, s, (0, 0));
    assert IsPath(g, "-", Cardinal, [(0, 0)]);
    RegionExactly(g, Cardinal, (0, 0), s);
  }

  /** In eight directions the checkerboard corner reaches the opposite corner. */
  lemma CheckerboardDiagonalRegion()
    ensures Rectangular(Checkerboard)
    ensures Region(Checkerboard, Diagonal, (0, 0)) == {(0, 0), (1, 1)}
  {
    var g, s := Checkerboard, {(0, 0), (1, 1)};
    CheckerboardDiagonalClosed();
    CheckerboardDiagonalReach();
    RegionExactly(g, Diagonal, (0, 0), s);
  }

  lemma CheckerboardDiagonalClosed()
    ensures Rectangular(Checkerboard)
    ensures forall q :: q in {(0, 0), (1, 1)} ==> Expanded(Checkerboard, "-", Diagonal, {(0, 0), (1, 1)}, q)
  {
    var g, s := Checkerboard, {(0, 0), (1, 1)};
    assert At(g, (0, 0)) == "-" && At(g, (1, 0)) == "X" && At(g, (0, 1)) == "X" && At(g, (1, 1)) == "-";
    assert Expanded(g, "-", Diagonal, s, (0, 0));
    assert Expanded(g, "-", Diagonal, s, (1, 1));
  }

  lemma CheckerboardDiagonalReach()
    ensures Rectangular(Checkerboard) && InBounds(Checkerboard, (0, 0))
    ensures forall q :: q in {(0, 0), (1, 1)} ==> Reachable(Checkerboard, Diagonal, (0, 0), q)
  {
    var g := Checkerboard;
    assert At(g, (0, 0)) == "-" && At(g, (1, 1)) == "-";
    assert IsPath(g, "-", Diagonal, [(0, 0)]);
    assert Adjacent(Diagonal, (0, 0), (1, 1));
    assert IsPath(g, "-", Diagonal, [(0, 0), (1, 1)]);
  }

  /** The ring's middle cell is its own region. */
  lemma RingRegion()
    ensures Rectangular(Ring)
    ensures Region(Ring, Cardinal, (1, 1)) == {(1, 1)}
  {
    var g, s := Ring, {(1, 1)};
    assert At(g, (1, 1)) == "-" && At(g, (0, 1)) == "#" && At(g, (2, 1)) == "#" && At(g, (1, 0)) == "#" && At(g, (1, 2)) == "#";
    assert Expanded(g, "-", Cardinal, s, (1, 1));
    assert IsPath(g, "-", Cardinal, [(1, 1)]);
    RegionExactly(g, Cardinal, (1, 1), s);
  }

  /** When the fill runs, its outcome is the painted region and the region's size. */
  lemma FillRuns(g: Grid, seed: Cell, newShape: Shape, dirs: seq<Offset>, boundary: Option<Shape>, s: set<Cell>, painted: Grid)
    requires Rectangular(g) && InBounds(g, seed) && !NoOp(At(g, seed), newShape, boundary)
    requires Region(g, dirs, seed) == s && Paint(g, s, newShape) == painted
    ensures FillSpec(g, seed, newShape, dirs, boundary) == Ok(Outcome(painted, |s|))
  {
  }

  /** From a corner of the checkerboard the four-direction fill reaches only the corner. */
  lemma CheckerboardCardinal()
    ensures Rectangular(Checkerboard)
    ensures FillSpec(Checkerboard, (0, 0), "O", Cardinal, None) == Ok(Outcome([["O", "X"], ["X", "-"]], 1))
  {
    CheckerboardCardinalRegion();
    CheckerboardCornerPainted();
    FillRuns(Checkerboard, (0, 0), "O", Cardinal, None, {(0, 0)}, [["O", "X"], ["X", "-"]]);
  }

  lemma CheckerboardCornerPainted()
    ensures Paint(Checkerboard, {(0, 0)}, "O") == [["O", "X"], ["X", "-"]]
  {
    var p := Paint(Checkerboard, {(0, 0)}, "O");
    assert p[0] == ["O", "X"] && p[1] == ["X", "-"];
  }

  /** The eight-direction fill also crosses to the opposite corner. */
  lemma CheckerboardDiagonal()
    ensures Rectangular(Checkerboard)
    ensures FillSpec(Checkerboard, (0, 0), "O", Diagonal, None) == Ok(Outcome([["O", "X"], ["X", "O"]], 2))
  {
    CheckerboardDiagonalRegion();
    CheckerboardDiagonalPainted();
    var s := {(0, 0), (1, 1)};
    assert |s| == 2;
    FillRuns(Checkerboard, (0, 0), "O", Diagonal, None, s, [["O", "X"], ["X", "O"]]);
  }

  lemma CheckerboardDiagonalPainted()
    ensures Paint(Checkerboard, {(0, 0), (1, 1)}, "O") == [["O", "X"], ["X", "O"]]
  {
    var p := Paint(Checkerboard, {(0, 0), (1, 1)}, "O");
    assert p[0] == ["O", "X"] && p[1] == ["X", "O"];
  }

  /** Filling the enclosed cell with "#" as the boundary changes that cell only. */
  lemma RingWithBoundary()
    ensures Rectangular(Ring)
    ensures FillSpec(Ring, (1, 1), "O", Cardinal, Some("#")) ==
      Ok(Outcome([["#", "#", "#"], ["#", "O", "#"], ["#", "#", "#"]], 1))
  {
    RingRegion();
    RingPainted();
    assert !NoOp("-", "O", Some("#"));
    FillRuns(Ring, (1, 1), "O", Cardinal, Some("#"), {(1, 1)}, [["#", "#", "#"], ["#", "O", "#"], ["#", "#", "#"]]);
  }

  lemma RingPainted()
    ensures Paint(Ring, {(1, 1)}, "O") == [["#", "#", "#"], ["#", "O", "#"], ["#", "#", "#"]]
  {
    var p := Paint(Ring, {(1, 1)}, "O");
    assert p[0] == ["#", "#", "#"] && p[1] == ["#", "O", "#"] && p[2] == ["#", "#", "#"];
  }

  /** A seed outside a 3-by-3 grid is an IndexError. */
  lemma SeedOutside()
    ensures Rectangular(Ring)
    ensures FillSpec(Ring, (5, 5), "O", Cardinal, None) == Err(IndexError)
  {
  }

  /** Filling a cell with the shape it already holds does nothing. */
  lemma AlreadyTarget()
    ensures FillSpec([["X"]], (0, 0), "X", Cardinal, None) == Ok(Outcome([["X"]], 0))
  {
  }

  /** Seeding on the boundary shape itself does nothing. */
  lemma SeedOnBoundary()
    ensures FillSpec(Ring, (0, 0), "O", Cardinal, Some("#")) == Ok(Outcome(Ring, 0))
  {
  }
}
