// Regions: adjacency under a direction list and the connected region of a
// seed — the cells reachable from the seed by steps of the direction list
// through in-bounds cells holding the seed's original shape.

module Regions {
  import opened Grids

  /** The four cardinal directions: up, down, right, left. */
  const Cardinal: seq<Offset> := [(-1, 0), (1, 0), (0, 1), (0, -1)]

  /** The cardinal directions followed by the four diagonals. */
  const Diagonal: seq<Offset> := [
    (-1, 0), (1, 0), (0, 1), (0, -1),
    (-1, -1), (-1, 1), (1, -1), (1, 1)
  ]

  /** `q` is one step of `dirs` away from `p`. */
  predicate Adjacent(dirs: seq<Offset>, p: Cell, q: Cell)
  {
    (q.0 - p.0, q.1 - p.1) in dirs
  }

  /** An in-bounds cell holding the original shape. */
  ghost predicate Open(g: Grid, orig: Shape, p: Cell)
    requires Rectangular(g)
  {
    InBounds(g, p) && At(g, p) == orig
  }

  /** A non-empty walk of `dirs` steps through open cells. */
  ghost predicate IsPath(g: Grid, orig: Shape, dirs: seq<Offset>, path: seq<Cell>)
    requires Rectangular(g)
  {
    |path| > 0 &&
    (forall k :: 0 <= k < |path| ==> Open(g, orig, path[k])) &&
    (forall k :: 0 <= k < |path| - 1 ==> Adjacent(dirs, path[k], path[k + 1]))
  }

  /** Some walk through open cells leads from `seed` to `p`. */
  ghost predicate Reachable(g: Grid, dirs: seq<Offset>, seed: Cell, p: Cell)
    requires Rectangular(g) && InBounds(g, seed)
  {
    exists path :: IsPath(g, At(g, seed), dirs, path) && path[0] == seed && path[|path| - 1] == p
  }

  /** The connected region of `seed`. */
  ghost function Region(g: Grid, dirs: seq<Offset>, seed: Cell): set<Cell>
    requires Rectangular(g) && InBounds(g, seed)
  {
    set p | p in Cells(g) && Reachable(g, dirs, seed, p)
  }

  /** Membership in the region is exactly reachability. */
  lemma InRegion(g: Grid, dirs: seq<Offset>, seed: Cell, p: Cell)
    requires Rectangular(g) && InBounds(g, seed)
    ensures p in Region(g, dirs, seed) <==> Reachable(g, dirs, seed, p)
  {
    if Reachable(g, dirs, seed, p) {
      var path :| IsPath(g, At(g, seed), dirs, path) && path[0] == seed && path[|path| - 1] == p;
      assert Open(g, At(g, seed), path[|path| - 1]);
      CellsAreInBounds(g, p);
    }
  }

  /** The seed belongs to its own region. */
  lemma SeedInRegion(g: Grid, dirs: seq<Offset>, seed: Cell)
    requires Rectangular(g) && InBounds(g, seed)
    ensures seed in Region(g, dirs, seed)
  {
    assert IsPath(g, At(g, seed), dirs, [seed]);
    InRegion(g, dirs, seed, seed);
  }

  /** Every cell of the region is open: in bounds and holding the seed's shape. */
  lemma RegionIsOpen(g: Grid, dirs: seq<Offset>, seed: Cell, p: Cell)
    requires Rectangular(g) && InBounds(g, seed)
    requires p in Region(g, dirs, seed)
    ensures Open(g, At(g, seed), p)
  {
    var path :| IsPath(g, At(g, seed), dirs, path) && path[0] == seed && path[|path| - 1] == p;
    assert Open(g, At(g, seed), path[|path| - 1]);
  }

  /** One more step from a reachable cell into an open cell stays reachable. */
  lemma ReachableStep(g: Grid, dirs: seq<Offset>, seed: Cell, p: Cell, d: Offset)
    requires Rectangular(g) && InBounds(g, seed)
    requires Reachable(g, dirs, seed, p)
    requires d in dirs && Open(g, At(g, seed), Add(p, d))
    ensures Reachable(g, dirs, seed, Add(p, d))
  {
    var path :| IsPath(g, At(g, seed), dirs, path) && path[0] == seed && path[|path| - 1] == p;
    var q := Add(p, d);
    var path' := path + [q];
    assert (q.0 - p.0, q.1 - p.1) == d;
    assert forall k :: 0 <= k < |path| ==> path'[k] == path[k];
    assert IsPath(g, At(g, seed), dirs, path');
  }

  /** The region is closed under open steps. */
  lemma RegionClosed(g: Grid, dirs: seq<Offset>, seed: Cell, p: Cell, d: Offset)
    requires Rectangular(g) && InBounds(g, seed)
    requires p in Region(g, dirs, seed)
    requires d in dirs && Open(g, At(g, seed), Add(p, d))
    ensures Add(p, d) in Region(g, dirs, seed)
  {
    InRegion(g, dirs, seed, p);
    ReachableStep(g, dirs, seed, p, d);
    InRegion(g, dirs, seed, Add(p, d));
  }

  /** The region is closed under adjacency into open cells. */
  lemma RegionStep(g: Grid, dirs: seq<Offset>, seed: Cell, p: Cell, q: Cell)
    requires Rectangular(g) && InBounds(g, seed)
    requires p in Region(g, dirs, seed)
    requires Adjacent(dirs, p, q) && Open(g, At(g, seed), q)
    ensures q in Region(g, dirs, seed)
  {
    var d := (q.0 - p.0, q.1 - p.1);
    assert Add(p, d) == q;
    RegionClosed(g, dirs, seed, p, d);
  }

  /** Every step of `dirs` from `p` that lands on an open cell lands in `s`. */
  ghost predicate Expanded(g: Grid, orig: Shape, dirs: seq<Offset>, s: set<Cell>, p: Cell)
    requires Rectangular(g)
  {
    forall k :: 0 <= k < |dirs| && Open(g, orig, Add(p, dirs[k])) ==> Add(p, dirs[k]) in s
  }

  /** An adjacent open cell of an expanded cell lies in the set. */
  lemma ExpandedStep(g: Grid, orig: Shape, dirs: seq<Offset>, s: set<Cell>, p: Cell, q: Cell)
    requires Rectangular(g)
    requires Expanded(g, orig, dirs, s, p) && Adjacent(dirs, p, q) && Open(g, orig, q)
    ensures q in s
  {
    var k :| 0 <= k < |dirs| && dirs[k] == (q.0 - p.0, q.1 - p.1);
    assert Add(p, dirs[k]) == q;
  }

  /** Each walk from the seed stays inside any set that holds the seed and is closed under open steps. */
  lemma {:induction false} PathInside(g: Grid, dirs: seq<Offset>, orig: Shape, s: set<Cell>, path: seq<Cell>, n: nat)
    requires Rectangular(g)
    requires IsPath(g, orig, dirs, path) && path[0] in s
    requires forall q :: q in s ==> Expanded(g, orig, dirs, s, q)
    requires n < |path|
    ensures path[n] in s
  {
    if n > 0 {
      PathInside(g, dirs, orig, s, path, n - 1);
      assert Adjacent(dirs, path[n - 1], path[n]) && Open(g, orig, path[n]);
      ExpandedStep(g, orig, dirs, s, path[n - 1], path[n]);
    }
  }

  /** The region is the least set that holds the seed and is closed under open steps. */
  lemma RegionLeast(g: Grid, dirs: seq<Offset>, seed: Cell, s: set<Cell>)
    requires Rectangular(g) && InBounds(g, seed)
    requires seed in s
    requires forall q :: q in s ==> Expanded(g, At(g, seed), dirs, s, q)
    ensures Region(g, dirs, seed) <= s
  {
    forall p | p in Region(g, dirs, seed) ensures p in s {
      var path :| IsPath(g, At(g, seed), dirs, path) && path[0] == seed && path[|path| - 1] == p;
      PathInside(g, dirs, At(g, seed), s, path, |path| - 1);
    }
  }

  /** A set holding the seed, closed under open steps, all of whose cells are reachable, is the region. */
  lemma RegionExactly(g: Grid, dirs: seq<Offset>, seed: Cell, s: set<Cell>)
    requires Rectangular(g) && InBounds(g, seed)
    requires seed in s
    requires forall q :: q in s ==> Expanded(g, At(g, seed), dirs, s, q)
    requires forall q :: q in s ==> Reachable(g, dirs, seed, q)
    ensures Region(g, dirs, seed) == s
  {
    RegionLeast(g, dirs, seed, s);
    forall q | q in s ensures q in Region(g, dirs, seed) {
      InRegion(g, dirs, seed, q);
    }
  }

  /** The region never holds more than height*width cells. */
  lemma RegionBound(g: Grid, dirs: seq<Offset>, seed: Cell)
    requires Rectangular(g) && InBounds(g, seed)
    ensures 1 <= |Region(g, dirs, seed)| <= Height(g) * Width(g)
  {
    var r := Region(g, dirs, seed);
    forall p | p in r ensures InBounds(g, p) {
      RegionIsOpen(g, dirs, seed, p);
    }
    InBoundsSetBound(g, r);
    SeedInRegion(g, dirs, seed);
  }

  /** Adding directions can only enlarge the region. */
  lemma RegionMonotone(g: Grid, dirs: seq<Offset>, more: seq<Offset>, seed: Cell)
    requires Rectangular(g) && InBounds(g, seed)
    requires forall d :: d in dirs ==> d in more
    ensures Region(g, dirs, seed) <= Region(g, more, seed)
  {
    forall p | p in Region(g, dirs, seed) ensures p in Region(g, more, seed) {
      var path :| IsPath(g, At(g, seed), dirs, path) && path[0] == seed && path[|path| - 1] == p;
      assert forall k :: 0 <= k < |path| - 1 ==> Adjacent(more, path[k], path[k + 1]) by {
        forall k | 0 <= k < |path| - 1 ensures Adjacent(more, path[k], path[k + 1]) {
          assert Adjacent(dirs, path[k], path[k + 1]);
        }
      }
      assert IsPath(g, At(g, seed), more, path);
      InRegion(g, more, seed, p);
    }
  }

  /** The eight-direction region contains the four-direction region. */
  lemma DiagonalCoversCardinal(g: Grid, seed: Cell)
    requires Rectangular(g) && InBounds(g, seed)
    ensures Region(g, Cardinal, seed) <= Region(g, Diagonal, seed)
    ensures |Region(g, Cardinal, seed)| <= |Region(g, Diagonal, seed)|
  {
    RegionMonotone(g, Cardinal, Diagonal, seed);
    SubsetCard(Region(g, Cardinal, seed), Region(g, Diagonal, seed));
  }
}
