// Traversal: the breadth-first bookkeeping of a fill, over values. The queue
// holds cells that are visited but not yet filled, each once; every visited
// cell lies in the seed's region; every filled cell has had all its open
// neighbours visited. When the queue runs dry the filled cells are exactly
// the region.

module Traversal {
  import opened Grids
  import opened Regions

  /** The state the breadth-first loop keeps between two dequeues. */
  ghost predicate BfsInvariant(g: Grid, dirs: seq<Offset>, seed: Cell,
                               queue: seq<Cell>, visited: set<Cell>, filled: set<Cell>)
    requires Rectangular(g) && InBounds(g, seed)
  {
    seed in visited && filled <= visited && visited <= Region(g, dirs, seed) &&
    (forall k :: 0 <= k < |queue| ==> queue[k] in visited && queue[k] !in filled) &&
    (forall a, b :: 0 <= a < b < |queue| ==> queue[a] != queue[b]) &&
    (forall p :: p in visited ==> p in filled || p in queue) &&
    (forall p :: p in filled ==> Expanded(g, At(g, seed), dirs, visited, p))
  }

  /** The state right after the seed is enqueued. */
  lemma BfsStart(g: Grid, dirs: seq<Offset>, seed: Cell)
    requires Rectangular(g) && InBounds(g, seed)
    ensures BfsInvariant(g, dirs, seed, [seed], {seed}, {})
  {
    SeedInRegion(g, dirs, seed);
  }

  /** The head of the queue is an open cell that is not filled yet. */
  lemma BfsHead(g: Grid, dirs: seq<Offset>, seed: Cell,
                queue: seq<Cell>, visited: set<Cell>, filled: set<Cell>)
    requires Rectangular(g) && InBounds(g, seed)
    requires BfsInvariant(g, dirs, seed, queue, visited, filled) && queue != []
    ensures queue[0] !in filled && queue[0] in Region(g, dirs, seed)
    ensures Open(g, At(g, seed), queue[0])
  {
    RegionIsOpen(g, dirs, seed, queue[0]);
  }

  /** The hypotheses on the queue and visited set after the neighbour scan of the head. */
  ghost predicate Scanned(g: Grid, dirs: seq<Offset>, seed: Cell,
                          queue: seq<Cell>, visited: set<Cell>, queue': seq<Cell>, visited': set<Cell>)
    requires Rectangular(g) && InBounds(g, seed)
    requires queue != []
  {
    |queue| - 1 <= |queue'| && queue'[..|queue| - 1] == queue[1..] &&
    (forall k :: |queue| - 1 <= k < |queue'| ==>
      queue'[k] !in visited && Adjacent(dirs, queue[0], queue'[k]) && Open(g, At(g, seed), queue'[k])) &&
    (forall a, b :: 0 <= a < b < |queue'| ==> queue'[a] != queue'[b]) &&
    (forall p :: p in visited' <==> p in visited || p in queue'[|queue| - 1..]) &&
    (forall j :: 0 <= j < |dirs| && Open(g, At(g, seed), Add(queue[0], dirs[j])) ==> Add(queue[0], dirs[j]) in visited')
  }

  lemma StepRegion(g: Grid, dirs: seq<Offset>, seed: Cell,
                   queue: seq<Cell>, visited: set<Cell>, queue': seq<Cell>, visited': set<Cell>)
    requires Rectangular(g) && InBounds(g, seed) && queue != []
    requires visited <= Region(g, dirs, seed) && queue[0] in Region(g, dirs, seed)
    requires Scanned(g, dirs, seed, queue, visited, queue', visited')
    ensures visited' <= Region(g, dirs, seed) && visited' <= Cells(g)
  {
    var n := |queue| - 1;
    forall q | q in visited' ensures q in Region(g, dirs, seed) && q in Cells(g) {
      if q !in visited {
        assert q in queue'[n..];
        var k :| n <= k < |queue'| && queue'[k] == q;
        RegionStep(g, dirs, seed, queue[0], q);
      }
    }
  }

  lemma StepQueue(g: Grid, dirs: seq<Offset>, seed: Cell,
                  queue: seq<Cell>, visited: set<Cell>, filled: set<Cell>, queue': seq<Cell>, visited': set<Cell>)
    requires Rectangular(g) && InBounds(g, seed) && queue != []
    requires filled <= visited
    requires forall k :: 0 <= k < |queue| ==> queue[k] in visited && queue[k] !in filled
    requires forall a, b :: 0 <= a < b < |queue| ==> queue[a] != queue[b]
    requires Scanned(g, dirs, seed, queue, visited, queue', visited')
    ensures forall k :: 0 <= k < |queue'| ==> queue'[k] in visited' && queue'[k] !in filled + {queue[0]}
  {
    var n := |queue| - 1;
    forall k | 0 <= k < |queue'| ensures queue'[k] in visited' && queue'[k] !in filled + {queue[0]} {
      if k < n {
        assert queue'[k] == queue[1..][k] == queue[k + 1];
        assert queue[k + 1] != queue[0];
      } else {
        assert queue'[k] in queue'[n..];
        assert queue'[k] !in visited;
        assert queue[0] in visited;
      }
    }
  }

  lemma StepCover(g: Grid, dirs: seq<Offset>, seed: Cell,
                  queue: seq<Cell>, visited: set<Cell>, filled: set<Cell>, queue': seq<Cell>, visited': set<Cell>)
    requires Rectangular(g) && InBounds(g, seed) && queue != []
    requires forall p :: p in visited ==> p in filled || p in queue
    requires Scanned(g, dirs, seed, queue, visited, queue', visited')
    ensures forall p :: p in visited' ==> p in filled + {queue[0]} || p in queue'
  {
    var n := |queue| - 1;
    forall p | p in visited' ensures p in filled + {queue[0]} || p in queue' {
      if p !in visited {
        assert p in queue'[n..];
      } else if p !in filled && p != queue[0] {
        var k :| 0 <= k < |queue| && queue[k] == p;
        assert queue'[k - 1] == queue[1..][k - 1];
      }
    }
  }

  lemma StepExpanded(g: Grid, dirs: seq<Offset>, seed: Cell,
                     queue: seq<Cell>, visited: set<Cell>, filled: set<Cell>, queue': seq<Cell>, visited': set<Cell>)
    requires Rectangular(g) && InBounds(g, seed) && queue != []
    requires forall p :: p in filled ==> Expanded(g, At(g, seed), dirs, visited, p)
    requires Scanned(g, dirs, seed, queue, visited, queue', visited')
    ensures forall p :: p in filled + {queue[0]} ==> Expanded(g, At(g, seed), dirs, visited', p)
  {
    assert visited <= visited';
    forall p | p in filled + {queue[0]} ensures Expanded(g, At(g, seed), dirs, visited', p) {
      if p != queue[0] {
        assert Expanded(g, At(g, seed), dirs, visited, p);
      }
    }
  }

  /**
   * Filling the head of the queue and enqueueing, each once, its open
   * neighbours that were not visited keeps the invariant, and either visits
   * a new cell or shortens the queue.
   */
  lemma BfsStep(g: Grid, dirs: seq<Offset>, seed: Cell,
                queue: seq<Cell>, visited: set<Cell>, filled: set<Cell>,
                queue': seq<Cell>, visited': set<Cell>)
    requires Rectangular(g) && InBounds(g, seed)
    requires BfsInvariant(g, dirs, seed, queue, visited, filled) && queue != []
    requires Scanned(g, dirs, seed, queue, visited, queue', visited')
    ensures BfsInvariant(g, dirs, seed, queue', visited', filled + {queue[0]})
    ensures Cells(g) - visited' < Cells(g) - visited || (visited' == visited && |queue'| < |queue|)
  {
    BfsHead(g, dirs, seed, queue, visited, filled);
    StepRegion(g, dirs, seed, queue, visited, queue', visited');
    StepQueue(g, dirs, seed, queue, visited, filled, queue', visited');
    StepCover(g, dirs, seed, queue, visited, filled, queue', visited');
    StepExpanded(g, dirs, seed, queue, visited, filled, queue', visited');
    var n := |queue| - 1;
    assert n < |queue'| ==> queue'[n] in queue'[n..] && queue'[n] in visited' - visited;
    if visited' != visited {
      assert visited <= visited' <= Cells(g);
      FewerLeft(Cells(g), visited, visited');
    }
  }

  lemma FewerLeft<T>(all: set<T>, s: set<T>, t: set<T>)
    requires s <= t <= all && s != t
    ensures all - t < all - s
  {
    assert t == s + (t - s);
    var q :| q in t - s;
    assert q in (all - s) - (all - t);
  }

  /** With the queue empty, the filled cells are exactly the region. */
  lemma BfsDone(g: Grid, dirs: seq<Offset>, seed: Cell, visited: set<Cell>, filled: set<Cell>)
    requires Rectangular(g) && InBounds(g, seed)
    requires BfsInvariant(g, dirs, seed, [], visited, filled)
    ensures filled == visited == Region(g, dirs, seed)
  {
    assert visited == filled;
    RegionLeast(g, dirs, seed, filled);
  }
}
