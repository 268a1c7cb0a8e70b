/**
 * The breadth-first search of GetCapitalAnchorTile: the tiles a capital's
 * anchor is drawn from.
 */
module Anchors {
  import opened World

  /** How many hops from the capital the search expands. */
  const SearchDepth: nat := 4

  /** The tiles reachable from `c` in at most `k` neighbour hops. */
  function Ball(g: Graph, c: int, k: nat): set<int>
    decreases k
  {
    if k == 0 then {c}
    else
      var inner := Ball(g, c, k - 1);
      inner + (set t, n | t in inner && n in g.neighbours(t) :: n)
  }

  lemma {:induction false} BallGrows(g: Graph, c: int, d: nat, k: nat)
    requires d <= k
    ensures Ball(g, c, d) <= Ball(g, c, k)
    decreases k - d
  {
    if d < k {
      BallGrows(g, c, d, k - 1);
    }
  }

  /** One more hop from a tile within `d` hops lands within `d + 1` hops. */
  lemma BallStep(g: Graph, c: int, d: nat, t: int, n: int)
    requires t in Ball(g, c, d) && n in g.neighbours(t)
    ensures n in Ball(g, c, d + 1)
  {
    var inner := Ball(g, c, d);
    assert n in (set t', n' | t' in inner && n' in g.neighbours(t') :: n');
  }

  lemma DifferenceShrinks(b: set<int>, v0: set<int>, v1: set<int>, x: int)
    requires v0 <= v1 <= b && x in v1 && x !in v0
    ensures |b - v1| < |b - v0|
  {
    assert b * v1 == v1 && b * v0 == v0 && v1 * v0 == v0;
    assert x in v1 - v0;
    assert |v1 - v0| >= 1;
  }

  /** The balls of radius 0 to SearchDepth around `c`. */
  ghost function Balls(g: Graph, c: int): (b: seq<set<int>>)
    ensures |b| == SearchDepth + 1
    ensures forall d :: 0 <= d <= SearchDepth ==> b[d] == Ball(g, c, d)
  {
    seq(SearchDepth + 1, d requires 0 <= d => Ball(g, c, d))
  }

  /**
   * What the search needs to know about the balls: the capital is in the
   * innermost, they all lie inside the outermost, and a neighbour of a
   * tile in one ball lies in the next.
   */
  ghost predicate Layered(g: Graph, c: int, balls: seq<set<int>>)
  {
    && |balls| == SearchDepth + 1
    && c in balls[0]
    && (forall d :: 0 <= d <= SearchDepth ==> balls[d] <= balls[SearchDepth])
    && (forall d, t, n :: 0 <= d < SearchDepth && t in balls[d] && n in g.neighbours(t) ==> n in balls[d + 1])
  }

  lemma BallsAreLayered(g: Graph, c: int)
    ensures Layered(g, c, Balls(g, c))
  {
    var balls := Balls(g, c);
    forall d | 0 <= d <= SearchDepth
      ensures balls[d] <= balls[SearchDepth]
    {
      BallGrows(g, c, d, SearchDepth);
    }
    forall d, t, n | 0 <= d < SearchDepth && t in balls[d] && n in g.neighbours(t)
      ensures n in balls[d + 1]
    {
      BallStep(g, c, d, t, n);
    }
  }

  /**
   * What the search keeps true: the candidate list is the neighbour list
   * followed by the newly visited tiles (`found`, no repeats, never the
   * capital), the visited set is the capital plus `found`, and every
   * queued tile lies in the ball of its recorded depth.
   */
  ghost predicate SearchState(balls: seq<set<int>>, c: int, ring: seq<int>, visited: set<int>,
                              queue: seq<(int, int)>, candidates: seq<int>, found: seq<int>)
    requires |balls| == SearchDepth + 1
  {
    && candidates == ring + found
    && c in visited
    && (forall k :: 0 <= k < |found| ==> found[k] in visited && found[k] != c)
    && (forall x :: x in visited ==> x == c || x in found)
    && (forall k, m :: 0 <= k < m < |found| ==> found[k] != found[m])
    && visited <= balls[SearchDepth]
    && (forall q :: q in queue ==> 0 <= q.1 <= SearchDepth && q.0 in balls[q.1])
  }

  /** Tile `y` is waiting in the queue. */
  ghost predicate Queued(queue: seq<(int, int)>, y: int) {
    exists k :: 0 <= k < |queue| && queue[k].0 == y
  }

  /**
   * Every expanded tile (`done`) short of SearchDepth has all its
   * neighbours visited, each at most one level deeper.
   */
  ghost predicate Closed(g: Graph, depthOf: map<int, nat>, done: set<int>) {
    && done <= depthOf.Keys
    && forall y, n :: y in done && depthOf[y] < SearchDepth && n in g.neighbours(y) ==>
         n in depthOf && depthOf[n] <= depthOf[y] + 1
  }

  /**
   * The breadth-first order of the search at the head of its loop:
   * `depthOf` records the level at which each visited tile was reached;
   * the queue holds tiles at their recorded level, in non-decreasing
   * levels spanning at most two; no visited tile is more than one level
   * past the head; and a visited tile is expanded or still queued.
   */
  ghost predicate InOrder(g: Graph, queue: seq<(int, int)>, depthOf: map<int, nat>, done: set<int>) {
    && (forall k :: 0 <= k < |queue| ==> queue[k].0 in depthOf && queue[k].1 == depthOf[queue[k].0])
    && (forall a, b :: 0 <= a < b < |queue| ==> queue[a].1 <= queue[b].1 <= queue[a].1 + 1)
    && (|queue| > 0 ==> forall y :: y in depthOf ==> depthOf[y] <= queue[0].1 + 1)
    && (forall y :: y in depthOf ==> y in done || Queued(queue, y))
    && Closed(g, depthOf, done)
  }

  /**
   * The same order while tile `x`, taken from the queue at level `d`, is
   * being expanded: the queue's levels lie in [d, d + 1] and no visited
   * tile is deeper than d + 1.
   */
  ghost predicate Expanding(g: Graph, queue: seq<(int, int)>, depthOf: map<int, nat>, done: set<int>, x: int, d: nat) {
    && x in depthOf && depthOf[x] == d
    && (forall k :: 0 <= k < |queue| ==>
          queue[k].0 in depthOf && queue[k].1 == depthOf[queue[k].0] && d <= queue[k].1 <= d + 1)
    && (forall a, b :: 0 <= a < b < |queue| ==> queue[a].1 <= queue[b].1)
    && (forall y :: y in depthOf ==> depthOf[y] <= d + 1)
    && (forall y :: y in depthOf ==> y == x || y in done || Queued(queue, y))
    && Closed(g, depthOf, done)
  }

  lemma OrderStart(g: Graph, c: int)
    ensures InOrder(g, [(c, 0)], map[c := 0], {})
  {
    assert Queued([(c, 0)], c) by { assert [(c, 0)][0].0 == c; }
  }

  /** Taking the head of the queue starts its expansion. */
  lemma OrderPop(g: Graph, queue: seq<(int, int)>, depthOf: map<int, nat>, done: set<int>)
    requires InOrder(g, queue, depthOf, done) && |queue| > 0
    ensures queue[0].1 >= 0
    ensures Expanding(g, queue[1..], depthOf, done, queue[0].0, queue[0].1)
  {
    var rest := queue[1..];
    forall y | y in depthOf
      ensures y == queue[0].0 || y in done || Queued(rest, y)
    {
      if y !in done && y != queue[0].0 {
        var k :| 0 <= k < |queue| && queue[k].0 == y;
        assert rest[k - 1].0 == y;
      }
    }
    forall a, b | 0 <= a < b < |rest|
      ensures rest[a].1 <= rest[b].1
    {
      assert rest[a] == queue[a + 1] && rest[b] == queue[b + 1];
    }
    forall k | 0 <= k < |rest|
      ensures rest[k].0 in depthOf && rest[k].1 == depthOf[rest[k].0] && queue[0].1 <= rest[k].1 <= queue[0].1 + 1
    {
      assert rest[k] == queue[k + 1];
    }
  }

  /** Visiting a new neighbour of the expanded tile queues it one level deeper. */
  lemma OrderVisit(g: Graph, queue: seq<(int, int)>, depthOf: map<int, nat>, done: set<int>, x: int, d: nat, n: int)
    requires Expanding(g, queue, depthOf, done, x, d) && n !in depthOf
    ensures Expanding(g, queue + [(n, d + 1)], depthOf[n := d + 1], done, x, d)
  {
    var q' := queue + [(n, d + 1)];
    var m := depthOf[n := d + 1];
    forall y | y in m
      ensures y == x || y in done || Queued(q', y)
    {
      if y == n {
        assert q'[|queue|].0 == n;
      } else if y != x && y !in done {
        var k :| 0 <= k < |queue| && queue[k].0 == y;
        assert q'[k].0 == y;
      }
    }
    forall k | 0 <= k < |q'|
      ensures q'[k].0 in m && q'[k].1 == m[q'[k].0] && d <= q'[k].1 <= d + 1
    {
      if k < |queue| {
        assert q'[k] == queue[k];
      }
    }
  }

  /** The expanded tile, its neighbours all visited (or its level the last), joins `done`. */
  lemma OrderExpanded(g: Graph, queue: seq<(int, int)>, depthOf: map<int, nat>, done: set<int>, x: int, d: nat)
    requires Expanding(g, queue, depthOf, done, x, d)
    requires d < SearchDepth ==> forall n :: n in g.neighbours(x) ==> n in depthOf
    ensures InOrder(g, queue, depthOf, done + {x})
  {
  }

  /** A tile `k` hops out is `k - 1` hops out, or a neighbour of such a tile. */
  lemma BallSplit(g: Graph, c: int, k: nat, t: int) returns (u: int)
    requires k > 0 && t in Ball(g, c, k)
    ensures t in Ball(g, c, k - 1) || (u in Ball(g, c, k - 1) && t in g.neighbours(u))
  {
    u := t;
    var inner := Ball(g, c, k - 1);
    if t !in inner {
      assert t in (set t', n | t' in inner && n in g.neighbours(t') :: n);
      var v, n :| v in inner && n in g.neighbours(v) && n == t;
      u := v;
    }
  }

  /** Once the queue is empty, every visited tile has been expanded. */
  lemma OrderDrained(g: Graph, depthOf: map<int, nat>, done: set<int>)
    requires InOrder(g, [], depthOf, done)
    ensures depthOf.Keys <= done && Closed(g, depthOf, done)
  {
    forall y | y in depthOf
      ensures y in done
    {
      assert !Queued([], y);
    }
  }

  /**
   * When every visited tile has been expanded, every tile within `k` hops
   * of the capital (k up to SearchDepth) has been visited, at level k at
   * most.
   */
  lemma OrderComplete(g: Graph, c: int, depthOf: map<int, nat>, done: set<int>, k: nat)
    requires Closed(g, depthOf, done) && depthOf.Keys <= done
    requires c in depthOf && depthOf[c] == 0
    requires k <= SearchDepth
    ensures forall t :: t in Ball(g, c, k) ==> t in depthOf && depthOf[t] <= k
  {
    forall t | t in Ball(g, c, k)
      ensures t in depthOf && depthOf[t] <= k
    {
      OrderReaches(g, c, depthOf, done, k, t);
    }
  }

  /** One tile of OrderComplete, by induction on the number of hops. */
  lemma {:induction false} OrderReaches(g: Graph, c: int, depthOf: map<int, nat>, done: set<int>, k: nat, t: int)
    requires Closed(g, depthOf, done) && depthOf.Keys <= done
    requires c in depthOf && depthOf[c] == 0
    requires k <= SearchDepth && t in Ball(g, c, k)
    ensures t in depthOf && depthOf[t] <= k
    decreases k
  {
    if k > 0 {
      var u := BallSplit(g, c, k, t);
      if t in Ball(g, c, k - 1) {
        OrderReaches(g, c, depthOf, done, k - 1, t);
      } else {
        OrderReaches(g, c, depthOf, done, k - 1, u);
        CompleteStep(g, depthOf, done, k, u, t);
      }
    }
  }

  /** A neighbour of a tile visited at level k - 1 (k up to SearchDepth) is visited at level k at most. */
  lemma CompleteStep(g: Graph, depthOf: map<int, nat>, done: set<int>, k: nat, u: int, t: int)
    requires Closed(g, depthOf, done) && depthOf.Keys <= done
    requires 0 < k <= SearchDepth && u in depthOf && depthOf[u] <= k - 1 && t in g.neighbours(u)
    ensures t in depthOf && depthOf[t] <= k
  {
    assert u in done;
  }

  /** Visiting a new tile keeps the search state. */
  lemma SearchAdd(balls: seq<set<int>>, c: int, ring: seq<int>, visited: set<int>, queue: seq<(int, int)>,
                  candidates: seq<int>, found: seq<int>, n: int, d: nat)
    requires |balls| == SearchDepth + 1 && d <= SearchDepth && balls[d] <= balls[SearchDepth]
    requires SearchState(balls, c, ring, visited, queue, candidates, found)
    requires n !in visited && n in balls[d]
    ensures SearchState(balls, c, ring, visited + {n}, queue + [(n, d)], candidates + [n], found + [n])
  {
    assert (ring + found) + [n] == ring + (found + [n]);
    forall q | q in queue + [(n, d)]
      ensures 0 <= q.1 <= SearchDepth && q.0 in balls[q.1]
    {
      if q != (n, d) {
        assert q in queue;
      }
    }
  }

  /** Taking the head of the queue keeps the search state. */
  lemma SearchPop(balls: seq<set<int>>, c: int, ring: seq<int>, visited: set<int>, queue: seq<(int, int)>,
                  candidates: seq<int>, found: seq<int>)
    requires |balls| == SearchDepth + 1
    requires SearchState(balls, c, ring, visited, queue, candidates, found) && |queue| > 0
    ensures SearchState(balls, c, ring, visited, queue[1..], candidates, found)
    ensures 0 <= queue[0].1 <= SearchDepth && queue[0].0 in balls[queue[0].1]
  {
    assert queue[0] in queue;
    forall q | q in queue[1..]
      ensures 0 <= q.1 <= SearchDepth && q.0 in balls[q.1]
    {
      assert q in queue;
    }
  }

  /** The search starts from the capital alone, at depth 0. */
  lemma SearchStart(g: Graph, c: int, balls: seq<set<int>>, ring: seq<int>)
    requires Layered(g, c, balls)
    ensures SearchState(balls, c, ring, {c}, [(c, 0)], ring, [])
  {
    assert ring + [] == ring;
  }

  /** What an emptied queue leaves: the postcondition of AnchorCandidates. */
  lemma SearchEnd(g: Graph, c: int, balls: seq<set<int>>, ring: seq<int>, visited: set<int>,
                  candidates: seq<int>, found: seq<int>)
    requires Layered(g, c, balls) && ring == g.neighbours(c)
    requires SearchState(balls, c, ring, visited, [], candidates, found)
    requires forall n :: n in ring ==> n in visited
    ensures |candidates| >= |ring| && candidates[..|ring|] == ring
    ensures ring == [] && found == [] ==> candidates == []
    ensures forall t :: t in candidates ==> t in balls[SearchDepth]
    ensures forall t :: t in ring && t != c ==> t in candidates[|ring|..]
    ensures forall k :: |ring| <= k < |candidates| ==> candidates[k] != c
    ensures forall k, m :: |ring| <= k < m < |candidates| ==> candidates[k] != candidates[m]
  {
    assert candidates[|ring|..] == found;
    forall t | t in candidates
      ensures t in balls[SearchDepth]
    {
      if t in ring {
        assert t in balls[1];
      } else {
        assert t in visited;
      }
    }
  }

  /** The state of the inner loop of the search while `tile`, taken at level `depth`, is expanded. */
  ghost predicate Visiting(g: Graph, c: int, balls: seq<set<int>>, ring: seq<int>, visited: set<int>,
                           queue: seq<(int, int)>, candidates: seq<int>, found: seq<int>,
                           depthOf: map<int, nat>, done: set<int>, tile: int, depth: nat)
    requires |balls| == SearchDepth + 1
  {
    && SearchState(balls, c, ring, visited, queue, candidates, found)
    && Expanding(g, queue, depthOf, done, tile, depth) && depthOf.Keys == visited
  }

  /** Visiting a new neighbour `n` of the expanded tile keeps the inner loop's state. */
  lemma VisitStep(g: Graph, c: int, balls: seq<set<int>>, ring: seq<int>, visited: set<int>,
                  queue: seq<(int, int)>, candidates: seq<int>, found: seq<int>,
                  depthOf: map<int, nat>, done: set<int>, tile: int, depth: nat, n: int)
    requires Layered(g, c, balls) && depth < SearchDepth && tile in balls[depth] && n in g.neighbours(tile)
    requires Visiting(g, c, balls, ring, visited, queue, candidates, found, depthOf, done, tile, depth)
    requires n !in visited
    ensures Visiting(g, c, balls, ring, visited + {n}, queue + [(n, depth + 1)], candidates + [n], found + [n],
                     depthOf[n := depth + 1], done, tile, depth)
  {
    SearchAdd(balls, c, ring, visited, queue, candidates, found, n, depth + 1);
    OrderVisit(g, queue, depthOf, done, tile, depth, n);
  }

  /**
   * The inner `foreach` of the search: every neighbour of `tile` that
   * `visited.Add` accepts is appended to the candidates and queued one
   * level deeper.
   */
  method VisitNeighbours(g: Graph, c: int, ghost balls: seq<set<int>>, ghost ring: seq<int>, tile: int, depth: int,
                         visited0: set<int>, queue0: seq<(int, int)>, candidates0: seq<int>, ghost found0: seq<int>,
                         ghost depthOf0: map<int, nat>, ghost done: set<int>)
    returns (visited: set<int>, queue: seq<(int, int)>, candidates: seq<int>, ghost found: seq<int>,
             ghost grew: bool, ghost added: int, ghost depthOf: map<int, nat>)
    requires Layered(g, c, balls)
    requires 0 <= depth < SearchDepth && tile in balls[depth]
    requires Visiting(g, c, balls, ring, visited0, queue0, candidates0, found0, depthOf0, done, tile, depth)
    ensures Visiting(g, c, balls, ring, visited, queue, candidates, found, depthOf, done, tile, depth)
    ensures forall y :: y in depthOf0 ==> y in depthOf && depthOf[y] == depthOf0[y]
    ensures visited0 <= visited
    ensures forall n :: n in g.neighbours(tile) ==> n in visited
    ensures forall x :: x in visited ==> x in visited0 || x in g.neighbours(tile)
    ensures !grew ==> visited == visited0 && queue == queue0 && found == found0
    ensures grew ==> added in visited && added !in visited0
  {
    visited, queue, candidates, found := visited0, queue0, candidates0, found0;
    grew, added := false, c;
    depthOf := depthOf0;
    var neigh := g.neighbours(tile);
    var i := 0;
    while i < |neigh|
      invariant 0 <= i <= |neigh|
      invariant Visiting(g, c, balls, ring, visited, queue, candidates, found, depthOf, done, tile, depth)
      invariant forall y :: y in depthOf0 ==> y in depthOf && depthOf[y] == depthOf0[y]
      invariant visited0 <= visited
      invariant forall m :: 0 <= m < i ==> neigh[m] in visited
      invariant forall x :: x in visited ==> x in visited0 || x in neigh
      invariant !grew ==> visited == visited0 && queue == queue0 && found == found0
      invariant grew ==> added in visited && added !in visited0
    {
      var n := neigh[i];
      if n !in visited {
        VisitStep(g, c, balls, ring, visited, queue, candidates, found, depthOf, done, tile, depth, n);
        depthOf := depthOf[n := depth + 1];
        visited := visited + {n};
        candidates := candidates + [n];
        found := found + [n];
        queue := queue + [(n, depth + 1)];
        grew, added := true, n;
      }
      i := i + 1;
    }
  }

  /** The loop state of the search: SearchState and InOrder, `depthOf` keyed by the visited tiles, the capital at level 0. */
  ghost predicate Searching(g: Graph, c: int, balls: seq<set<int>>, ring: seq<int>, visited: set<int>,
                            queue: seq<(int, int)>, candidates: seq<int>, found: seq<int>,
                            depthOf: map<int, nat>, done: set<int>)
    requires |balls| == SearchDepth + 1
  {
    && SearchState(balls, c, ring, visited, queue, candidates, found)
    && InOrder(g, queue, depthOf, done) && depthOf.Keys == visited && c in depthOf && depthOf[c] == 0
  }

  /**
   * One turn of the search loop: the head of the queue is taken off and,
   * short of SearchDepth, its neighbours are visited.
   */
  method ExpandHead(g: Graph, c: int, ghost balls: seq<set<int>>, ghost ring: seq<int>,
                    visited0: set<int>, queue0: seq<(int, int)>, candidates0: seq<int>, ghost found0: seq<int>,
                    ghost depthOf0: map<int, nat>, ghost done0: set<int>)
    returns (visited: set<int>, queue: seq<(int, int)>, candidates: seq<int>, ghost found: seq<int>,
             ghost depthOf: map<int, nat>, ghost done: set<int>)
    requires Layered(g, c, balls) && |queue0| > 0
    requires Searching(g, c, balls, ring, visited0, queue0, candidates0, found0, depthOf0, done0)
    ensures Searching(g, c, balls, ring, visited, queue, candidates, found, depthOf, done)
    ensures visited0 <= visited
    ensures queue0[0].1 < SearchDepth ==> forall n :: n in g.neighbours(queue0[0].0) ==> n in visited
    ensures g.neighbours(queue0[0].0) == [] ==> queue == queue0[1..] && found == found0
    ensures visited == visited0 ==> |queue| < |queue0|
    ensures visited != visited0 ==> |balls[SearchDepth] - visited| < |balls[SearchDepth] - visited0|
  {
    visited, queue, candidates, found, depthOf, done := visited0, queue0, candidates0, found0, depthOf0, done0;
    SearchPop(balls, c, ring, visited, queue, candidates, found);
    OrderPop(g, queue, depthOf, done);
    var (tile, depth) := queue[0];
    queue := queue[1..];
    if depth >= SearchDepth {
      OrderExpanded(g, queue, depthOf, done, tile, depth);
      done := done + {tile};
      return;
    }
    ghost var grew, x;
    visited, queue, candidates, found, grew, x, depthOf :=
      VisitNeighbours(g, c, balls, ring, tile, depth, visited, queue, candidates, found, depthOf, done);
    if grew {
      DifferenceShrinks(balls[SearchDepth], visited0, visited, x);
    }
    OrderExpanded(g, queue, depthOf, done, tile, depth);
    done := done + {tile};
  }

  /**
   * The candidate list of GetCapitalAnchorTile for a capital on tile `c`:
   * the capital's neighbour list, followed by every tile the search
   * newly visits. Tiles at depth 4 are not expanded, so every candidate
   * lies within 4 hops; the neighbours of `c` (other than `c`) are
   * visited from `c` itself, so they occur a second time.
   */
  method AnchorCandidates(g: Graph, c: int) returns (candidates: seq<int>)
    ensures |candidates| >= |g.neighbours(c)|
    ensures candidates == [] <==> g.neighbours(c) == []
    ensures candidates[..|g.neighbours(c)|] == g.neighbours(c)
    ensures forall t :: t in candidates ==> t in Ball(g, c, SearchDepth)
    ensures forall t :: t in g.neighbours(c) && t != c ==> t in candidates[|g.neighbours(c)|..]
    ensures forall t :: t in Ball(g, c, SearchDepth) && t != c ==> t in candidates[|g.neighbours(c)|..]
    ensures forall k :: |g.neighbours(c)| <= k < |candidates| ==> candidates[k] != c
    ensures forall k, m :: |g.neighbours(c)| <= k < m < |candidates| ==> candidates[k] != candidates[m]
  {
    ghost var balls := Balls(g, c);
    BallsAreLayered(g, c);
    var ring := g.neighbours(c);
    candidates := ring;
    var visited := {c};
    var queue := [(c, 0)];
    ghost var found: seq<int> := [];
    ghost var started := false;
    ghost var depthOf: map<int, nat> := map[c := 0];
    ghost var done: set<int> := {};
    SearchStart(g, c, balls, ring);
    OrderStart(g, c);
    assert Searching(g, c, balls, ring, visited, queue, candidates, found, depthOf, done);
    while |queue| > 0
      invariant Searching(g, c, balls, ring, visited, queue, candidates, found, depthOf, done)
      invariant !started ==> queue == [(c, 0)] && found == []
      invariant started ==> forall n :: n in ring ==> n in visited
      invariant started && ring == [] ==> queue == [] && found == []
      decreases |balls[SearchDepth] - visited|, |queue|
    {
      visited, queue, candidates, found, depthOf, done :=
        ExpandHead(g, c, balls, ring, visited, queue, candidates, found, depthOf, done);
      started := true;
    }
    SearchFinal(g, c, balls, ring, visited, candidates, found, depthOf, done);
  }

  /** What the emptied queue leaves: the postcondition of AnchorCandidates. */
  lemma SearchFinal(g: Graph, c: int, balls: seq<set<int>>, ring: seq<int>, visited: set<int>,
                    candidates: seq<int>, found: seq<int>, depthOf: map<int, nat>, done: set<int>)
    requires balls == Balls(g, c) && Layered(g, c, balls) && ring == g.neighbours(c)
    requires Searching(g, c, balls, ring, visited, [], candidates, found, depthOf, done)
    requires forall n :: n in ring ==> n in visited
    requires ring == [] ==> found == []
    ensures |candidates| >= |ring|
    ensures candidates == [] <==> ring == []
    ensures candidates[..|ring|] == ring
    ensures forall t :: t in candidates ==> t in Ball(g, c, SearchDepth)
    ensures forall t :: t in ring && t != c ==> t in candidates[|ring|..]
    ensures forall t :: t in Ball(g, c, SearchDepth) && t != c ==> t in candidates[|ring|..]
    ensures forall k :: |ring| <= k < |candidates| ==> candidates[k] != c
    ensures forall k, m :: |ring| <= k < m < |candidates| ==> candidates[k] != candidates[m]
  {
    SearchEnd(g, c, balls, ring, visited, candidates, found);
    OrderDrained(g, depthOf, done);
    OrderComplete(g, c, depthOf, done, SearchDepth);
    assert candidates[|ring|..] == found;
  }
}
