/** Tracing a hunt's route: breadth-first search over places to stand, where a stair's step leads to its landing. */
module TraceRoute {
  import opened Wrappers
  import opened Walks
  import opened Tilemaps

  /** A point to pass through; without a floor it means the ambient one. */
  datatype Waypoint = Waypoint(x: int, y: int, z: Option<int>)

  function Resolve(p: Waypoint, z: int): Point {
    Point(p.x, p.y, if p.z.Some? then p.z.value else z)
  }

  const CARDINALS: seq<(int, int)> := [(0, -1), (1, 0), (0, 1), (-1, 0)]

  // ---------------------------------------------------------------- what a path is

  predicate CanMove(m: Tilemap, at: Point, p: Point) {
    Cardinal(at, p) && CanStep(m, at, p)
  }

  /** Replaying the recorded points, four directions only. */
  function Replay(m: Tilemap, at: Point, points: seq<Point>): Option<Point>
    decreases |points|
  {
    if points == [] then Some(at)
    else if !CanMove(m, at, points[0]) then None
    else Replay(m, Landing(m, points[0]), points[1..])
  }

  lemma {:induction false} ReplayConcat(m: Tilemap, at: Point, a: seq<Point>, b: seq<Point>)
    ensures Replay(m, at, a + b)
         == if Replay(m, at, a).Some? then Replay(m, Replay(m, at, a).value, b) else None
    decreases |a|
  {
    if a == [] {
      assert a + b == b;
    } else {
      assert (a + b)[1..] == a[1..] + b;
      ReplayConcat(m, Landing(m, a[0]), a[1..], b);
    }
  }

  ghost predicate Edge(m: Tilemap, s: Point, t: Point) {
    exists p :: CanMove(m, s, p) && Landing(m, p) == t
  }

  ghost function Edges(m: Tilemap): (Point, Point) -> bool {
    (s, t) => Edge(m, s, t)
  }

  /** The places stood on while replaying form a walk one longer than the list of points. */
  lemma {:induction false} ReplayIsWalk(m: Tilemap, at: Point, points: seq<Point>) returns (w: seq<Point>)
    requires Replay(m, at, points).Some?
    ensures IsWalk(Edges(m), w) && |w| == |points| + 1
    ensures w[0] == at && w[|points|] == Replay(m, at, points).value
    decreases |points|
  {
    if points == [] {
      w := [at];
    } else {
      var next := Landing(m, points[0]);
      var rest := ReplayIsWalk(m, next, points[1..]);
      w := [at] + rest;
      assert Edge(m, at, next);
      forall i | 0 <= i < |w| - 1 ensures Edges(m)(w[i], w[i + 1]) {
        if i > 0 { assert Edges(m)(rest[i - 1], rest[i]); }
      }
    }
  }

  // ---------------------------------------------------------------- the search

  /** How a place was first reached: from which place, and the tile recorded for that step. */
  datatype Came = Came(from: Point, point: Point)

  ghost predicate Tree(m: Tilemap, start: Point, queue: seq<Point>, seen: set<Point>, dist: map<Point, nat>,
                       prev: map<Point, Came>) {
    && |queue| > 0 && queue[0] == start
    && (forall i, j :: 0 <= i < j < |queue| ==> queue[i] != queue[j])
    && seen == (set p | p in queue) && dist.Keys == seen && prev.Keys == seen - {start}
    && dist[start] == 0
    && forall t :: t in prev ==> && prev[t].from in dist && CanMove(m, prev[t].from, prev[t].point)
                                 && Landing(m, prev[t].point) == t && dist[t] == dist[prev[t].from] + 1
  }

  /** Labels grow along the queue, and by at most one from the head on. */
  ghost predicate Layered(queue: seq<Point>, head: nat, dist: map<Point, nat>)
    requires forall p :: p in queue ==> p in dist
  {
    && (forall i, j :: 0 <= i <= j < |queue| ==> dist[queue[i]] <= dist[queue[j]])
    && (forall j :: 0 <= head <= j < |queue| ==> dist[queue[j]] <= dist[queue[head]] + 1)
  }

  ghost predicate Reaches(m: Tilemap, at: Point, p: Point, dist: map<Point, nat>)
    requires at in dist
  {
    CanMove(m, at, p) ==> Landing(m, p) in dist && dist[Landing(m, p)] <= dist[at] + 1
  }

  ghost predicate Expanded(m: Tilemap, at: Point, dist: map<Point, nat>)
    requires at in dist
  {
    forall p :: Reaches(m, at, p, dist)
  }

  ghost function Universe(m: Tilemap, start: Point): set<Point> {
    {start} + (set x: int, y: int, z: int | 0 <= x < m.width && 0 <= y < m.height && z in m.floors.Keys :: Point(x, y, z))
      + m.floorChanges.Values
  }

  lemma LandingInUniverse(m: Tilemap, start: Point, at: Point, p: Point)
    requires CanMove(m, at, p)
    ensures Landing(m, p) in Universe(m, start)
  {
    assert p == Point(p.x, p.y, p.z);
    var key := TileKey(p.x, p.y, p.z);
    if key in m.floorChanges { assert m.floorChanges[key] in m.floorChanges.Values; }
  }

  function Neighbour(at: Point, d: nat): Point
    requires d < 4
  {
    Point(at.x + CARDINALS[d].0, at.y + CARDINALS[d].1, at.z)
  }

  lemma NeighboursAreAll(m: Tilemap, at: Point, dist: map<Point, nat>)
    requires at in dist
    requires forall d :: 0 <= d < 4 ==> Reaches(m, at, Neighbour(at, d), dist)
    ensures Expanded(m, at, dist)
  {
    forall p ensures Reaches(m, at, p, dist) {
      if CanMove(m, at, p) {
        assert p == Neighbour(at, 0) || p == Neighbour(at, 1) || p == Neighbour(at, 2) || p == Neighbour(at, 3);
      }
    }
  }

  ghost predicate Searching(m: Tilemap, start: Point, queue: seq<Point>, head: nat, seen: set<Point>,
                            dist: map<Point, nat>, prev: map<Point, Came>) {
    && Tree(m, start, queue, seen, dist, prev) && head <= |queue| && Layered(queue, head, dist)
    && (forall i :: 0 <= i < head ==> Expanded(m, queue[i], dist))
    && seen <= Universe(m, start)
  }

  /** Labels already given stay when a new place joins the queue. */
  lemma LabelsStay(m: Tilemap, at: Point, p: Point, dist: map<Point, nat>, next: Point, mark: nat)
    requires at in dist && next !in dist && Reaches(m, at, p, dist)
    ensures Reaches(m, at, p, dist[next := mark])
  {}

  lemma ExpandedStays(m: Tilemap, at: Point, dist: map<Point, nat>, next: Point, mark: nat)
    requires at in dist && next !in dist && Expanded(m, at, dist)
    ensures Expanded(m, at, dist[next := mark])
  {
    var grown := dist[next := mark];
    forall p ensures Reaches(m, at, p, grown) {
      LabelsStay(m, at, p, dist, next, mark);
    }
  }

  lemma TreeGrows(m: Tilemap, start: Point, queue: seq<Point>, seen: set<Point>,
                  dist: map<Point, nat>, prev: map<Point, Came>, at: Point, n: Point, next: Point)
    requires Tree(m, start, queue, seen, dist, prev) && at in dist
    requires CanMove(m, at, n) && next == Landing(m, n) && next !in seen
    ensures Tree(m, start, queue + [next], seen + {next}, dist[next := dist[at] + 1], prev[next := Came(at, n)])
  {
    assert forall i :: 0 <= i < |queue| ==> queue[i] in seen;
  }

  lemma LayersGrow(queue: seq<Point>, head: nat, dist: map<Point, nat>, next: Point)
    requires head < |queue| && next !in queue && (forall p :: p in queue ==> p in dist) && Layered(queue, head, dist)
    ensures Layered(queue + [next], head, dist[next := dist[queue[head]] + 1])
  {}

  lemma AllExpandedStay(m: Tilemap, queue: seq<Point>, head: nat, dist: map<Point, nat>, next: Point, mark: nat)
    requires head <= |queue| && next !in dist && forall i :: 0 <= i < |queue| ==> queue[i] in dist
    requires forall i :: 0 <= i < head ==> Expanded(m, queue[i], dist)
    ensures forall i :: 0 <= i < head ==> Expanded(m, (queue + [next])[i], dist[next := mark])
  {
    forall i | 0 <= i < head ensures Expanded(m, (queue + [next])[i], dist[next := mark]) {
      ExpandedStays(m, queue[i], dist, next, mark);
    }
  }

  lemma EnqueueKeeps(m: Tilemap, start: Point, queue: seq<Point>, head: nat, seen: set<Point>,
                     dist: map<Point, nat>, prev: map<Point, Came>, n: Point, next: Point)
    requires Searching(m, start, queue, head, seen, dist, prev) && head < |queue|
    requires CanMove(m, queue[head], n) && next == Landing(m, n) && next !in seen
    ensures Searching(m, start, queue + [next], head, seen + {next}, dist[next := dist[queue[head]] + 1],
                      prev[next := Came(queue[head], n)])
  {
    hide Layered, Expanded, CanMove, Landing, Universe;
    var mark := dist[queue[head]] + 1;
    LandingInUniverse(m, start, queue[head], n);
    TreeGrows(m, start, queue, seen, dist, prev, queue[head], n, next);
    LayersGrow(queue, head, dist, next);
    AllExpandedStay(m, queue, head, dist, next, mark);
  }

  lemma AdvanceKeeps(m: Tilemap, start: Point, queue: seq<Point>, head: nat, seen: set<Point>,
                     dist: map<Point, nat>, prev: map<Point, Came>)
    requires Searching(m, start, queue, head, seen, dist, prev) && head < |queue|
    requires forall d :: 0 <= d < 4 ==> Reaches(m, queue[head], Neighbour(queue[head], d), dist)
    ensures Searching(m, start, queue, head + 1, seen, dist, prev)
  {
    NeighboursAreAll(m, queue[head], dist);
  }

  /** Once the target is at the head of the queue, or the queue is used up, its mark is the least path length. */
  lemma SearchBound(m: Tilemap, start: Point, target: Point, queue: seq<Point>, head: nat, seen: set<Point>,
                    dist: map<Point, nat>, prev: map<Point, Came>, path: seq<Point>)
    requires Searching(m, start, queue, head, seen, dist, prev)
    requires head < |queue| ==> queue[head] == target
    requires Replay(m, start, path) == Some(target)
    ensures target in dist && dist[target] <= |path|
  {
    var w := ReplayIsWalk(m, start, path);
    var done := set p | p in queue[..head];
    var frontier := if head < |queue| then dist[target] else |w|;
    forall u, v | u in done && u in dist && Edges(m)(u, v) ensures v in dist && dist[v] <= dist[u] + 1 {
      var i :| 0 <= i < head && queue[i] == u;
      var p :| CanMove(m, u, p) && Landing(m, p) == v;
      assert Expanded(m, queue[i], dist);
      assert Reaches(m, u, p, dist);
    }
    forall u | u in dist && u !in done ensures frontier <= dist[u] {
      assert u in queue;
      var i :| 0 <= i < |queue| && queue[i] == u;
      assert forall j :: 0 <= j < head ==> queue[j] in done;
    }
    FrontierBound(Edges(m), w, dist, done, frontier);
  }

  function Reversed<T>(s: seq<T>): seq<T> {
    if s == [] then [] else Reversed(s[1..]) + [s[0]]
  }

  lemma {:induction false} ReversedSnoc<T>(s: seq<T>, t: T)
    ensures Reversed(s + [t]) == [t] + Reversed(s)
  {
    if s == [] {
      assert s + [t] == [t];
    } else {
      assert (s + [t])[1..] == s[1..] + [t];
      ReversedSnoc(s[1..], t);
    }
  }

  /** Walking `prev` back from the target spells a path of exactly the target's mark. */
  method PathBack(m: Tilemap, start: Point, target: Point, prev: map<Point, Came>, ghost queue: seq<Point>,
                  ghost head: nat, ghost seen: set<Point>, ghost dist: map<Point, nat>) returns (path: seq<Point>)
    requires Searching(m, start, queue, head, seen, dist, prev) && target in dist
    ensures Replay(m, start, path) == Some(target) && |path| == dist[target]
  {
    hide Universe, Layered, Expanded;
    var back: seq<Point> := [];
    var k := target;
    ghost var forth: seq<Point> := [];
    while k != start
      invariant k in dist && forth == Reversed(back) && |forth| == |back|
      invariant Replay(m, k, forth) == Some(target)
      invariant |back| + dist[k] == dist[target]
      decreases dist[k]
    {
      var entry := prev[k];
      ReversedSnoc(back, entry.point);
      assert ([entry.point] + forth)[1..] == forth;
      forth := [entry.point] + forth;
      back := back + [entry.point];
      k := entry.from;
    }
    path := Reversed(back);
  }

  ghost predicate Visited(m: Tilemap, at: Point, count: nat, dist: map<Point, nat>)
    requires count <= 4 && at in dist
  {
    forall d :: 0 <= d < count ==> Reaches(m, at, Neighbour(at, d), dist)
  }

  lemma VisitedStays(m: Tilemap, at: Point, count: nat, dist: map<Point, nat>, next: Point, mark: nat)
    requires count <= 4 && at in dist && next !in dist && Visited(m, at, count, dist)
    ensures Visited(m, at, count, dist[next := mark])
  {
    var grown := dist[next := mark];
    forall d | 0 <= d < count ensures Reaches(m, at, Neighbour(at, d), grown) {
      LabelsStay(m, at, Neighbour(at, d), dist, next, mark);
    }
  }

  lemma OpenMeansStep(m: Tilemap, at: Point, d: nat)
    requires d < 4
    ensures CanMove(m, at, Neighbour(at, d)) <==> Open(m, Neighbour(at, d))
  {}

  /** The body of the search for the place at the head: queue every place not yet seen one step away. */
  method VisitNeighbours(m: Tilemap, ghost start: Point, queue0: seq<Point>, head: nat, seen0: set<Point>,
                         prev0: map<Point, Came>, ghost dist0: map<Point, nat>)
    returns (queue: seq<Point>, seen: set<Point>, prev: map<Point, Came>, ghost dist: map<Point, nat>)
    requires Searching(m, start, queue0, head, seen0, dist0, prev0) && head < |queue0|
    ensures Searching(m, start, queue, head + 1, seen, dist, prev)
  {
    hide Expanded, Layered, Universe;
    queue, seen, prev, dist := queue0, seen0, prev0, dist0;
    var at := queue[head];
    for d := 0 to 4
      invariant Searching(m, start, queue, head, seen, dist, prev) && head < |queue| && queue[head] == at
      invariant Visited(m, at, d, dist)
    {
      var n := Neighbour(at, d);
      OpenMeansStep(m, at, d);
      if !(n.x < 0 || n.y < 0 || n.x >= m.width || n.y >= m.height) && !IsBlocked(m, n.x, n.y, at.z) {
        var change := FloorChangeAt(m, n.x, n.y, at.z);
        var next := if change.Some? then change.value else n;
        if next in seen {
          SeenIsNear(queue, head, dist, next);
        } else {
          EnqueueKeeps(m, start, queue, head, seen, dist, prev, n, next);
          VisitedStays(m, at, d, dist, next, dist[at] + 1);
          seen := seen + {next};
          prev := prev[next := Came(at, n)];
          dist := dist[next := dist[at] + 1];
          queue := queue + [next];
        }
      }
      assert Reaches(m, at, n, dist);
    }
    AdvanceKeeps(m, start, queue, head, seen, dist, prev);
  }

  lemma SeenIsNear(queue: seq<Point>, head: nat, dist: map<Point, nat>, p: Point)
    requires head < |queue| && p in queue && (forall q :: q in queue ==> q in dist) && Layered(queue, head, dist)
    ensures dist[p] <= dist[queue[head]] + 1
  {
    var i :| 0 <= i < |queue| && queue[i] == p;
    if i < head { assert dist[queue[i]] <= dist[queue[head]]; }
  }

  lemma SearchStarts(m: Tilemap, start: Point)
    ensures Searching(m, start, [start], 0, {start}, map[start := 0], map[])
  {}

  lemma HeadFits(m: Tilemap, start: Point, queue: seq<Point>, head: nat, seen: set<Point>, dist: map<Point, nat>,
                 prev: map<Point, Came>)
    requires Searching(m, start, queue, head, seen, dist, prev)
    ensures |queue| <= |Universe(m, start)|
  {
    hide Universe, Layered, Expanded;
    QueueFits(queue, seen, Universe(m, start));
  }

  lemma SearchEnds(m: Tilemap, start: Point, target: Point, queue: seq<Point>, head: nat, seen: set<Point>,
                   dist: map<Point, nat>, prev: map<Point, Came>)
    requires Searching(m, start, queue, head, seen, dist, prev) && (head < |queue| ==> queue[head] == target)
    ensures forall p :: Replay(m, start, p) == Some(target) ==> target in dist && dist[target] <= |p|
    ensures target in dist <==> start == target || target in prev
  {
    hide Universe, Layered, Expanded;
    forall p | Replay(m, start, p) == Some(target) ensures target in dist && dist[target] <= |p| {
      SearchBound(m, start, target, queue, head, seen, dist, prev, p);
    }
  }

  method ShortestPath(m: Tilemap, z: int, from: Waypoint, to: Waypoint) returns (path: Option<seq<Point>>)
    ensures path.None? ==> forall p :: Replay(m, Resolve(from, z), p) != Some(Resolve(to, z))
    ensures path.Some? ==> Replay(m, Resolve(from, z), path.value) == Some(Resolve(to, z))
    ensures path.Some? ==> forall p :: Replay(m, Resolve(from, z), p) == Some(Resolve(to, z)) ==> |path.value| <= |p|
  {
    var start, target := Resolve(from, z), Resolve(to, z);
    var prev: map<Point, Came> := map[];
    var queue, seen := [start], {start};
    ghost var dist: map<Point, nat> := map[start := 0];
    SearchStarts(m, start);
    hide Searching, Universe;
    var head := 0;
    while head < |queue|
      invariant Searching(m, start, queue, head, seen, dist, prev)
      decreases |Universe(m, start)| - head
    {
      HeadFits(m, start, queue, head, seen, dist, prev);
      if queue[head] == target { break; }
      queue, seen, prev, dist := VisitNeighbours(m, start, queue, head, seen, prev, dist);
      head := head + 1;
    }
    SearchEnds(m, start, target, queue, head, seen, dist, prev);
    if start != target && target !in prev { return None; }
    var found := PathBack(m, start, target, prev, queue, head, seen, dist);
    path := Some(found);
  }
}
