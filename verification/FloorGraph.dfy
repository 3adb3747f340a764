/** Which stair starts the way to another floor: breadth-first search over floors, one stair a step. */
module FloorGraph {
  import opened Wrappers
  import opened Walks
  import opened Tilemaps

  /** The stairs that leave a floor, in the map's order. */
  function Changes(m: Tilemap, z: int): seq<FloorChange> {
    if z in m.floorChangesByFloor then m.floorChangesByFloor[z] else []
  }

  /** A sequence of stairs, each leaving the floor the one before leads to. */
  ghost predicate Links(m: Tilemap, from: int, chain: seq<FloorChange>, to: int)
    decreases |chain|
  {
    if chain == [] then from == to
    else chain[0] in Changes(m, from) && Links(m, chain[0].to.z, chain[1..], to)
  }

  lemma {:induction false} LinksSnoc(m: Tilemap, from: int, chain: seq<FloorChange>, mid: int, last: FloorChange)
    requires Links(m, from, chain, mid) && last in Changes(m, mid)
    ensures Links(m, from, chain + [last], last.to.z)
    decreases |chain|
  {
    if chain == [] {
      assert chain + [last] == [last] && [last][1..] == [];
    } else {
      LinksSnoc(m, chain[0].to.z, chain[1..], mid, last);
      assert (chain + [last])[1..] == chain[1..] + [last];
    }
  }

  ghost predicate Joined(m: Tilemap, a: int, b: int) {
    exists c :: c in Changes(m, a) && c.to.z == b
  }

  ghost function Joins(m: Tilemap): (int, int) -> bool {
    (a, b) => Joined(m, a, b)
  }

  lemma {:induction false} LinksAreWalks(m: Tilemap, from: int, chain: seq<FloorChange>, to: int) returns (w: seq<int>)
    requires Links(m, from, chain, to)
    ensures IsWalk(Joins(m), w) && |w| == |chain| + 1 && w[0] == from && w[|chain|] == to
    decreases |chain|
  {
    if chain == [] {
      w := [from];
    } else {
      var rest := LinksAreWalks(m, chain[0].to.z, chain[1..], to);
      w := [from] + rest;
      assert Joined(m, from, chain[0].to.z);
      forall i | 0 <= i < |w| - 1 ensures Joins(m)(w[i], w[i + 1]) {
        if i > 0 { assert Joins(m)(rest[i - 1], rest[i]); }
      }
    }
  }

  ghost predicate Connected(m: Tilemap, from: int, to: int) {
    exists chain :: Links(m, from, chain, to)
  }

  /** `chain` reaches `to` with as few stairs as any sequence does. */
  ghost predicate Fewest(m: Tilemap, from: int, chain: seq<FloorChange>, to: int) {
    Links(m, from, chain, to) && forall other :: Links(m, from, other, to) ==> |chain| <= |other|
  }

  // ---------------------------------------------------------------- the search

  /** A floor reached, with the step of the first stair on the way to it. */
  datatype Hop = Hop(z: int, first: Point)

  /** The floors met, in order; how many stairs away each is, and by which stairs. */
  datatype Search = Search(floors: seq<int>, dist: map<int, nat>, chains: map<int, seq<FloorChange>>) {
    ghost function Meet(b: int, chain: seq<FloorChange>): Search {
      Search(floors + [b], dist[b := |chain|], chains[b := chain])
    }
  }

  ghost predicate Met(m: Tilemap, from: int, to: int, s: Search) {
    && |s.floors| > 0 && s.floors[0] == from && s.dist.Keys == (set z | z in s.floors) && s.chains.Keys == s.dist.Keys
    && (forall i, j :: 0 <= i < j < |s.floors| ==> s.floors[i] != s.floors[j])
    && s.dist[from] == 0 && to !in s.dist
    && forall z :: z in s.dist ==> Links(m, from, s.chains[z], z) && |s.chains[z]| == s.dist[z]
  }

  ghost predicate Layered(floors: seq<int>, done: nat, dist: map<int, nat>)
    requires forall i :: 0 <= i < |floors| ==> floors[i] in dist
  {
    && (forall i, j :: 0 <= i <= j < |floors| ==> dist[floors[i]] <= dist[floors[j]])
    && forall j :: 0 <= done <= j < |floors| ==> dist[floors[j]] <= dist[floors[done]] + 1
  }

  /** The stair leads to a floor already met, at most one stair further than `z`. */
  ghost predicate Near(z: int, c: FloorChange, dist: map<int, nat>)
    requires z in dist
  {
    c.to.z in dist && dist[c.to.z] <= dist[z] + 1
  }

  ghost predicate Expanded(m: Tilemap, z: int, count: nat, dist: map<int, nat>)
    requires z in dist && count <= |Changes(m, z)|
  {
    forall k :: 0 <= k < count ==> Near(z, Changes(m, z)[k], dist)
  }

  /** The first `done` floors met have been expanded. */
  ghost predicate Searched(m: Tilemap, from: int, to: int, s: Search, done: nat) {
    && Met(m, from, to, s) && done <= |s.floors| && Layered(s.floors, done, s.dist)
    && forall i :: 0 <= i < done ==> Expanded(m, s.floors[i], |Changes(m, s.floors[i])|, s.dist)
  }

  lemma ExpandedStays(m: Tilemap, z: int, count: nat, dist: map<int, nat>, b: int, mark: nat)
    requires z in dist && count <= |Changes(m, z)| && Expanded(m, z, count, dist) && b !in dist
    ensures Expanded(m, z, count, dist[b := mark])
  {
    var grown := dist[b := mark];
    forall k | 0 <= k < count ensures Near(z, Changes(m, z)[k], grown) {
      assert Near(z, Changes(m, z)[k], dist);
    }
  }

  lemma MetGrows(m: Tilemap, from: int, to: int, s: Search, b: int, chain: seq<FloorChange>)
    requires Met(m, from, to, s) && b != to && b !in s.dist && Links(m, from, chain, b)
    ensures Met(m, from, to, s.Meet(b, chain))
  {
    hide Links;
    assert forall i :: 0 <= i < |s.floors| ==> s.floors[i] in s.dist;
  }

  lemma LayersGrow(floors: seq<int>, done: nat, dist: map<int, nat>, b: int)
    requires done < |floors| && b !in floors
    requires (forall i :: 0 <= i < |floors| ==> floors[i] in dist) && Layered(floors, done, dist)
    ensures Layered(floors + [b], done, dist[b := dist[floors[done]] + 1])
  {}

  lemma AllExpandedStay(m: Tilemap, floors: seq<int>, done: nat, dist: map<int, nat>, b: int, mark: nat)
    requires done <= |floors| && b !in dist && forall i :: 0 <= i < |floors| ==> floors[i] in dist
    requires forall i :: 0 <= i < done ==> Expanded(m, floors[i], |Changes(m, floors[i])|, dist)
    ensures forall i :: 0 <= i < done ==> Expanded(m, (floors + [b])[i], |Changes(m, (floors + [b])[i])|, dist[b := mark])
  {
    hide Changes;
    forall i | 0 <= i < done ensures Expanded(m, (floors + [b])[i], |Changes(m, (floors + [b])[i])|, dist[b := mark]) {
      ExpandedStays(m, floors[i], |Changes(m, floors[i])|, dist, b, mark);
    }
  }

  /** Meeting a new floor by stair `k` of the floor being expanded. */
  lemma MeetFloor(m: Tilemap, from: int, to: int, s: Search, done: nat, k: nat)
    requires Searched(m, from, to, s, done) && done < |s.floors|
    requires var z := s.floors[done]; k < |Changes(m, z)| && Expanded(m, z, k, s.dist)
    requires var b := Changes(m, s.floors[done])[k].to.z; b != to && b !in s.dist
    ensures var z := s.floors[done];
            var c := Changes(m, z)[k];
            var grown := s.Meet(c.to.z, s.chains[z] + [c]);
            Searched(m, from, to, grown, done) && Expanded(m, z, k + 1, grown.dist)
  {
    var z := s.floors[done];
    var c := Changes(m, z)[k];
    var b, mark := c.to.z, s.dist[z] + 1;
    var chain := s.chains[z] + [c];
    LinksSnoc(m, from, s.chains[z], z, c);
    assert |chain| == mark && forall i :: 0 <= i < |s.floors| ==> s.floors[i] in s.dist;
    hide Links, Changes, Met, Layered, Expanded;
    MetGrows(m, from, to, s, b, chain);
    assert s.Meet(b, chain) == Search(s.floors + [b], s.dist[b := mark], s.chains[b := chain]);
    LayersGrow(s.floors, done, s.dist, b);
    AllExpandedStay(m, s.floors, done, s.dist, b, mark);
    ExpandedStays(m, z, k, s.dist, b, mark);
  }

  lemma MetIsNear(floors: seq<int>, done: nat, dist: map<int, nat>, b: int)
    requires done < |floors| && b in floors
    requires (forall i :: 0 <= i < |floors| ==> floors[i] in dist) && Layered(floors, done, dist)
    ensures dist[b] <= dist[floors[done]] + 1
  {
    var i :| 0 <= i < |floors| && floors[i] == b;
    if i < done { assert dist[floors[i]] <= dist[floors[done]]; }
  }

  lemma NextIsNear(m: Tilemap, u: int, v: int, dist: map<int, nat>)
    requires u in dist && Expanded(m, u, |Changes(m, u)|, dist) && Joined(m, u, v)
    ensures v in dist && dist[v] <= dist[u] + 1
  {
    var c :| c in Changes(m, u) && c.to.z == v;
    var k :| 0 <= k < |Changes(m, u)| && Changes(m, u)[k] == c;
    assert Near(u, Changes(m, u)[k], dist);
  }

  /** No chain to a floor not yet met is shorter than one stair beyond the floor being expanded. */
  lemma ChainBound(m: Tilemap, from: int, to: int, s: Search, done: nat, other: seq<FloorChange>)
    requires Searched(m, from, to, s, done) && Links(m, from, other, to)
    ensures done < |s.floors| && s.dist[s.floors[done]] < |other|
  {
    hide Links;
    var w := LinksAreWalks(m, from, other, to);
    var expanded := set z | z in s.floors[..done];
    var frontier := if done < |s.floors| then s.dist[s.floors[done]] else |w|;
    forall u, v | u in expanded && u in s.dist && Joins(m)(u, v) ensures v in s.dist && s.dist[v] <= s.dist[u] + 1 {
      var i :| 0 <= i < done && s.floors[i] == u;
      NextIsNear(m, s.floors[i], v, s.dist);
    }
    forall u | u in s.dist && u !in expanded ensures frontier <= s.dist[u] {
      var i :| 0 <= i < |s.floors| && s.floors[i] == u;
      assert forall j :: 0 <= j < done ==> s.floors[j] in expanded;
    }
    FrontierBound(Joins(m), w, s.dist, expanded, frontier);
  }

  /** A stair of the floor being expanded that leads to the target completes a fewest-stairs chain. */
  lemma FoundFewest(m: Tilemap, from: int, to: int, s: Search, done: nat, c: FloorChange)
    requires Searched(m, from, to, s, done) && done < |s.floors|
    requires c in Changes(m, s.floors[done]) && c.to.z == to
    ensures Fewest(m, from, s.chains[s.floors[done]] + [c], to)
  {
    LinksSnoc(m, from, s.chains[s.floors[done]], s.floors[done], c);
    forall other | Links(m, from, other, to) ensures |s.chains[s.floors[done]]| + 1 <= |other| {
      ChainBound(m, from, to, s, done, other);
    }
  }

  ghost function Reachable(m: Tilemap, from: int): set<int> {
    {from} + set z, c | z in m.floorChangesByFloor && c in m.floorChangesByFloor[z] :: c.to.z
  }

  /** The queue holds the floors met after the first, each with the first stair of its chain. */
  ghost predicate Queued(queue: seq<Hop>, visited: set<int>, m: Tilemap, from: int, s: Search) {
    && |queue| + 1 == |s.floors| && visited == s.dist.Keys && visited <= Reachable(m, from)
    && forall i :: 0 <= i < |queue| ==> queue[i].z == s.floors[i + 1] && StartsAt(s, queue[i].z, Some(queue[i].first))
  }

  ghost predicate StartsAt(s: Search, z: int, first: Option<Point>) {
    z in s.chains && if first.None? then s.chains[z] == [] else s.chains[z] != [] && s.chains[z][0].from == first.value
  }

  lemma EnqueueKeeps(queue: seq<Hop>, visited: set<int>, m: Tilemap, from: int, s: Search, z: int,
                     first: Option<Point>, c: FloorChange)
    requires Queued(queue, visited, m, from, s) && StartsAt(s, z, first) && c in Changes(m, z) && c.to.z !in s.chains
    requires s.chains.Keys == s.dist.Keys && forall i :: 0 <= i < |s.floors| ==> s.floors[i] in s.chains
    ensures Queued(queue + [Hop(c.to.z, if first.Some? then first.value else c.from)], visited + {c.to.z}, m, from,
                   s.Meet(c.to.z, s.chains[z] + [c]))
  {
    var grown := s.Meet(c.to.z, s.chains[z] + [c]);
    forall i | 0 <= i < |queue| ensures StartsAt(grown, queue[i].z, Some(queue[i].first)) {
      assert StartsAt(s, queue[i].z, Some(queue[i].first)) && queue[i].z == s.floors[i + 1];
    }
    assert c.to.z in Reachable(m, from);
  }

  /** One floor expanded: the answer if a stair leads to the target, else the queue with the floors newly met. */
  method VisitFloor(m: Tilemap, ghost from: int, to: int, z: int, first: Option<Point>, queue0: seq<Hop>, visited0: set<int>,
                    ghost s0: Search, ghost done: nat)
    returns (answer: Option<Point>, queue: seq<Hop>, visited: set<int>, ghost s: Search, ghost way: seq<FloorChange>)
    requires Searched(m, from, to, s0, done) && done < |s0.floors| && s0.floors[done] == z
    requires Queued(queue0, visited0, m, from, s0) && StartsAt(s0, z, first)
    ensures answer.Some? ==> way != [] && Fewest(m, from, way, to) && way[0].from == answer.value
    ensures answer.None? ==> Searched(m, from, to, s, done + 1) && Queued(queue, visited, m, from, s)
    ensures |queue0| <= |queue|
  {
    hide Links, Fewest, Layered, Reachable;
    queue, visited, s, way := queue0, visited0, s0, [];
    for k := 0 to |Changes(m, z)|
      invariant Searched(m, from, to, s, done) && done < |s.floors| && s.floors[done] == z && Expanded(m, z, k, s.dist)
      invariant Queued(queue, visited, m, from, s) && StartsAt(s, z, first) && |queue0| <= |queue|
    {
      var change := Changes(m, z)[k];
      var start := if first.Some? then first.value else change.from;
      if change.to.z == to {
        FoundFewest(m, from, to, s, done, change);
        return Some(start), queue, visited, s, s.chains[z] + [change];
      }
      if change.to.z in visited {
        MetIsNear(s.floors, done, s.dist, change.to.z);
      } else {
        MeetFloor(m, from, to, s, done, k);
        EnqueueKeeps(queue, visited, m, from, s, z, first, change);
        visited := visited + {change.to.z};
        queue := queue + [Hop(change.to.z, start)];
        s := s.Meet(change.to.z, s.chains[z] + [change]);
      }
    }
    answer := None;
    FloorDone(m, from, to, s, done);
  }

  lemma FloorDone(m: Tilemap, from: int, to: int, s: Search, done: nat)
    requires Searched(m, from, to, s, done) && done < |s.floors|
    requires Expanded(m, s.floors[done], |Changes(m, s.floors[done])|, s.dist)
    ensures Searched(m, from, to, s, done + 1)
  {
    hide Links, Changes;
  }

  lemma FewestConnects(m: Tilemap, from: int, chain: seq<FloorChange>, to: int)
    requires Fewest(m, from, chain, to)
    ensures Connected(m, from, to)
  {}

  /** With the queue used up every floor in reach has been met, and the target was not. */
  lemma NoWay(m: Tilemap, from: int, to: int, s: Search, queue: seq<Hop>, visited: set<int>)
    requires Searched(m, from, to, s, |queue| + 1) && Queued(queue, visited, m, from, s)
    ensures !Connected(m, from, to)
  {
    forall chain ensures !Links(m, from, chain, to) {
      if Links(m, from, chain, to) { ChainBound(m, from, to, s, |s.floors|, chain); }
    }
  }

  lemma TakeNext(m: Tilemap, from: int, to: int, s: Search, queue: seq<Hop>, visited: set<int>, i: nat)
    requires Searched(m, from, to, s, i + 1) && Queued(queue, visited, m, from, s) && i < |queue|
    ensures i + 1 < |s.floors| && s.floors[i + 1] == queue[i].z && StartsAt(s, queue[i].z, Some(queue[i].first))
    ensures |queue| <= |Reachable(m, from)|
  {
    hide Links, Reachable, Layered, Expanded;
    QueueFits(s.floors, visited, Reachable(m, from));
  }

  lemma SearchStarts(m: Tilemap, from: int, to: int)
    requires from != to
    ensures var s := Search([from], map[from := 0], map[from := []]);
            Searched(m, from, to, s, 0) && Queued([], {from}, m, from, s) && StartsAt(s, from, None)
  {}

  /** What a search must answer on a floor: the first stair of a fewest-stairs chain, or nothing when there is none to take. */
  ghost predicate RightAnswer(m: Tilemap, from: int, to: int, stair: Option<Point>) {
    && (stair.None? <==> from == to || !Connected(m, from, to))
    && (stair.Some? ==> exists way: seq<FloorChange> :: way != [] && Fewest(m, from, way, to) && stair.value == way[0].from)
  }

  /** `None` means there is nowhere to go or no way; otherwise the answer starts `way`, a fewest-stairs one. */
  method FloorChangeToward(m: Tilemap, fromZ: int, targetZ: int) returns (stair: Option<Point>, ghost way: seq<FloorChange>)
    ensures stair.None? <==> fromZ == targetZ || !Connected(m, fromZ, targetZ)
    ensures stair.Some? ==> way != [] && Fewest(m, fromZ, way, targetZ) && stair.value == way[0].from
    ensures RightAnswer(m, fromZ, targetZ, stair)
  {
    if fromZ == targetZ { return None, []; }
    ghost var s := Search([fromZ], map[fromZ := 0], map[fromZ := []]);
    SearchStarts(m, fromZ, targetZ);
    hide Connected, Fewest, Searched, Queued, StartsAt, Reachable;
    var visited := {fromZ};
    var queue: seq<Hop> := [];
    stair, queue, visited, s, way := VisitFloor(m, fromZ, targetZ, fromZ, None, queue, visited, s, 0);
    var i := 0;
    while stair.None? && i < |queue|
      invariant stair.Some? ==> way != [] && Fewest(m, fromZ, way, targetZ) && stair.value == way[0].from
      invariant stair.None? ==> i <= |queue| && Searched(m, fromZ, targetZ, s, i + 1) && Queued(queue, visited, m, fromZ, s)
      decreases stair.None?, |Reachable(m, fromZ)| - i
    {
      TakeNext(m, fromZ, targetZ, s, queue, visited, i);
      var current := queue[i];
      stair, queue, visited, s, way :=
        VisitFloor(m, fromZ, targetZ, current.z, Some(current.first), queue, visited, s, i + 1);
      i := i + 1;
    }
    if stair.None? {
      NoWay(m, fromZ, targetZ, s, queue, visited);
    } else {
      FewestConnects(m, fromZ, way, targetZ);
    }
  }

  // ---------------------------------------------------------------- crossing stairs one after another

  /** Every listed stair is the one its tile leads by. */
  ghost predicate Consistent(m: Tilemap) {
    forall z, c :: z in m.floorChangesByFloor && c in m.floorChangesByFloor[z] ==>
      c.from.z == z && FloorChangeAt(m, c.from.x, c.from.y, c.from.z) == Some(c.to)
  }

  /** Crossing the first stair of a fewest-stairs chain leaves exactly one stair less to cross. */
  lemma CrossingLowers(m: Tilemap, from: int, chain: seq<FloorChange>, to: int)
    requires chain != [] && Fewest(m, from, chain, to) && Consistent(m)
    ensures Landing(m, chain[0].from) == chain[0].to && chain[0].from.z == from
    ensures Fewest(m, Landing(m, chain[0].from).z, chain[1..], to)
  {
    var next := chain[0].to.z;
    forall other | Links(m, next, other, to) ensures |chain[1..]| <= |other| {
      assert ([chain[0]] + other)[1..] == other;
      assert Links(m, from, [chain[0]] + other, to);
    }
  }

  ghost predicate Guides(m: Tilemap, to: int, answer: int -> Option<Point>) {
    forall z :: RightAnswer(m, z, to, answer(z))
  }

  /** The floor after crossing the stair answered `n` times over, searching anew on each floor. */
  ghost function FloorAfter(m: Tilemap, answer: int -> Option<Point>, from: int, n: nat): int
    decreases n
  {
    if n == 0 then from
    else match answer(from)
      case None => from
      case Some(stair) => FloorAfter(m, answer, Landing(m, stair).z, n - 1)
  }

  /** Searching and crossing over and over reaches the target in exactly the fewest stairs, never sooner, and stays there. */
  lemma {:induction false} CrossingReaches(m: Tilemap, answer: int -> Option<Point>, from: int,
                                           chain: seq<FloorChange>, to: int, n: nat)
    requires Consistent(m) && Guides(m, to, answer) && Fewest(m, from, chain, to)
    ensures FloorAfter(m, answer, from, n) == to <==> n >= |chain|
    decreases n
  {
    assert RightAnswer(m, from, to, answer(from));
    if from == to {
      assert Links(m, from, [], to);
    } else if n > 0 {
      FewestConnects(m, from, chain, to);
      var way: seq<FloorChange> :| way != [] && Fewest(m, from, way, to) && answer(from) == Some(way[0].from);
      CrossingLowers(m, from, way, to);
      CrossingReaches(m, answer, Landing(m, way[0].from).z, way[1..], to, n - 1);
    }
  }
}
