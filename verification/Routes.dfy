/** Hunt routes: the checks a route must pass, and why a route that passes them can be walked for ever. */
module Routes {
  import opened Wrappers
  import opened Tilemaps

  /** A spawn point hangs on an index of the route. */
  datatype Route = Route(tiles: seq<Point>, spawnIndices: seq<nat>)

  datatype Problem =
    | BlockedTile(index: nat)
    | StairOnWrongFloor(index: nat)
    | NotAdjacent(index: nat)
    | LoopNotClosed
    | SpawnOutOfRoute(position: nat)

  /** The tile after `i`, closing the loop after the last. */
  function NextTile(tiles: seq<Point>, i: nat): Point
    requires i < |tiles|
  {
    if i + 1 == |tiles| then tiles[0] else tiles[i + 1]
  }

  /** The stair taken by stepping towards `next` from `at`, if that step meets one. */
  function StairTo(m: Tilemap, at: Point, next: Point): Option<Point> {
    if OneStep(at, next) then FloorChangeAt(m, next.x, next.y, at.z) else None
  }

  /** Where one stands after the step, as the check sees it. */
  function After(m: Tilemap, at: Point, next: Point): Point {
    var stair := StairTo(m, at, next);
    if stair.Some? then stair.value else next
  }

  function StepProblem(m: Tilemap, at: Point, next: Point, i: nat, count: nat): seq<Problem> {
    if StairTo(m, at, next).Some? then if next.z != at.z then [StairOnWrongFloor(i + 1)] else []
    else if OneStep(at, next) && next.z == at.z then []
    else if i == count - 1 then [LoopNotClosed]
    else [NotAdjacent(i)]
  }

  /** The effective position before step `i`. */
  function At(m: Tilemap, tiles: seq<Point>, i: nat): Point
    requires i < |tiles|
  {
    if i == 0 then tiles[0] else After(m, At(m, tiles, i - 1), NextTile(tiles, i - 1))
  }

  function BlockedProblems(m: Tilemap, tiles: seq<Point>, n: nat): seq<Problem>
    requires n <= |tiles|
  {
    if n == 0 then []
    else BlockedProblems(m, tiles, n - 1) + if Open(m, tiles[n - 1]) then [] else [BlockedTile(n - 1)]
  }

  function StepProblems(m: Tilemap, tiles: seq<Point>, n: nat): seq<Problem>
    requires n <= |tiles|
  {
    if n == 0 then []
    else StepProblems(m, tiles, n - 1) + StepProblem(m, At(m, tiles, n - 1), NextTile(tiles, n - 1), n - 1, |tiles|)
  }

  function SpawnProblems(route: Route, n: nat): seq<Problem>
    requires n <= |route.spawnIndices|
  {
    if n == 0 then []
    else SpawnProblems(route, n - 1) + if route.spawnIndices[n - 1] >= |route.tiles| then [SpawnOutOfRoute(n - 1)] else []
  }

  function Problems(m: Tilemap, route: Route): seq<Problem> {
    BlockedProblems(m, route.tiles, |route.tiles|)
      + StepProblems(m, route.tiles, |route.tiles|)
      + SpawnProblems(route, |route.spawnIndices|)
  }

  lemma WrapIndex(i: nat, n: nat)
    requires i < n
    ensures (i + 1) % n == if i + 1 == n then 0 else i + 1
  {}

  method ValidateRoute(m: Tilemap, route: Route) returns (problems: seq<Problem>)
    ensures problems == Problems(m, route)
  {
    hide FloorChangeAt, OneStep, IsBlocked;
    problems := [];
    var tiles := route.tiles;
    for i := 0 to |tiles|
      invariant problems == BlockedProblems(m, tiles, i)
    {
      var tile := tiles[i];
      if IsBlocked(m, tile.x, tile.y, tile.z) { problems := problems + [BlockedTile(i)]; }
    }
    ghost var blocked := problems;
    if |tiles| > 0 {
      var at := tiles[0];
      var i := 0;
      while i < |tiles|
        invariant i <= |tiles|
        invariant i < |tiles| ==> at == At(m, tiles, i)
        invariant problems == blocked + StepProblems(m, tiles, i)
      {
        var next := tiles[(i + 1) % |tiles|];
        WrapIndex(i, |tiles|);
        var oneStep := OneStep(at, next);
        var stair := if oneStep then FloorChangeAt(m, next.x, next.y, at.z) else None;
        ghost var found := problems;
        if stair.Some? {
          if next.z != at.z { problems := problems + [StairOnWrongFloor(i + 1)]; }
          at := stair.value;
        } else {
          if !(oneStep && next.z == at.z) {
            problems := problems + [if i == |tiles| - 1 then LoopNotClosed else NotAdjacent(i)];
          }
          at := next;
        }
        assert problems == found + StepProblem(m, At(m, tiles, i), next, i, |tiles|);
        i := i + 1;
      }
    }
    ghost var walked := problems;
    for j := 0 to |route.spawnIndices|
      invariant problems == walked + SpawnProblems(route, j)
    {
      if route.spawnIndices[j] >= |tiles| { problems := problems + [SpawnOutOfRoute(j)]; }
    }
  }

  // ---------------------------------------------------------------- what an empty list means

  ghost predicate Accepted(m: Tilemap, route: Route) {
    && (forall i :: 0 <= i < |route.tiles| ==> Open(m, route.tiles[i]))
    && (forall i :: 0 <= i < |route.tiles| ==> GoodStep(m, route.tiles, i))
    && (forall j :: 0 <= j < |route.spawnIndices| ==> route.spawnIndices[j] < |route.tiles|)
  }

  /** Step `i` starts one tile away from its goal, on the goal's floor. */
  predicate GoodStep(m: Tilemap, tiles: seq<Point>, i: nat)
    requires i < |tiles|
  {
    OneStep(At(m, tiles, i), NextTile(tiles, i)) && NextTile(tiles, i).z == At(m, tiles, i).z
  }

  lemma {:induction false} NoBlocked(m: Tilemap, tiles: seq<Point>, n: nat)
    requires n <= |tiles|
    ensures BlockedProblems(m, tiles, n) == [] <==> forall i :: 0 <= i < n ==> Open(m, tiles[i])
  {
    if n > 0 { NoBlocked(m, tiles, n - 1); }
  }

  lemma NoStepProblem(m: Tilemap, at: Point, next: Point, i: nat, count: nat)
    ensures StepProblem(m, at, next, i, count) == [] <==> OneStep(at, next) && next.z == at.z
  {}

  lemma {:induction false} NoBadStep(m: Tilemap, tiles: seq<Point>, n: nat)
    requires n <= |tiles|
    ensures StepProblems(m, tiles, n) == [] <==> forall i :: 0 <= i < n ==> GoodStep(m, tiles, i)
  {
    if n > 0 {
      NoBadStep(m, tiles, n - 1);
      NoStepProblem(m, At(m, tiles, n - 1), NextTile(tiles, n - 1), n - 1, |tiles|);
      hide StepProblem, At, NextTile, OneStep;
      assert GoodStep(m, tiles, n - 1) <==> StepProblem(m, At(m, tiles, n - 1), NextTile(tiles, n - 1), n - 1, |tiles|) == [];
    }
  }

  lemma {:induction false} NoBadSpawn(route: Route, n: nat)
    requires n <= |route.spawnIndices|
    ensures SpawnProblems(route, n) == [] <==> forall j :: 0 <= j < n ==> route.spawnIndices[j] < |route.tiles|
  {
    if n > 0 { NoBadSpawn(route, n - 1); }
  }

  /** The list is empty exactly for the accepted routes. */
  lemma NoProblemsIffAccepted(m: Tilemap, route: Route)
    ensures Problems(m, route) == [] <==> Accepted(m, route)
  {
    NoBlocked(m, route.tiles, |route.tiles|);
    NoBadStep(m, route.tiles, |route.tiles|);
    NoBadSpawn(route, |route.spawnIndices|);
  }

  // ---------------------------------------------------------------- walking laps

  /** The steps of one lap from the first tile: the others in order, then the first again. */
  function Lap(tiles: seq<Point>): seq<Point>
    requires |tiles| > 0
  {
    tiles[1..] + [tiles[0]]
  }

  function Laps(tiles: seq<Point>, count: nat): seq<Point>
    requires |tiles| > 0
  {
    if count == 0 then [] else Lap(tiles) + Laps(tiles, count - 1)
  }

  lemma GoodStepLands(m: Tilemap, tiles: seq<Point>, i: nat)
    requires i < |tiles| && GoodStep(m, tiles, i) && Open(m, NextTile(tiles, i))
    ensures CanStep(m, At(m, tiles, i), NextTile(tiles, i))
    ensures After(m, At(m, tiles, i), NextTile(tiles, i)) == Landing(m, NextTile(tiles, i))
  {}

  lemma LapIndex(tiles: seq<Point>, i: nat)
    requires i < |tiles|
    ensures |Lap(tiles)| == |tiles| && Lap(tiles)[i] == NextTile(tiles, i)
  {}

  /** Walking the first `i` steps of an accepted route's lap succeeds and stands at the checker's position. */
  lemma {:induction false} LapPrefix(m: Tilemap, route: Route, i: nat)
    requires Accepted(m, route) && i < |route.tiles|
    ensures |Lap(route.tiles)| == |route.tiles|
    ensures Walk(m, route.tiles[0], Lap(route.tiles)[..i]) == Some(At(m, route.tiles, i))
  {
    if i > 0 {
      var tiles := route.tiles;
      LapPrefix(m, route, i - 1);
      LapIndex(tiles, i - 1);
      GoodStepLands(m, tiles, i - 1);
      WalkSnoc(m, tiles[0], Lap(tiles)[..i - 1], NextTile(tiles, i - 1));
      assert Lap(tiles)[..i] == Lap(tiles)[..i - 1] + [NextTile(tiles, i - 1)];
    }
  }

  lemma WalkSnoc(m: Tilemap, at: Point, points: seq<Point>, p: Point)
    requires Walk(m, at, points).Some? && CanStep(m, Walk(m, at, points).value, p)
    ensures Walk(m, at, points + [p]) == Some(Landing(m, p))
  {
    WalkConcat(m, at, points, [p]);
    assert [p][1..] == [];
  }

  /** One lap of an accepted route is walkable and ends where stepping on the first tile lands. */
  lemma OneLap(m: Tilemap, route: Route)
    requires Accepted(m, route) && |route.tiles| > 0
    ensures Walk(m, route.tiles[0], Lap(route.tiles)) == Some(Landing(m, route.tiles[0]))
  {
    var tiles := route.tiles;
    var last := |tiles| - 1;
    LapPrefix(m, route, last);
    LapIndex(tiles, last);
    GoodStepLands(m, tiles, last);
    WalkSnoc(m, tiles[0], Lap(tiles)[..last], tiles[0]);
    assert Lap(tiles) == Lap(tiles)[..last] + [tiles[0]];
  }

  /** An accepted route closes on its first tile exactly when stepping there does not lead away; then any number of laps works. */
  lemma AcceptedRouteLoops(m: Tilemap, route: Route)
    requires Accepted(m, route) && |route.tiles| > 0
    ensures (forall count :: Walk(m, route.tiles[0], Laps(route.tiles, count)) == Some(route.tiles[0]))
       <==> Landing(m, route.tiles[0]) == route.tiles[0]
  {
    var tiles := route.tiles;
    OneLap(m, route);
    if Landing(m, tiles[0]) == tiles[0] {
      forall count: nat ensures Walk(m, tiles[0], Laps(tiles, count)) == Some(tiles[0]) {
        LapsReturn(m, route, count);
      }
    } else {
      assert Laps(tiles, 1) == Lap(tiles) + [] == Lap(tiles);
      assert Walk(m, tiles[0], Laps(tiles, 1)) != Some(tiles[0]);
    }
  }

  lemma {:induction false} LapsReturn(m: Tilemap, route: Route, count: nat)
    requires Accepted(m, route) && |route.tiles| > 0 && Landing(m, route.tiles[0]) == route.tiles[0]
    ensures Walk(m, route.tiles[0], Laps(route.tiles, count)) == Some(route.tiles[0])
  {
    if count > 0 {
      OneLap(m, route);
      LapsReturn(m, route, count - 1);
      WalkConcat(m, route.tiles[0], Lap(route.tiles), Laps(route.tiles, count - 1));
    }
  }

  /** Two tiles side by side, the left one free and the right one a stair that leads back to the left one. */
  const STAIR_MAP := Tilemap(2, 1, 0, map[0 := Floor([false, false], None, None)], map[TileKey(1, 0, 0) := LEFT], map[])
  const LEFT := Point(0, 0, 0)
  const RIGHT := Point(1, 0, 0)

  /** A route that starts on a stair's step can be accepted and still not return there: this one ends on the left tile. */
  lemma StairStartDoesNotLoop()
    ensures var route := Route([RIGHT, LEFT], []);
            Accepted(STAIR_MAP, route) && Walk(STAIR_MAP, RIGHT, Lap(route.tiles)) == Some(LEFT)
  {
    var m, tiles := STAIR_MAP, [RIGHT, LEFT];
    assert Open(m, LEFT) && Open(m, RIGHT) && Landing(m, LEFT) == LEFT && Landing(m, RIGHT) == LEFT;
    assert NextTile(tiles, 0) == LEFT && NextTile(tiles, 1) == RIGHT;
    hide IsBlocked, FloorChangeAt;
    assert GoodStep(m, tiles, 0);
    assert At(m, tiles, 1) == After(m, RIGHT, LEFT) == LEFT by { GoodStepLands(m, tiles, 0); }
    assert GoodStep(m, tiles, 1);
    OneLap(m, Route(tiles, []));
  }
}
