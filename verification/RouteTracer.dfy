/** Joining shortest paths into the closed route of a hunt, and exactly when the route checker accepts it. */
module RouteTracer {
  import opened Wrappers
  import opened Tilemaps
  import opened TraceRoute
  import opened Routes

  datatype SpawnRequest = SpawnRequest(place: Waypoint, radius: int)

  datatype SpawnPoint = SpawnPoint(routeIndex: nat, radius: int, at: Point)

  datatype TraceError = TooFewPoints | BlockedPoint(i: nat) | StairPoint(i: nat) | NoWay(i: nat) | TooShort

  datatype Traced = Traced(tiles: seq<Point>, spawnPoints: seq<SpawnPoint>)

  // ---------------------------------------------------------------- anchoring spawns

  function Distance(t: Point, at: Point): nat { Abs(t.x - at.x) + Abs(t.y - at.y) }

  /** A tile is eligible unless it is on another floor while the route has tiles on the spawn's own. */
  ghost predicate Eligible(tiles: seq<Point>, at: Point, i: nat)
    requires i < |tiles|
  {
    tiles[i].z == at.z || forall j :: 0 <= j < |tiles| ==> tiles[j].z != at.z
  }

  /** `best` is the first of the nearest eligible tiles. */
  ghost predicate Nearest(tiles: seq<Point>, at: Point, best: nat) {
    && best < |tiles| && Eligible(tiles, at, best)
    && (forall i :: 0 <= i < |tiles| && Eligible(tiles, at, i) ==> Distance(tiles[best], at) <= Distance(tiles[i], at))
    && (forall i :: 0 <= i < best && Eligible(tiles, at, i) ==> Distance(tiles[best], at) < Distance(tiles[i], at))
  }

  method Anchor(tiles: seq<Point>, at: Point) returns (best: nat)
    ensures tiles == [] ==> best == 0
    ensures tiles != [] ==> Nearest(tiles, at, best)
  {
    var sameFloor := exists j :: 0 <= j < |tiles| && tiles[j].z == at.z;
    best := 0;
    var bestDistance: Option<nat> := None;
    for i := 0 to |tiles|
      invariant bestDistance.None? ==> best == 0 && forall j :: 0 <= j < i ==> !Eligible(tiles, at, j)
      invariant bestDistance.Some? ==> best < i && Eligible(tiles, at, best) && bestDistance.value == Distance(tiles[best], at)
      invariant bestDistance.Some? ==> forall j :: 0 <= j < i && Eligible(tiles, at, j) ==>
          bestDistance.value <= Distance(tiles[j], at)
      invariant bestDistance.Some? ==> forall j :: 0 <= j < best && Eligible(tiles, at, j) ==>
          bestDistance.value < Distance(tiles[j], at)
    {
      if sameFloor && tiles[i].z != at.z { continue; }
      var distance := Distance(tiles[i], at);
      if bestDistance.None? || distance < bestDistance.value {
        bestDistance := Some(distance);
        best := i;
      }
    }
    if sameFloor {
      var j :| 0 <= j < |tiles| && tiles[j].z == at.z;
      assert Eligible(tiles, at, j);
    } else {
      assert tiles != [] ==> Eligible(tiles, at, 0);
    }
  }

  /** A stable sort by route index. */
  function Insert(sorted: seq<SpawnPoint>, p: SpawnPoint): seq<SpawnPoint> {
    if sorted == [] then [p]
    else if p.routeIndex < sorted[0].routeIndex then [p] + sorted
    else [sorted[0]] + Insert(sorted[1..], p)
  }

  function SortByIndex(points: seq<SpawnPoint>): seq<SpawnPoint> {
    if points == [] then [] else Insert(SortByIndex(points[..|points| - 1]), points[|points| - 1])
  }

  ghost predicate InOrder(points: seq<SpawnPoint>) {
    forall i, j :: 0 <= i < j < |points| ==> points[i].routeIndex <= points[j].routeIndex
  }

  lemma {:induction false} InsertAdds(sorted: seq<SpawnPoint>, p: SpawnPoint)
    ensures multiset(Insert(sorted, p)) == multiset(sorted) + multiset{p}
    ensures forall q :: q in Insert(sorted, p) ==> q == p || q in sorted
  {
    if sorted != [] && !(p.routeIndex < sorted[0].routeIndex) {
      InsertAdds(sorted[1..], p);
      assert sorted == [sorted[0]] + sorted[1..];
    }
  }

  lemma {:induction false} InsertKeeps(sorted: seq<SpawnPoint>, p: SpawnPoint)
    requires InOrder(sorted)
    ensures InOrder(Insert(sorted, p))
  {
    if sorted != [] && !(p.routeIndex < sorted[0].routeIndex) {
      InsertKeeps(sorted[1..], p);
      InsertAdds(sorted[1..], p);
      var rest := Insert(sorted[1..], p);
      forall k | 0 <= k < |rest| ensures sorted[0].routeIndex <= rest[k].routeIndex {
        assert rest[k] == p || rest[k] in sorted[1..];
      }
    }
  }

  lemma {:induction false} SortKeeps(points: seq<SpawnPoint>)
    ensures InOrder(SortByIndex(points)) && multiset(SortByIndex(points)) == multiset(points)
    decreases |points|
  {
    if points != [] {
      SortKeeps(points[..|points| - 1]);
      InsertKeeps(SortByIndex(points[..|points| - 1]), points[|points| - 1]);
      InsertAdds(SortByIndex(points[..|points| - 1]), points[|points| - 1]);
      assert points == points[..|points| - 1] + [points[|points| - 1]];
    }
  }

  ghost predicate Anchored(tiles: seq<Point>, z: int, spawns: seq<SpawnRequest>, anchored: seq<SpawnPoint>) {
    && |anchored| == |spawns|
    && forall k :: 0 <= k < |spawns| ==>
      && anchored[k].radius == spawns[k].radius && anchored[k].at == Resolve(spawns[k].place, z)
      && (tiles != [] ==> Nearest(tiles, anchored[k].at, anchored[k].routeIndex))
  }

  method AnchorSpawnPoints(tiles: seq<Point>, z: int, spawns: seq<SpawnRequest>) returns (sorted: seq<SpawnPoint>)
    ensures exists anchored :: Anchored(tiles, z, spawns, anchored) && sorted == SortByIndex(anchored)
    ensures InOrder(sorted)
    ensures tiles != [] ==> forall k :: 0 <= k < |sorted| ==> sorted[k].routeIndex < |tiles|
  {
    var anchored: seq<SpawnPoint> := [];
    for k := 0 to |spawns|
      invariant Anchored(tiles, z, spawns[..k], anchored)
    {
      var at := Resolve(spawns[k].place, z);
      var best := Anchor(tiles, at);
      anchored := anchored + [SpawnPoint(best, spawns[k].radius, at)];
    }
    assert spawns[..|spawns|] == spawns;
    sorted := SortByIndex(anchored);
    SortKeeps(anchored);
    if tiles != [] {
      forall k | 0 <= k < |sorted| ensures sorted[k].routeIndex < |tiles| {
        assert sorted[k] in multiset(sorted);
        assert sorted[k] in anchored;
      }
    }
  }

  // ---------------------------------------------------------------- legs

  /** Element `i` of the loop: after the last comes the first. */
  function Next<T>(s: seq<T>, i: nat): T
    requires 0 < |s| && i <= |s|
  {
    if i == |s| then s[0] else s[i]
  }

  /** `moves[cuts[i]..cuts[i + 1]]` is a shortest path from point `i` to the next, the last leg returning to the first. */
  ghost predicate Legs(m: Tilemap, points: seq<Point>, moves: seq<Point>, cuts: seq<nat>)
    requires |points| > 0
  {
    && 0 < |cuts| <= |points| + 1 && cuts[0] == 0 && cuts[|cuts| - 1] == |moves|
    && (forall i :: 0 <= i < |cuts| ==> cuts[i] <= |moves| && Replay(m, points[0], moves[..cuts[i]]) == Some(Next(points, i)))
    && forall i :: 0 <= i < |cuts| - 1 ==>
        cuts[i] <= cuts[i + 1] && ShortestLeg(m, Next(points, i), Next(points, i + 1), cuts[i + 1] - cuts[i])
  }

  ghost predicate ShortestLeg(m: Tilemap, from: Point, to: Point, length: nat) {
    forall p :: Replay(m, from, p) == Some(to) ==> length <= |p|
  }

  lemma NoLegs(m: Tilemap, points: seq<Point>)
    requires |points| > 0
    ensures Legs(m, points, [], [0])
  {
    var none: seq<Point> := [];
    assert none[..0] == none;
  }

  lemma LegsGrow(m: Tilemap, points: seq<Point>, moves: seq<Point>, cuts: seq<nat>, leg: seq<Point>)
    requires 0 < |points| && |cuts| <= |points| && Legs(m, points, moves, cuts)
    requires Replay(m, Next(points, |cuts| - 1), leg) == Some(Next(points, |cuts|))
    requires ShortestLeg(m, Next(points, |cuts| - 1), Next(points, |cuts|), |leg|)
    ensures Legs(m, points, moves + leg, cuts + [|moves + leg|])
  {
    hide CanMove, Landing, ShortestLeg;
    var all, ends := moves + leg, cuts + [|moves + leg|];
    assert moves[..|moves|] == moves && all[..|all|] == all;
    ReplayConcat(m, points[0], moves, leg);
    forall i | 0 <= i < |ends| ensures ends[i] <= |all| && Replay(m, points[0], all[..ends[i]]) == Some(Next(points, i)) {
      if i < |cuts| { assert all[..cuts[i]] == moves[..cuts[i]]; }
    }
  }

  function Resolved(via: seq<Waypoint>, z: int): (points: seq<Point>)
    ensures |points| == |via|
  {
    seq(|via|, i requires 0 <= i < |via| => Resolve(via[i], z))
  }

  ghost predicate GoodPoint(m: Tilemap, p: Point) {
    Open(m, p) && FloorChangeAt(m, p.x, p.y, p.z) == None
  }

  ghost predicate FirstBad(m: Tilemap, points: seq<Point>, i: nat) {
    i < |points| && !GoodPoint(m, points[i]) && forall j :: 0 <= j < i ==> GoodPoint(m, points[j])
  }

  method CheckPoints(m: Tilemap, points: seq<Point>) returns (error: Option<TraceError>)
    ensures error == None ==> forall i :: 0 <= i < |points| ==> GoodPoint(m, points[i])
    ensures forall i: nat :: error == Some(BlockedPoint(i)) ==> FirstBad(m, points, i) && !Open(m, points[i])
    ensures forall i: nat :: error == Some(StairPoint(i)) ==> FirstBad(m, points, i) && Open(m, points[i])
    ensures error.Some? ==> error.value.BlockedPoint? || error.value.StairPoint?
  {
    for i := 0 to |points|
      invariant forall j :: 0 <= j < i ==> GoodPoint(m, points[j])
    {
      var p := points[i];
      if IsBlocked(m, p.x, p.y, p.z) { return Some(BlockedPoint(i)); }
      if FloorChangeAt(m, p.x, p.y, p.z).Some? { return Some(StairPoint(i)); }
    }
    error := None;
  }

  /** Some path leads from point `i` to the next of the loop. */
  ghost predicate LegOpen(m: Tilemap, points: seq<Point>, i: nat)
    requires i < |points|
  {
    exists p :: Replay(m, points[i], p) == Some(Next(points, i + 1))
  }

  ghost predicate FirstClosed(m: Tilemap, points: seq<Point>, i: nat) {
    i < |points| && !LegOpen(m, points, i) && forall j :: 0 <= j < i ==> LegOpen(m, points, j)
  }

  ghost predicate AllGood(m: Tilemap, points: seq<Point>) {
    forall i :: 0 <= i < |points| ==> GoodPoint(m, points[i])
  }

  ghost predicate AllSame(points: seq<Point>) {
    forall i :: 0 <= i < |points| ==> points[i] == points[0]
  }

  /** What a tracer needs: good points that are not all one place, each reachable from the one before. */
  ghost predicate Traceable(m: Tilemap, points: seq<Point>) {
    && |points| >= 2 && AllGood(m, points) && !AllSame(points)
    && forall i :: 0 <= i < |points| ==> LegOpen(m, points, i)
  }

  /** All the legs of the loop, with enough steps to write a route. */
  ghost predicate Admissible(m: Tilemap, points: seq<Point>, moves: seq<Point>, cuts: seq<nat>) {
    |points| > 0 && |cuts| == |points| + 1 && Legs(m, points, moves, cuts) && |moves| >= 2
  }

  ghost predicate RightError(m: Tilemap, points: seq<Point>, error: TraceError) {
    match error
    case TooFewPoints => |points| < 2
    case BlockedPoint(i) => |points| >= 2 && FirstBad(m, points, i) && !Open(m, points[i])
    case StairPoint(i) => |points| >= 2 && FirstBad(m, points, i) && Open(m, points[i])
    case NoWay(i) => |points| >= 2 && AllGood(m, points) && FirstClosed(m, points, i)
    case TooShort => |points| >= 2 && AllGood(m, points) && AllSame(points)
  }

  ghost predicate RightTrace(m: Tilemap, z: int, points: seq<Point>, spawns: seq<SpawnRequest>,
                             traced: Traced, moves: seq<Point>, cuts: seq<nat>) {
    && Admissible(m, points, moves, cuts) && traced.tiles == RouteTiles(points[0], moves)
    && InOrder(traced.spawnPoints)
    && (exists anchored :: Anchored(traced.tiles, z, spawns, anchored) && traced.spawnPoints == SortByIndex(anchored))
    && forall k :: 0 <= k < |traced.spawnPoints| ==> traced.spawnPoints[k].routeIndex < |traced.tiles|
  }

  /** A shortest way from a place to itself has no steps. */
  lemma {:induction false} SameStaysPut(m: Tilemap, points: seq<Point>, moves: seq<Point>, cuts: seq<nat>, from: nat, i: nat)
    requires |points| > 0 && from <= i < |cuts| <= |points| + 1 && Legs(m, points, moves, cuts)
    requires forall j :: from <= j <= i ==> Next(points, j) == points[0]
    ensures cuts[i] == cuts[from]
  {
    if from < i {
      SameStaysPut(m, points, moves, cuts, from, i - 1);
      assert Replay(m, points[0], []) == Some(points[0]);
    }
  }

  /** The index of the last point that is not the first. */
  function LastOther(points: seq<Point>): (k: nat)
    requires !AllSame(points)
    ensures 0 < k < |points| && points[k] != points[0] && forall j :: k < j < |points| ==> points[j] == points[0]
  {
    if points[|points| - 1] != points[0] then |points| - 1
    else LastOther(points[..|points| - 1])
  }

  /** The leg that leaves the last other point ends the list of moves, and neither it nor what comes before is empty. */
  lemma LastLeg(m: Tilemap, points: seq<Point>, moves: seq<Point>, cuts: seq<nat>)
    requires !AllSame(points) && |cuts| == |points| + 1 && Legs(m, points, moves, cuts)
    ensures var k := LastOther(points);
            && 0 < cuts[k] < |moves| && Replay(m, points[0], moves[..cuts[k]]) == Some(points[k])
            && forall i :: k < i < |cuts| ==> Next(points, i) == points[0] && cuts[i] == |moves|
  {
    var k := LastOther(points);
    forall i | k < i < |cuts| ensures Next(points, i) == points[0] && cuts[i] == |moves| {
      SameStaysPut(m, points, moves, cuts, k + 1, i);
      SameStaysPut(m, points, moves, cuts, k + 1, |cuts| - 1);
    }
    assert Next(points, k) == points[k];
    assert moves[..0] == [] && Replay(m, points[0], []) == Some(points[0]);
    assert cuts[k] != |moves|;
  }

  method Trace(m: Tilemap, z: int, via: seq<Waypoint>, spawns: seq<SpawnRequest>)
    returns (r: Result<Traced, TraceError>, ghost moves: seq<Point>, ghost cuts: seq<nat>)
    ensures r.Ok? <==> Traceable(m, Resolved(via, z))
    ensures r.Err? ==> RightError(m, Resolved(via, z), r.error)
    ensures r.Ok? ==> RightTrace(m, z, Resolved(via, z), spawns, r.value, moves, cuts)
  {
    hide Legs, Replay, LegOpen, GoodPoint, InOrder, Anchored, AllSame;
    moves, cuts := [], [0];
    var points := Resolved(via, z);
    if |via| < 2 { return Err(TooFewPoints), moves, cuts; }
    var bad := CheckPoints(m, points);
    if bad.Some? { return Err(bad.value), moves, cuts; }
    var tiles := [points[0]];
    NoLegs(m, points);
    for i := 0 to |points|
      invariant |cuts| == i + 1 <= |points| + 1 && Legs(m, points, moves, cuts) && tiles == [points[0]] + moves
      invariant forall j :: 0 <= j < i ==> LegOpen(m, points, j)
    {
      var from, to := Next(points, i), Next(points, i + 1);
      assert Resolve(Waypoint(from.x, from.y, Some(from.z)), z) == from && Resolve(Waypoint(to.x, to.y, Some(to.z)), z) == to;
      var path := ShortestPath(m, z, Waypoint(from.x, from.y, Some(from.z)), Waypoint(to.x, to.y, Some(to.z)));
      LegFound(m, points, i, path);
      if path.None? { return Err(NoWay(i)), moves, cuts; }
      LegsGrow(m, points, moves, cuts, path.value);
      tiles := tiles + path.value;
      moves := moves + path.value;
      cuts := cuts + [|moves|];
    }
    tiles := tiles[..|tiles| - 1];
    TooShortIffSame(m, points, moves, cuts);
    if |tiles| < 2 { return Err(TooShort), moves, cuts; }
    var spawnPoints := AnchorSpawnPoints(tiles, z, spawns);
    r := Ok(Traced(tiles, spawnPoints));
  }

  lemma LegFound(m: Tilemap, points: seq<Point>, i: nat, path: Option<seq<Point>>)
    requires i < |points|
    requires path.None? ==> forall p :: Replay(m, points[i], p) != Some(Next(points, i + 1))
    requires path.Some? ==> Replay(m, points[i], path.value) == Some(Next(points, i + 1))
    ensures path.Some? <==> LegOpen(m, points, i)
  {}

  /** All legs together have fewer than two steps exactly when all points are one place. */
  lemma TooShortIffSame(m: Tilemap, points: seq<Point>, moves: seq<Point>, cuts: seq<nat>)
    requires |points| > 0 && |cuts| == |points| + 1 && Legs(m, points, moves, cuts)
    ensures |moves| < 2 <==> AllSame(points)
  {
    if AllSame(points) {
      SameStaysPut(m, points, moves, cuts, 0, |points|);
    } else {
      LastLeg(m, points, moves, cuts);
    }
  }

  // ---------------------------------------------------------------- a traced route passes the checks

  /** The written tiles: the first point, then every step but the one that closes the loop. */
  function RouteTiles(first: Point, moves: seq<Point>): seq<Point>
    requires |moves| > 0
  {
    [first] + moves[..|moves| - 1]
  }

  lemma ReplaySnoc(m: Tilemap, at: Point, points: seq<Point>, p: Point)
    ensures Replay(m, at, points + [p])
         == if Replay(m, at, points).Some? && CanMove(m, Replay(m, at, points).value, p) then Some(Landing(m, p)) else None
  {
    hide CanMove, Landing;
    ReplayConcat(m, at, points, [p]);
    assert [p][1..] == [];
  }

  /** Every prefix of a path that works works, and so does the step after it. */
  lemma ReplayPrefix(m: Tilemap, first: Point, moves: seq<Point>, i: nat)
    requires i < |moves| && Replay(m, first, moves).Some?
    ensures Replay(m, first, moves[..i]).Some? && CanMove(m, Replay(m, first, moves[..i]).value, moves[i])
    ensures Replay(m, first, moves[..i + 1]) == Some(Landing(m, moves[i]))
  {
    hide CanMove, Landing;
    assert moves == moves[..i + 1] + moves[i + 1..];
    ReplayConcat(m, first, moves[..i + 1], moves[i + 1..]);
    assert moves[..i + 1] == moves[..i] + [moves[i]];
    ReplaySnoc(m, first, moves[..i], moves[i]);
  }

  lemma {:induction false} TracedAt(m: Tilemap, first: Point, moves: seq<Point>, i: nat)
    requires i < |moves| && Replay(m, first, moves).Some?
    ensures Replay(m, first, moves[..i]) == Some(At(m, RouteTiles(first, moves), i))
    ensures CanMove(m, At(m, RouteTiles(first, moves), i), moves[i])
  {
    ReplayPrefix(m, first, moves, i);
    if i > 0 {
      TracedAt(m, first, moves, i - 1);
      ReplayPrefix(m, first, moves, i - 1);
      MoveIsAfter(m, At(m, RouteTiles(first, moves), i - 1), moves[i - 1]);
      hide CanMove, Landing, After;
      assert NextTile(RouteTiles(first, moves), i - 1) == moves[i - 1];
      assert moves[..i - 1 + 1] == moves[..i];
    } else {
      assert moves[..0] == [];
    }
  }

  lemma MoveIsAfter(m: Tilemap, at: Point, p: Point)
    requires CanMove(m, at, p)
    ensures After(m, at, p) == Landing(m, p) && OneStep(at, p) && p.z == at.z && Open(m, p)
  {
    hide IsBlocked;
  }

  lemma TracedStep(m: Tilemap, first: Point, moves: seq<Point>, i: nat)
    requires i < |moves| - 1 && Replay(m, first, moves).Some?
    ensures var tiles := RouteTiles(first, moves);
            |tiles| == |moves| && GoodStep(m, tiles, i) && Open(m, tiles[i + 1])
  {
    TracedAt(m, first, moves, i);
    MoveIsAfter(m, At(m, RouteTiles(first, moves), i), moves[i]);
    hide After, CanMove;
    assert NextTile(RouteTiles(first, moves), i) == moves[i];
  }

  /** Every step but the closing one is good, and every tile is open. */
  lemma TracedSteps(m: Tilemap, first: Point, moves: seq<Point>, spawnIndices: seq<nat>)
    requires |moves| >= 2 && Open(m, first) && Replay(m, first, moves).Some?
    requires forall k :: 0 <= k < |spawnIndices| ==> spawnIndices[k] < |moves|
    ensures var route := Route(RouteTiles(first, moves), spawnIndices);
            Accepted(m, route) <==> GoodStep(m, route.tiles, |moves| - 1)
  {
    hide Replay, Open, GoodStep;
    var tiles := RouteTiles(first, moves);
    forall i | 0 <= i < |tiles| ensures Open(m, tiles[i]) {
      if i > 0 { TracedStep(m, first, moves, i - 1); }
    }
    forall i | 0 <= i < |tiles| - 1 ensures GoodStep(m, tiles, i) {
      TracedStep(m, first, moves, i);
    }
  }

  /** All legs together return to the first point. */
  lemma LegsReturn(m: Tilemap, points: seq<Point>, moves: seq<Point>, cuts: seq<nat>)
    requires |points| > 0 && |cuts| == |points| + 1 && Legs(m, points, moves, cuts)
    ensures Replay(m, points[0], moves) == Some(points[0])
  {
    hide Replay;
    assert moves[..cuts[|points|]] == moves && Next(points, |points|) == points[0];
  }

  /** The last move of the leg starts one step from where it ends, on the same floor. */
  ghost predicate Closes(m: Tilemap, from: Point, to: Point, leg: seq<Point>) {
    |leg| > 0 && var near := Replay(m, from, leg[..|leg| - 1]);
    near.Some? && OneStep(near.value, to) && to.z == near.value.z
  }

  /** Every shortest way from one place to the other ends with a plain step onto it. */
  ghost predicate ClosesWell(m: Tilemap, from: Point, to: Point) {
    forall p :: Replay(m, from, p) == Some(to) && ShortestLeg(m, from, to, |p|) ==> Closes(m, from, to, p)
  }

  /** One trace passes the checks exactly when its way back from the last other point ends with a plain step. */
  lemma TraceAccepted(m: Tilemap, points: seq<Point>, moves: seq<Point>, cuts: seq<nat>, spawnIndices: seq<nat>)
    requires Admissible(m, points, moves, cuts) && AllGood(m, points) && !AllSame(points)
    requires forall k :: 0 <= k < |spawnIndices| ==> spawnIndices[k] < |moves|
    ensures var k := LastOther(points);
            && cuts[k] <= |moves|
            && (Problems(m, Route(RouteTiles(points[0], moves), spawnIndices)) == []
                <==> Closes(m, points[k], points[0], moves[cuts[k]..]))
  {
    hide Replay, Problems, Open, FloorChangeAt, At;
    var first, k, last := points[0], LastOther(points), |moves| - 1;
    LegsReturn(m, points, moves, cuts);
    LastLeg(m, points, moves, cuts);
    assert GoodPoint(m, first);
    TracedSteps(m, first, moves, spawnIndices);
    NoProblemsIffAccepted(m, Route(RouteTiles(first, moves), spawnIndices));
    TracedAt(m, first, moves, last);
    var leg := moves[cuts[k]..];
    assert moves[..last] == moves[..cuts[k]] + leg[..|leg| - 1];
    ReplayConcat(m, first, moves[..cuts[k]], leg[..|leg| - 1]);
    assert NextTile(RouteTiles(first, moves), last) == first;
  }

  ghost predicate PassesChecks(m: Tilemap, first: Point, moves: seq<Point>)
    requires |moves| > 0
  {
    forall spawnIndices: seq<nat> :: (forall k :: 0 <= k < |spawnIndices| ==> spawnIndices[k] < |moves|) ==>
      Problems(m, Route(RouteTiles(first, moves), spawnIndices)) == []
  }

  ghost predicate EveryTraceAccepted(m: Tilemap, points: seq<Point>) {
    forall moves, cuts :: Admissible(m, points, moves, cuts) ==> PassesChecks(m, points[0], moves)
  }

  /** The last leg of a trace replaced by another shortest way back. */
  lemma OtherWayBack(m: Tilemap, points: seq<Point>, moves: seq<Point>, cuts: seq<nat>, back: seq<Point>)
    returns (others: seq<Point>)
    requires Admissible(m, points, moves, cuts) && !AllSame(points)
    requires var q := points[LastOther(points)];
             Replay(m, q, back) == Some(points[0]) && ShortestLeg(m, q, points[0], |back|)
    ensures Admissible(m, points, others, cuts) && cuts[LastOther(points)] <= |others|
    ensures others[cuts[LastOther(points)]..] == back
  {
    hide CanMove, Landing, ShortestLeg;
    var k := LastOther(points);
    LastLeg(m, points, moves, cuts);
    LastLegLength(m, points, moves, cuts, back);
    others := moves[..cuts[k]] + back;
    ReplayConcat(m, points[0], moves[..cuts[k]], back);
    assert others[..|others|] == others;
    forall i | 0 <= i < |cuts|
      ensures cuts[i] <= |others| && Replay(m, points[0], others[..cuts[i]]) == Some(Next(points, i))
    {
      if i <= k {
        CutsGrow(m, points, moves, cuts, i, k);
        assert others[..cuts[i]] == moves[..cuts[i]];
      }
    }
  }

  lemma {:induction false} CutsGrow(m: Tilemap, points: seq<Point>, moves: seq<Point>, cuts: seq<nat>, i: nat, j: nat)
    requires |points| > 0 && Legs(m, points, moves, cuts) && i <= j < |cuts|
    ensures cuts[i] <= cuts[j]
  {
    if i < j { CutsGrow(m, points, moves, cuts, i, j - 1); }
  }

  /** Two shortest ways back have one length. */
  lemma LastLegLength(m: Tilemap, points: seq<Point>, moves: seq<Point>, cuts: seq<nat>, back: seq<Point>)
    requires Admissible(m, points, moves, cuts) && !AllSame(points)
    requires var q := points[LastOther(points)];
             Replay(m, q, back) == Some(points[0]) && ShortestLeg(m, q, points[0], |back|)
    ensures cuts[LastOther(points)] + |back| == |moves|
  {
    var k := LastOther(points);
    LastLeg(m, points, moves, cuts);
    LastLegReturns(m, points, moves, cuts);
    assert ShortestLeg(m, Next(points, k), Next(points, k + 1), cuts[k + 1] - cuts[k]);
  }

  lemma LastLegReturns(m: Tilemap, points: seq<Point>, moves: seq<Point>, cuts: seq<nat>)
    requires Admissible(m, points, moves, cuts) && !AllSame(points)
    ensures var k := LastOther(points);
            && cuts[k] <= |moves| && Replay(m, points[k], moves[cuts[k]..]) == Some(points[0])
            && ShortestLeg(m, points[k], points[0], |moves| - cuts[k])
  {
    hide Replay;
    var k := LastOther(points);
    LastLeg(m, points, moves, cuts);
    LegsReturn(m, points, moves, cuts);
    assert moves == moves[..cuts[k]] + moves[cuts[k]..];
    ReplayConcat(m, points[0], moves[..cuts[k]], moves[cuts[k]..]);
    assert ShortestLeg(m, Next(points, k), Next(points, k + 1), cuts[k + 1] - cuts[k]);
  }

  lemma {:induction false} ShortestExists(m: Tilemap, from: Point, to: Point, p: seq<Point>) returns (shortest: seq<Point>)
    requires Replay(m, from, p) == Some(to)
    ensures Replay(m, from, shortest) == Some(to) && ShortestLeg(m, from, to, |shortest|)
    decreases |p|
  {
    if ShortestLeg(m, from, to, |p|) {
      shortest := p;
    } else {
      var shorter :| Replay(m, from, shorter) == Some(to) && |shorter| < |p|;
      shortest := ShortestExists(m, from, to, shorter);
    }
  }

  lemma {:induction false} TraceExists(m: Tilemap, points: seq<Point>, n: nat) returns (moves: seq<Point>, cuts: seq<nat>)
    requires n <= |points| && |points| > 0 && forall i :: 0 <= i < |points| ==> LegOpen(m, points, i)
    ensures |cuts| == n + 1 && Legs(m, points, moves, cuts)
  {
    if n == 0 {
      NoLegs(m, points);
      moves, cuts := [], [0];
    } else {
      moves, cuts := TraceExists(m, points, n - 1);
      assert LegOpen(m, points, n - 1);
      var p :| Replay(m, points[n - 1], p) == Some(Next(points, n));
      hide Legs, Replay, ShortestLeg;
      var leg := ShortestExists(m, points[n - 1], Next(points, n), p);
      LegsGrow(m, points, moves, cuts, leg);
      moves, cuts := moves + leg, cuts + [|moves + leg|];
    }
  }

  /**
   * Whatever shortest legs are taken the route passes the checks, exactly when every shortest way back to the start
   * closes well.
   */
  lemma TracedRouteAccepted(m: Tilemap, points: seq<Point>)
    requires Traceable(m, points)
    ensures EveryTraceAccepted(m, points) <==> ClosesWell(m, points[LastOther(points)], points[0])
  {
    hide Legs, Replay, Problems, Closes, ShortestLeg, LegOpen, AllGood, AllSame;
    var q, first := points[LastOther(points)], points[0];
    if ClosesWell(m, q, first) {
      forall moves, cuts | Admissible(m, points, moves, cuts) ensures PassesChecks(m, first, moves) {
        LastLegReturns(m, points, moves, cuts);
        forall spawnIndices: seq<nat> | forall k :: 0 <= k < |spawnIndices| ==> spawnIndices[k] < |moves|
          ensures Problems(m, Route(RouteTiles(first, moves), spawnIndices)) == []
        {
          TraceAccepted(m, points, moves, cuts, spawnIndices);
        }
      }
    } else {
      var back :| Replay(m, q, back) == Some(first) && ShortestLeg(m, q, first, |back|) && !Closes(m, q, first, back);
      var moves, cuts := TraceExists(m, points, |points|);
      TooShortIffSame(m, points, moves, cuts);
      var others := OtherWayBack(m, points, moves, cuts, back);
      TraceAccepted(m, points, others, cuts, []);
      assert !PassesChecks(m, first, others);
    }
  }

  /** A first point where no stair lands is closed on well from everywhere. */
  lemma PlainStartClosesWell(m: Tilemap, from: Point, first: Point)
    requires from != first && first !in m.floorChanges.Values
    ensures ClosesWell(m, from, first)
  {
    forall p | Replay(m, from, p) == Some(first) ensures Closes(m, from, first, p) {
      var last := |p| - 1;
      ReplayPrefix(m, from, p, last);
      assert p[..last + 1] == p;
      MoveIsAfter(m, Replay(m, from, p[..last]).value, p[last]);
    }
  }

  /** A corridor of four tiles whose last tile is a stair back to the first. */
  const CORRIDOR := Tilemap(4, 1, 0, map[0 := Floor([false, false, false, false], None, None)],
                            map[TileKey(3, 0, 0) := Place(0)], map[])

  function Place(x: int): Point { Point(x, 0, 0) }

  const AROUND := [Place(1), Place(2), Place(3)]

  lemma CorridorFacts()
    ensures forall x :: 0 <= x < 3 ==> GoodPoint(CORRIDOR, Place(x))
    ensures forall x :: 0 <= x < 3 ==> CanMove(CORRIDOR, Place(x), Place(x + 1))
    ensures forall x :: 0 <= x < 4 ==> Landing(CORRIDOR, Place(x)) == if x == 3 then Place(0) else Place(x)
  {}

  lemma ReplayOne(m: Tilemap, at: Point, p: Point, rest: seq<Point>)
    requires CanMove(m, at, p)
    ensures Replay(m, at, [p] + rest) == Replay(m, Landing(m, p), rest)
  {
    hide CanMove, Landing;
    assert ([p] + rest)[1..] == rest;
  }

  lemma CorridorWalk()
    ensures Replay(CORRIDOR, Place(0), [Place(1), Place(2)]) == Some(Place(2))
    ensures Replay(CORRIDOR, Place(0), AROUND) == Some(Place(0))
  {
    CorridorFacts();
    hide CanMove, Landing, GoodPoint;
    assert [Place(1)] + [Place(2)] == [Place(1), Place(2)] && [Place(2)] + [] == [Place(2)];
    ReplayOne(CORRIDOR, Place(0), Place(1), [Place(2)]);
    ReplayOne(CORRIDOR, Place(1), Place(2), []);
    assert [Place(1), Place(2)] + [Place(3)] == AROUND;
    ReplaySnoc(CORRIDOR, Place(0), [Place(1), Place(2)], Place(3));
  }

  lemma TwoStepsAtLeast(p: seq<Point>)
    requires Replay(CORRIDOR, Place(0), p) == Some(Place(2))
    ensures |p| >= 2
  {
    CorridorFacts();
    hide IsBlocked;
    if |p| > 0 { assert Landing(CORRIDOR, p[0]) != Place(2); }
  }

  lemma CorridorShortest()
    ensures ShortestLeg(CORRIDOR, Place(0), Place(2), 2)
    ensures ShortestLeg(CORRIDOR, Place(2), Place(0), 1)
  {
    hide CanMove, Landing;
    forall p | Replay(CORRIDOR, Place(0), p) == Some(Place(2)) ensures 2 <= |p| { TwoStepsAtLeast(p); }
  }

  lemma AroundPrefixes()
    ensures AROUND[..2] == [Place(1), Place(2)] && [Place(1), Place(2)] + [Place(3)] == AROUND
  {}

  /** Out and back between two points, both ways shortest. */
  lemma TwoLegs(m: Tilemap, points: seq<Point>, out: seq<Point>, back: seq<Point>)
    requires |points| == 2
    requires Replay(m, points[0], out) == Some(points[1]) && ShortestLeg(m, points[0], points[1], |out|)
    requires Replay(m, points[1], back) == Some(points[0]) && ShortestLeg(m, points[1], points[0], |back|)
    ensures Legs(m, points, out + back, [0] + [|out|] + [|out + back|])
  {
    hide Legs, ShortestLeg, Replay;
    NoLegs(m, points);
    LegsGrow(m, points, [], [0], out);
    assert [] + out == out;
    LegsGrow(m, points, out, [0] + [|out|], back);
  }

  lemma CorridorBack()
    ensures Replay(CORRIDOR, Place(2), [Place(3)]) == Some(Place(0))
  {
    CorridorFacts();
    ReplayOne(CORRIDOR, Place(2), Place(3), []);
    assert [Place(3)] + [] == [Place(3)];
  }

  lemma CorridorLegs()
    ensures Legs(CORRIDOR, [Place(0), Place(2)], AROUND, [0] + [2] + [3])
  {
    hide Legs, ShortestLeg, Replay, Landing, CanMove, GoodPoint, Place;
    CorridorBack();
    CorridorShortest();
    CorridorWalk();
    AroundPrefixes();
    TwoLegs(CORRIDOR, [Place(0), Place(2)], [Place(1), Place(2)], [Place(3)]);
  }

  lemma CorridorOpen()
    ensures !Closes(CORRIDOR, Place(2), Place(0), AROUND[2..]) && !ClosesWell(CORRIDOR, Place(2), Place(0))
  {
    assert AROUND[2..] == [Place(3)] && [Place(3)][..0] == [];
    CorridorBack();
    CorridorShortest();
  }

  /**
   * When the first point is a stair's landing the shortest way back may end on the stair. The route
   * through 0 and 2 is then written without its last step, and the checks find the loop open.
   */
  lemma LandingStartRejected()
    ensures Admissible(CORRIDOR, [Place(0), Place(2)], AROUND, [0] + [2] + [3])
    ensures AllGood(CORRIDOR, [Place(0), Place(2)]) && !ClosesWell(CORRIDOR, Place(2), Place(0))
    ensures Problems(CORRIDOR, Route(RouteTiles(Place(0), AROUND), [])) != []
  {
    CorridorLegs();
    CorridorFacts();
    CorridorOpen();
    hide CanMove, Landing, GoodPoint, Replay, Legs, Problems, FloorChangeAt;
    var points := [Place(0), Place(2)];
    assert points[1] != points[0];
    TraceAccepted(CORRIDOR, points, AROUND, [0] + [2] + [3], []);
  }

  function Indices(points: seq<SpawnPoint>): seq<nat> {
    seq(|points|, k requires 0 <= k < |points| => points[k].routeIndex)
  }

  lemma FirstIsGood(m: Tilemap, points: seq<Point>)
    requires |points| > 0 && AllGood(m, points)
    ensures GoodPoint(m, points[0])
  {}

  /** A traced route without problems can be walked for ever: any number of laps returns to its first tile. */
  lemma TracedRouteLoops(m: Tilemap, first: Point, moves: seq<Point>, spawnIndices: seq<nat>)
    requires GoodPoint(m, first) && |moves| > 0
    requires Problems(m, Route(RouteTiles(first, moves), spawnIndices)) == []
    ensures var tiles := RouteTiles(first, moves); forall count :: Walk(m, first, Laps(tiles, count)) == Some(first)
  {
    var route := Route(RouteTiles(first, moves), spawnIndices);
    NoProblemsIffAccepted(m, route);
    AcceptedRouteLoops(m, route);
    hide Problems, Accepted, Walk, Laps;
    assert Landing(m, first) == first;
  }

  /**
   * Tracing and then checking: the problems are those of the traced route, and there are none exactly when its way
   * back closes.
   */
  method TraceAndValidate(m: Tilemap, z: int, via: seq<Waypoint>, spawns: seq<SpawnRequest>)
    returns (r: Result<Traced, TraceError>, problems: seq<Problem>, ghost moves: seq<Point>, ghost cuts: seq<nat>)
    ensures r.Ok? <==> Traceable(m, Resolved(via, z))
    ensures r.Err? ==> RightError(m, Resolved(via, z), r.error) && problems == []
    ensures r.Ok? ==> RightTrace(m, z, Resolved(via, z), spawns, r.value, moves, cuts)
    ensures r.Ok? ==> problems == Problems(m, Route(r.value.tiles, Indices(r.value.spawnPoints)))
    ensures r.Ok? ==> var points := Resolved(via, z); var k := LastOther(points);
                      && (problems == [] <==> Closes(m, points[k], points[0], moves[cuts[k]..]))
                      && (ClosesWell(m, points[k], points[0]) ==> problems == [])
    ensures r.Ok? && problems == [] ==>
              var tiles := r.value.tiles; tiles != [] && forall count :: Walk(m, tiles[0], Laps(tiles, count)) == Some(tiles[0])
  {
    hide Legs, Replay, Problems, Anchored, InOrder, Closes, LegOpen, AllGood, AllSame, ShortestLeg, Walk, Laps, GoodPoint;
    r, moves, cuts := Trace(m, z, via, spawns);
    problems := [];
    if r.Ok? {
      var indices := Indices(r.value.spawnPoints);
      problems := ValidateRoute(m, Route(r.value.tiles, indices));
      TraceAccepted(m, Resolved(via, z), moves, cuts, indices);
      LastLegReturns(m, Resolved(via, z), moves, cuts);
      if problems == [] { FirstIsGood(m, Resolved(via, z)); TracedRouteLoops(m, Resolved(via, z)[0], moves, indices); }
    }
  }
}
