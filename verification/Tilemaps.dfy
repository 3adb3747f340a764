/** The tilemap in memory and the lookups the routes are judged by. */
module Tilemaps {
  import opened Wrappers

  datatype Point = Point(x: int, y: int, z: int)

  const DEFAULT_GROUND_SPEED := 150

  /** Flat layers, one entry per tile at `y * width + x`; an absent layer restricts nothing. */
  datatype Floor = Floor(blocked: seq<bool>, speed: Option<seq<int>>, zones: Option<seq<int>>)

  /** Stepping on `from` leads to `to`. */
  datatype FloorChange = FloorChange(from: Point, to: Point)

  datatype Tilemap = Tilemap(
    width: nat, height: nat, z: int, floors: map<int, Floor>,
    floorChanges: map<int, Point>, floorChangesByFloor: map<int, seq<FloorChange>>)

  function TileKey(x: int, y: int, z: int): int {
    ((z + 16) * 100000 + x) * 100000 + y
  }

  lemma NoCarry(high: int, low: int)
    requires high * 100000 + low == 0 && -100000 < low < 100000
    ensures high == 0 && low == 0
  {}

  /** Keys tell tiles apart as long as both coordinates have at most five digits. */
  lemma TileKeyInjective(a: Point, b: Point)
    requires 0 <= a.x < 100000 && 0 <= a.y < 100000 && 0 <= b.x < 100000 && 0 <= b.y < 100000
    ensures TileKey(a.x, a.y, a.z) == TileKey(b.x, b.y, b.z) <==> a == b
  {
    if TileKey(a.x, a.y, a.z) == TileKey(b.x, b.y, b.z) {
      NoCarry((a.z - b.z) * 100000 + (a.x - b.x), a.y - b.y);
      NoCarry(a.z - b.z, a.x - b.x);
    }
  }

  predicate InArea(width: int, height: int, p: Point) { 0 <= p.x < width && 0 <= p.y < height }

  /** Every tile of every floor of an area has a key of its own. */
  ghost predicate KeysDiffer(width: int, height: int) {
    forall a: Point, b: Point :: InArea(width, height, a) && InArea(width, height, b) ==>
      (TileKey(a.x, a.y, a.z) == TileKey(b.x, b.y, b.z) ==> a == b)
  }

  /** Two tiles one row or one floor apart share a key as soon as they are far enough apart otherwise. */
  lemma TileKeyCollides(z: int)
    ensures TileKey(0, 100000, z) == TileKey(1, 0, z) && TileKey(100000, 0, z) == TileKey(0, 0, z + 1)
    ensures TileKey(0, 10000000000, z) == TileKey(0, 0, z + 1)
  {}

  lemma OneColumn(a: Point, b: Point)
    requires a.x == 0 && b.x == 0 && 0 <= a.y < 10000000000 && 0 <= b.y < 10000000000
    ensures TileKey(a.x, a.y, a.z) == TileKey(b.x, b.y, b.z) ==> a == b
  {}

  predicate SmallArea(width: int, height: int) {
    width <= 0 || height <= 0 || (width <= 100000 && height <= 100000) || (width == 1 && height <= 10000000000)
  }

  lemma SmallAreaDiffers(width: int, height: int, a: Point, b: Point)
    requires SmallArea(width, height) && InArea(width, height, a) && InArea(width, height, b)
    ensures TileKey(a.x, a.y, a.z) == TileKey(b.x, b.y, b.z) ==> a == b
  {
    hide TileKey;
    if height <= 100000 && width <= 100000 { TileKeyInjective(a, b); } else { OneColumn(a, b); }
  }

  /** Outside those bounds two tiles of the area share a key. */
  lemma LargeAreaCollides(width: int, height: int) returns (a: Point, b: Point)
    requires !SmallArea(width, height)
    ensures InArea(width, height, a) && InArea(width, height, b)
    ensures TileKey(a.x, a.y, a.z) == TileKey(b.x, b.y, b.z) && a != b
  {
    TileKeyCollides(0);
    hide TileKey;
    if width > 100000 {
      a, b := Point(100000, 0, 0), Point(0, 0, 1);
    } else if width > 1 {
      a, b := Point(0, 100000, 0), Point(1, 0, 0);
    } else {
      a, b := Point(0, 10000000000, 0), Point(0, 0, 1);
    }
  }

  /** The exact bound: both sides of at most 100000, unless the area is empty or one column of at most ten thousand million. */
  lemma KeysDifferIff(width: int, height: int)
    ensures KeysDiffer(width, height) <==> SmallArea(width, height)
  {
    hide TileKey, InArea, SmallArea;
    if SmallArea(width, height) {
      forall a: Point, b: Point | InArea(width, height, a) && InArea(width, height, b)
        ensures TileKey(a.x, a.y, a.z) == TileKey(b.x, b.y, b.z) ==> a == b
      {
        SmallAreaDiffers(width, height, a, b);
      }
    } else {
      var a, b := LargeAreaCollides(width, height);
    }
  }

  predicate InBounds(m: Tilemap, x: int, y: int) {
    0 <= x < m.width && 0 <= y < m.height
  }

  /** Reading a typed array: outside its length there is nothing. */
  function Read<T>(layer: seq<T>, i: int, missing: T): T {
    if 0 <= i < |layer| then layer[i] else missing
  }

  predicate IsBlocked(m: Tilemap, x: int, y: int, z: int) {
    !InBounds(m, x, y) || z !in m.floors || Read(m.floors[z].blocked, y * m.width + x, false)
  }

  function GroundSpeed(m: Tilemap, x: int, y: int, z: int): int {
    if !InBounds(m, x, y) || z !in m.floors || m.floors[z].speed.None? then DEFAULT_GROUND_SPEED
    else Read(m.floors[z].speed.value, y * m.width + x, DEFAULT_GROUND_SPEED)
  }

  function ZoneFlagsAt(m: Tilemap, x: int, y: int, z: int): int {
    if !InBounds(m, x, y) || z !in m.floors || m.floors[z].zones.None? then 0
    else Read(m.floors[z].zones.value, y * m.width + x, 0)
  }

  function FloorChangeAt(m: Tilemap, x: int, y: int, z: int): Option<Point> {
    var key := TileKey(x, y, z);
    if key in m.floorChanges then Some(m.floorChanges[key]) else None
  }

  // ---------------------------------------------------------------- moving on the map

  /** Where whoever steps on `p` ends up standing. */
  function Landing(m: Tilemap, p: Point): Point {
    var change := FloorChangeAt(m, p.x, p.y, p.z);
    if change.Some? then change.value else p
  }

  function Abs(v: int): nat { if v < 0 then -v else v }

  /** One tile away, in any of the eight directions. */
  predicate OneStep(at: Point, p: Point) {
    Abs(p.x - at.x) <= 1 && Abs(p.y - at.y) <= 1 && Abs(p.x - at.x) + Abs(p.y - at.y) > 0
  }

  predicate Cardinal(at: Point, p: Point) {
    Abs(p.x - at.x) + Abs(p.y - at.y) == 1
  }

  predicate Open(m: Tilemap, p: Point) { !IsBlocked(m, p.x, p.y, p.z) }

  /** A step of the walker: an open tile of the floor one stands on, one tile away. */
  predicate CanStep(m: Tilemap, at: Point, p: Point) {
    OneStep(at, p) && p.z == at.z && Open(m, p)
  }

  /** Stepping on the points in order; `None` as soon as one of them cannot be stepped on. */
  function Walk(m: Tilemap, at: Point, points: seq<Point>): Option<Point>
    decreases |points|
  {
    if points == [] then Some(at)
    else if !CanStep(m, at, points[0]) then None
    else Walk(m, Landing(m, points[0]), points[1..])
  }

  lemma {:induction false} WalkConcat(m: Tilemap, at: Point, a: seq<Point>, b: seq<Point>)
    ensures Walk(m, at, a + b)
         == if Walk(m, at, a).Some? then Walk(m, Walk(m, at, a).value, b) else None
    decreases |a|
  {
    if a == [] {
      assert a + b == b;
    } else {
      assert (a + b)[1..] == a[1..] + b;
      WalkConcat(m, Landing(m, a[0]), a[1..], b);
    }
  }
}
