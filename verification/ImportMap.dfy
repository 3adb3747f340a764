/** Importing a region of the world: the last record of each tile, cut to a walkable component, drawn as rows of characters. */
module ImportMap {
  import opened Wrappers
  import opened Walks
  import opened Tilemaps
  import opened Otbm
  import Text = BuildTilemap
  import Census

  // ---------------------------------------------------------------- collecting

  function PositionOf(t: Tile): Point { Point(t.x, t.y, t.z) }

  type Tiles = map<Point, Tile>

  /** The last record of every position. */
  function LastRecords(source: seq<Tile>): Tiles {
    if source == [] then map[]
    else LastRecords(source[..|source| - 1])[PositionOf(source[|source| - 1]) := source[|source| - 1]]
  }

  lemma RecordSize(tiles: Tiles, k: Point, t: Tile)
    ensures |tiles[k := t]| == if k in tiles then |tiles| else |tiles| + 1
  {
    assert tiles[k := t].Keys == tiles.Keys + {k};
  }

  method CollectTiles(source: seq<Tile>) returns (tiles: Tiles, conflicts: nat, read: nat)
    ensures tiles == LastRecords(source)
    ensures read == |source| && conflicts == |source| - |tiles|
  {
    tiles, conflicts, read := map[], 0, 0;
    for i := 0 to |source|
      invariant tiles == LastRecords(source[..i])
      invariant read == i && conflicts + |tiles| == i
    {
      read := read + 1;
      var k := PositionOf(source[i]);
      assert source[..i + 1] == source[..i] + [source[i]] && source[..i + 1][..i] == source[..i];
      RecordSize(tiles, k, source[i]);
      if k in tiles { conflicts := conflicts + 1; }
      tiles := tiles[k := source[i]];
    }
    assert source[..|source|] == source;
  }

  ghost function PlacesOf(keys: set<Point>): set<Census.Place>
    requires forall p :: p in keys ==> p.x >= 0 && p.y >= 0 && p.z >= 0
  {
    set p | p in keys :: (p.x as nat, p.y as nat, p.z as nat)
  }

  lemma {:induction false} PlacesOfSize(keys: set<Point>)
    requires forall p :: p in keys ==> p.x >= 0 && p.y >= 0 && p.z >= 0
    ensures |PlacesOf(keys)| == |keys|
  {
    if keys != {} {
      var p :| p in keys;
      PlacesOfSize(keys - {p});
      assert PlacesOf(keys) == PlacesOf(keys - {p}) + {(p.x as nat, p.y as nat, p.z as nat)};
    }
  }

  lemma {:induction false} RecordsAt(source: seq<Tile>, p: Point)
    ensures p in LastRecords(source) <==> exists t :: t in source && PositionOf(t) == p
    ensures p in LastRecords(source) ==> LastRecords(source)[p] in source && PositionOf(LastRecords(source)[p]) == p
  {
    if source != [] {
      var n := |source| - 1;
      RecordsAt(source[..n], p);
      assert source == source[..n] + [source[n]];
      assert source[n] in source;
    }
  }

  /**
   * The importer keeps one tile for each distinct place, as the world builder does; so does the census exactly when
   * these are apart.
   */
  lemma RecordsCountPlaces(source: seq<Tile>)
    ensures |LastRecords(source)| == |Census.Places(source)|
    ensures |LastRecords(source)| == |Census.Firsts(source)| <==> Census.Apart(source)
  {
    Census.CountIsExact(source);
    var records := LastRecords(source);
    forall p ensures p in records <==> exists t :: t in source && PositionOf(t) == p { RecordsAt(source, p); }
    assert forall p :: p in records.Keys ==> p.x >= 0 && p.y >= 0 && p.z >= 0;
    PlacesOfSize(records.Keys);
    forall place ensures place in PlacesOf(records.Keys) <==> place in Census.Places(source) {
      if place in Census.Places(source) {
        var t :| t in source && Census.PlaceOf(t) == place;
        assert PositionOf(t) in records.Keys;
      }
    }
    assert PlacesOf(records.Keys) == Census.Places(source);
  }

  // ---------------------------------------------------------------- one tile

  /** A tile exists when it has ground or an item. */
  predicate Exists(t: Tile) { t.ground.Some? || t.items != [] }

  function Existing(source: seq<Tile>): Tiles { Present(LastRecords(source)) }

  function Present(tiles: Tiles): Tiles { map p | p in tiles && Exists(tiles[p]) :: tiles[p] }

  predicate HasBit(flags: nat, bit: nat)
    requires bit > 0
  {
    flags / bit % 2 == 1
  }

  /** Protection, no-pvp and arena exclude one another, the first of them winning; no-logout adds to any. */
  function ZoneFlagsOf(t: Tile): (z: int)
    ensures Text.ZoneChar(z).Some?
    ensures z % 16 >= 8 <==> HasBit(t.flags, 8)
    ensures t.houseId.Some? || HasBit(t.flags, 1) <==> z % 2 == 1
  {
    var zone :=
      if t.houseId.Some? || HasBit(t.flags, 1) then 1
      else if HasBit(t.flags, 4) then 4
      else if HasBit(t.flags, 16) then 16
      else 0;
    if HasBit(t.flags, 8) then zone + 8 else zone
  }

  datatype Flags = Flags(unpass: bool, bankWaypoints: Option<nat>)

  /** What the art package and the scenery tables say, and what the caller asks for. */
  datatype Options = Options(
    region: Region,
    flagsOf: nat -> Option<Flags>,
    groundIsScenery: nat -> bool,
    itemIsScenery: Item -> bool,
    entryPoint: Option<Point>,
    keepFrom: Option<Point>,
    defaultZ: Option<int>,
    allowUnknown: bool)

  predicate Stops(o: Options, id: nat) { o.flagsOf(id).Some? && o.flagsOf(id).value.unpass }

  /** Some unclassified thing of the stack, ground included, cannot be walked through. */
  predicate StackBlocks(o: Options, t: Tile) {
    || (t.ground.Some? && !o.groundIsScenery(t.ground.value) && Stops(o, t.ground.value))
    || exists item :: item in t.items && !o.itemIsScenery(item) && Stops(o, item.id)
  }

  /** The unclassified ids of the stack that the package does not have. */
  function UnknownIds(o: Options, t: Tile): set<nat> {
    (if t.ground.Some? && !o.groundIsScenery(t.ground.value) && o.flagsOf(t.ground.value).None? then {t.ground.value} else {})
    + set item | item in t.items && !o.itemIsScenery(item) && o.flagsOf(item.id).None? :: item.id
  }

  method BlockedOf(t: Tile, o: Options, unknown: set<nat>) returns (blocked: bool, found: set<nat>)
    ensures blocked == StackBlocks(o, t) && found == unknown + UnknownIds(o, t)
  {
    blocked, found := false, unknown;
    if t.ground.Some? && !o.groundIsScenery(t.ground.value) {
      var flags := o.flagsOf(t.ground.value);
      if flags.None? {
        found := found + {t.ground.value};
      } else if flags.value.unpass {
        blocked := true;
      }
    }
    ghost var fromGround, blockedByGround := found, blocked;
    for i := 0 to |t.items|
      invariant blocked == (blockedByGround || exists item :: item in t.items[..i] && !o.itemIsScenery(item) && Stops(o, item.id))
      invariant found == fromGround
        + set item | item in t.items[..i] && !o.itemIsScenery(item) && o.flagsOf(item.id).None? :: item.id
    {
      var item := t.items[i];
      assert t.items[..i + 1] == t.items[..i] + [item];
      if !o.itemIsScenery(item) {
        var flags := o.flagsOf(item.id);
        if flags.None? {
          found := found + {item.id};
        } else if flags.value.unpass {
          blocked := true;
        }
      }
    }
    assert t.items[..|t.items|] == t.items;
  }

  function SpeedOf(o: Options, t: Tile): (speed: nat)
    ensures speed > 0
  {
    if t.ground.None? then DEFAULT_GROUND_SPEED
    else
      var flags := o.flagsOf(t.ground.value);
      if flags.None? || flags.value.bankWaypoints.None? || flags.value.bankWaypoints.value == 0 then DEFAULT_GROUND_SPEED
      else flags.value.bankWaypoints.value
  }

  /** Judges every tile: which are blocked, and which ids the package lacks. */
  method JudgeTiles(tiles: Tiles, o: Options) returns (blocked: map<Point, bool>, unknown: set<nat>)
    ensures blocked == map p | p in tiles :: StackBlocks(o, tiles[p])
    ensures unknown == AllUnknown(tiles, o)
  {
    hide StackBlocks, UnknownIds;
    blocked, unknown := map[], {};
    var rest := tiles.Keys;
    while rest != {}
      invariant rest <= tiles.Keys
      invariant blocked == map p | p in tiles.Keys - rest :: StackBlocks(o, tiles[p])
      invariant unknown == set p, id | p in tiles.Keys - rest && id in UnknownIds(o, tiles[p]) :: id
      decreases rest
    {
      var p :| p in rest;
      var stops: bool;
      stops, unknown := BlockedOf(tiles[p], o, unknown);
      blocked := blocked[p := stops];
      rest := rest - {p};
    }
  }

  ghost function AllUnknown(tiles: Tiles, o: Options): set<nat> { set p, id | p in tiles && id in UnknownIds(o, tiles[p]) :: id }

  // ---------------------------------------------------------------- the walkable component

  function WalkableSet(o: Options, tiles: Tiles): set<Point> { set p | p in tiles && !StackBlocks(o, tiles[p]) }

  ghost function Steps(walkable: set<Point>): (Point, Point) -> bool {
    (a, b) => Cardinal(a, b) && a.z == b.z && b in walkable
  }

  /** Four-neighbour walking from one tile to another over walkable tiles. */
  ghost predicate Reaches(walkable: set<Point>, a: Point, b: Point) {
    exists w :: IsWalk(Steps(walkable), w) && w[0] == a && w[|w| - 1] == b
  }

  function Ring(seed: Point, p: Point): nat {
    if Abs(p.x - seed.x) < Abs(p.y - seed.y) then Abs(p.y - seed.y) else Abs(p.x - seed.x)
  }

  /** Nearer comes first; on one ring, top to bottom and left to right. */
  predicate Preferred(seed: Point, p: Point, q: Point) {
    Ring(seed, p) < Ring(seed, q) || (Ring(seed, p) == Ring(seed, q) && (p.y < q.y || (p.y == q.y && p.x <= q.x)))
  }

  predicate Eligible(walkable: set<Point>, seed: Point, p: Point) { p in walkable && p.z == seed.z && Ring(seed, p) <= 3 }

  ghost predicate NoneEligible(walkable: set<Point>, seed: Point) { forall p :: !Eligible(walkable, seed, p) }

  ghost predicate IsOrigin(walkable: set<Point>, seed: Point, p: Point) {
    Eligible(walkable, seed, p) && forall q :: Eligible(walkable, seed, q) ==> Preferred(seed, p, q)
  }

  /** Every point that comes before (radius, dy, dx) is not eligible. */
  ghost predicate NoneBefore(walkable: set<Point>, seed: Point, radius: nat, dy: int, dx: int) {
    forall q :: Eligible(walkable, seed, q) ==>
      !(Ring(seed, q) < radius || (Ring(seed, q) == radius && (q.y < seed.y + dy || (q.y == seed.y + dy && q.x < seed.x + dx))))
  }

  method FindOrigin(walkable: set<Point>, seed: Point) returns (origin: Option<Point>)
    ensures origin.Some? ==> IsOrigin(walkable, seed, origin.value)
    ensures origin.None? <==> NoneEligible(walkable, seed)
  {
    for radius: nat := 0 to 4
      invariant NoneBefore(walkable, seed, radius, -(radius as int), -(radius as int))
    {
      for dy := -(radius as int) to radius + 1
        invariant NoneBefore(walkable, seed, radius, dy, -(radius as int))
      {
        for dx := -(radius as int) to radius + 1
          invariant NoneBefore(walkable, seed, radius, dy, dx)
        {
          var p := Point(seed.x + dx, seed.y + dy, seed.z);
          if Ring(seed, p) == radius && p in walkable {
            return Some(p);
          }
        }
      }
    }
    origin := None;
  }

  ghost predicate InComponent(walkable: set<Point>, seed: Point, p: Point) {
    exists origin :: IsOrigin(walkable, seed, origin) && Reaches(walkable, origin, p)
  }

  /** Every step from an expanded point leads to a point already seen. */
  ghost predicate Explored(walkable: set<Point>, seen: set<Point>, pending: set<Point>) {
    forall p, q :: p in seen && p !in pending && Steps(walkable)(p, q) ==> q in seen
  }

  lemma {:induction false} ExploredHoldsReachable(walkable: set<Point>, seen: set<Point>, w: seq<Point>)
    requires Explored(walkable, seen, {}) && IsWalk(Steps(walkable), w) && w[0] in seen
    ensures w[|w| - 1] in seen
  {
    if |w| > 1 {
      var shorter := w[..|w| - 1];
      ExploredHoldsReachable(walkable, seen, shorter);
      assert Steps(walkable)(shorter[|shorter| - 1], w[|w| - 1]);
    }
  }

  lemma ReachesOn(walkable: set<Point>, a: Point, b: Point, c: Point)
    requires Reaches(walkable, a, b) && Steps(walkable)(b, c)
    ensures Reaches(walkable, a, c)
  {
    var w :| IsWalk(Steps(walkable), w) && w[0] == a && w[|w| - 1] == b;
    var longer := w + [c];
    forall i | 0 <= i < |longer| - 1 ensures Steps(walkable)(longer[i], longer[i + 1]) {
      if i < |w| - 1 { assert Steps(walkable)(w[i], w[i + 1]); }
    }
    assert longer[0] == a && longer[|longer| - 1] == c;
  }

  const CARDINALS: seq<(int, int)> := [(1, 0), (-1, 0), (0, 1), (0, -1)]

  /** The breadth-first flood: exactly what can be reached from the origin. */
  method Flood(walkable: set<Point>, origin: Point) returns (seen: set<Point>)
    requires origin in walkable
    ensures seen <= walkable && forall p :: p in seen <==> Reaches(walkable, origin, p)
  {
    hide Reaches, Cardinal;
    Standing(walkable, origin);
    var queue := [origin];
    seen := {origin};
    while queue != []
      invariant origin in seen && seen <= walkable
      invariant forall p :: p in queue ==> p in seen
      invariant forall p :: p in seen ==> Reaches(walkable, origin, p)
      invariant Explored(walkable, seen, set p | p in queue)
      decreases walkable - seen, |queue|
    {
      seen, queue := Expand(walkable, origin, seen, queue);
    }
    forall p ensures p in seen <==> Reaches(walkable, origin, p) { FloodedAll(walkable, origin, seen, p); }
  }

  lemma Standing(walkable: set<Point>, a: Point)
    ensures Reaches(walkable, a, a)
  {
    assert IsWalk(Steps(walkable), [a]);
  }

  lemma FloodedAll(walkable: set<Point>, origin: Point, seen: set<Point>, p: Point)
    requires Explored(walkable, seen, {}) && origin in seen && (p in seen ==> Reaches(walkable, origin, p))
    ensures p in seen <==> Reaches(walkable, origin, p)
  {
    if Reaches(walkable, origin, p) {
      var w :| IsWalk(Steps(walkable), w) && w[0] == origin && w[|w| - 1] == p;
      ExploredHoldsReachable(walkable, seen, w);
    }
  }

  /** Takes the first of the queue and meets its neighbours. */
  method Expand(walkable: set<Point>, origin: Point, seen: set<Point>, queue: seq<Point>)
    returns (met: set<Point>, later: seq<Point>)
    requires queue != [] && seen <= walkable && (forall p :: p in queue ==> p in seen)
    requires forall p :: p in seen ==> Reaches(walkable, origin, p)
    requires Explored(walkable, seen, set p | p in queue)
    ensures seen <= met <= walkable && (forall p :: p in later ==> p in met)
    ensures forall p :: p in met ==> Reaches(walkable, origin, p)
    ensures Explored(walkable, met, set p | p in later)
    ensures met == seen ==> |later| < |queue|
  {
    hide Reaches;
    var at := queue[0];
    met, later := seen, queue[1..];
    assert forall p :: p in queue <==> p == at || p in later;
    for i := 0 to 4
      invariant seen <= met <= walkable && forall p :: p in later ==> p in met
      invariant forall p :: p in met ==> Reaches(walkable, origin, p)
      invariant Explored(walkable, met, (set p | p in later) + {at})
      invariant forall j :: 0 <= j < i ==>
          var next := Point(at.x + CARDINALS[j].0, at.y + CARDINALS[j].1, at.z); next in walkable ==> next in met
      invariant met == seen ==> later == queue[1..]
      invariant at in met
    {
      var next := Point(at.x + CARDINALS[i].0, at.y + CARDINALS[i].1, at.z);
      if next !in met && next in walkable {
        ReachesOn(walkable, origin, at, next);
        met := met + {next};
        later := later + [next];
      }
    }
    Neighbours(walkable, at, met);
  }

  lemma Neighbours(walkable: set<Point>, at: Point, met: set<Point>)
    requires forall j :: 0 <= j < 4 ==>
        var next := Point(at.x + CARDINALS[j].0, at.y + CARDINALS[j].1, at.z); next in walkable ==> next in met
    ensures forall q :: Steps(walkable)(at, q) ==> q in met
  {
    forall q | Steps(walkable)(at, q) ensures q in met {
      var j := if q.x == at.x + 1 then 0 else if q.x == at.x - 1 then 1 else if q.y == at.y + 1 then 2 else 3;
      assert q == Point(at.x + CARDINALS[j].0, at.y + CARDINALS[j].1, at.z);
    }
  }

  method WalkableComponent(walkable: set<Point>, seed: Point) returns (component: Option<set<Point>>)
    ensures component.None? <==> NoneEligible(walkable, seed)
    ensures component.Some? ==> component.value <= walkable && component.value != {}
    ensures component.Some? ==> forall p :: p in component.value <==> InComponent(walkable, seed, p)
  {
    hide Reaches, Preferred;
    var origin := FindOrigin(walkable, seed);
    if origin.None? { return None; }
    var seen := Flood(walkable, origin.value);
    Standing(walkable, origin.value);
    forall p ensures p in seen <==> InComponent(walkable, seed, p) {
      OneOrigin(walkable, seed, origin.value);
    }
    component := Some(seen);
  }

  lemma OneOrigin(walkable: set<Point>, seed: Point, origin: Point)
    requires IsOrigin(walkable, seed, origin)
    ensures forall other :: IsOrigin(walkable, seed, other) ==> other == origin
  {}
}
