/** From the text of a map, a string per row of every layer, to the tilemap the engine looks up. */
module BuildTilemap {
  import opened Wrappers
  import opened Tilemaps
  import FloorGraph

  /** The layers of one floor as rows of characters. */
  datatype FloorText = FloorText(grid: seq<string>, speed: Option<seq<string>>, zones: Option<seq<string>>)

  /** `grid` is the short form for a map of one floor. */
  datatype MapText = MapText(
    z: int, grid: Option<seq<string>>, floors: seq<(int, FloorText)>,
    speedPalette: map<char, int>, floorChanges: seq<FloorChange>)

  datatype Error = NoFloor | UnknownSpeed | UnknownZone | NoDefaultFloor

  // ---------------------------------------------------------------- zones as characters

  function ZoneValue(c: char): Option<int> {
    match c
    case '.' => Some(0)
    case 'p' => Some(1)
    case 'n' => Some(4)
    case 'a' => Some(16)
    case 'l' => Some(8)
    case 'P' => Some(9)
    case 'N' => Some(12)
    case 'A' => Some(24)
    case _ => None
  }

  function ZoneChar(v: int): Option<char> {
    if v == 0 then Some('.')
    else if v == 1 then Some('p')
    else if v == 4 then Some('n')
    else if v == 16 then Some('a')
    else if v == 8 then Some('l')
    else if v == 9 then Some('P')
    else if v == 12 then Some('N')
    else if v == 24 then Some('A')
    else None
  }

  /** The palette is one to one: a character stands for the value that is written with it, and for no other. */
  lemma ZonePaletteIsOneToOne(c: char, v: int)
    ensures ZoneValue(c) == Some(v) <==> ZoneChar(v) == Some(c)
  {}

  // ---------------------------------------------------------------- what the text says

  function CharAt(rows: seq<string>, x: int, y: int): Option<char> {
    if 0 <= y < |rows| && 0 <= x < |rows[y]| then Some(rows[y][x]) else None
  }

  /** Outside what is drawn is not free ground. */
  predicate BlockedAt(floor: FloorText, x: int, y: int) {
    CharAt(floor.grid, x, y).None? || CharAt(floor.grid, x, y).value == '#'
  }

  /** `None` for a character that is not in the palette; speeds are kept in 16 bits. */
  function SpeedAt(floor: FloorText, palette: map<char, int>, x: int, y: int): Option<int>
    requires floor.speed.Some?
  {
    var c := CharAt(floor.speed.value, x, y);
    if c.None? || c.value == ' ' || BlockedAt(floor, x, y) then Some(DEFAULT_GROUND_SPEED)
    else if c.value in palette then Some(palette[c.value] % 0x1_0000)
    else None
  }

  function ZonesAt(floor: FloorText, x: int, y: int): Option<int>
    requires floor.zones.Some?
  {
    var c := CharAt(floor.zones.value, x, y);
    if c.None? then Some(0) else ZoneValue(c.value)
  }

  function FloorData(data: MapText): seq<(int, FloorText)> {
    (if data.grid.Some? then [(data.z, FloorText(data.grid.value, None, None))] else []) + data.floors
  }

  function Max(a: nat, b: nat): nat { if a < b then b else a }

  function LongestRow(rows: seq<string>): (w: nat)
    ensures forall y :: 0 <= y < |rows| ==> |rows[y]| <= w
  {
    if rows == [] then 0 else Max(|rows[0]|, LongestRow(rows[1..]))
  }

  function Height(floors: seq<(int, FloorText)>): (h: nat)
    ensures forall i :: 0 <= i < |floors| ==> |floors[i].1.grid| <= h
  {
    if floors == [] then 0 else Max(|floors[0].1.grid|, Height(floors[1..]))
  }

  function Width(floors: seq<(int, FloorText)>): (w: nat)
    ensures forall i, y :: 0 <= i < |floors| && 0 <= y < |floors[i].1.grid| ==> |floors[i].1.grid[y]| <= w
  {
    if floors == [] then 0 else Max(LongestRow(floors[0].1.grid), Width(floors[1..]))
  }

  // ---------------------------------------------------------------- flat layers

  function Index(w: nat, x: int, y: int): int { y * w + x }

  predicate Inside(w: nat, h: nat, x: int, y: int) { 0 <= x < w && 0 <= y < h }

  lemma IndexFits(w: nat, h: nat, x: int, y: int)
    requires Inside(w, h, x, y)
    ensures 0 <= Index(w, x, y) < w * h
  {
    assert (y + 1) * w <= h * w;
  }

  lemma IndexDiffers(w: nat, h: nat, x: int, y: int, a: int, b: int)
    requires Inside(w, h, x, y) && Inside(w, h, a, b) && (x != a || y != b)
    ensures Index(w, x, y) != Index(w, a, b)
  {
    if y < b { assert (y + 1) * w <= b * w; }
    if b < y { assert (b + 1) * w <= y * w; }
  }

  predicate Earlier(x: int, y: int, a: int, b: int) { b < y || (b == y && a < x) }

  /** The cells before (x, y), row by row, hold what `at` says; the others still hold `rest`. */
  ghost predicate Partly<T>(layer: seq<T>, w: nat, h: nat, at: (int, int) -> Option<T>, rest: T, x: int, y: int) {
    && |layer| == w * h
    && forall a, b :: Inside(w, h, a, b) ==> Cell(layer, w, at, rest, x, y, a, b)
  }

  ghost predicate Cell<T>(layer: seq<T>, w: nat, at: (int, int) -> Option<T>, rest: T, x: int, y: int, a: int, b: int) {
    if Earlier(x, y, a, b) then at(a, b) == Some(Read(layer, Index(w, a, b), rest)) else Read(layer, Index(w, a, b), rest) == rest
  }

  /** The whole layer holds what `at` says. */
  ghost predicate Lays<T>(layer: seq<T>, w: nat, h: nat, at: (int, int) -> Option<T>, rest: T) {
    Partly(layer, w, h, at, rest, 0, h)
  }

  lemma PartlyFresh<T>(layer: seq<T>, w: nat, h: nat, at: (int, int) -> Option<T>, rest: T)
    requires |layer| == w * h && forall i :: 0 <= i < |layer| ==> layer[i] == rest
    ensures Partly(layer, w, h, at, rest, 0, 0)
  {}

  lemma PartlyWritten<T>(layer: seq<T>, w: nat, h: nat, at: (int, int) -> Option<T>, rest: T, x: int, y: int, v: T)
    requires Partly(layer, w, h, at, rest, x, y) && Inside(w, h, x, y) && at(x, y) == Some(v)
    ensures 0 <= Index(w, x, y) < |layer|
    ensures Partly(layer[Index(w, x, y) := v], w, h, at, rest, x + 1, y)
  {
    IndexFits(w, h, x, y);
    var after := layer[Index(w, x, y) := v];
    forall a, b | Inside(w, h, a, b) ensures Cell(after, w, at, rest, x + 1, y, a, b) {
      IndexFits(w, h, a, b);
      if a != x || b != y { IndexDiffers(w, h, x, y, a, b); }
      hide Index;
      assert Cell(layer, w, at, rest, x, y, a, b);
    }
  }

  lemma PartlySkipped<T>(layer: seq<T>, w: nat, h: nat, at: (int, int) -> Option<T>, rest: T, x: int, y: int)
    requires Partly(layer, w, h, at, rest, x, y) && Inside(w, h, x, y) && at(x, y) == Some(rest)
    ensures Partly(layer, w, h, at, rest, x + 1, y)
  {
    hide Index;
    forall a, b | Inside(w, h, a, b) ensures Cell(layer, w, at, rest, x + 1, y, a, b) {
      assert Cell(layer, w, at, rest, x, y, a, b);
    }
  }

  lemma PartlyNextRow<T>(layer: seq<T>, w: nat, h: nat, at: (int, int) -> Option<T>, rest: T, y: int)
    requires Partly(layer, w, h, at, rest, w, y)
    ensures Partly(layer, w, h, at, rest, 0, y + 1)
  {
    hide Index;
    forall a, b | Inside(w, h, a, b) ensures Cell(layer, w, at, rest, 0, y + 1, a, b) {
      assert Cell(layer, w, at, rest, w, y, a, b);
    }
  }

  lemma LaidCell<T>(layer: seq<T>, w: nat, h: nat, at: (int, int) -> Option<T>, rest: T, x: int, y: int)
    requires Lays(layer, w, h, at, rest) && Inside(w, h, x, y)
    ensures at(x, y) == Some(Read(layer, Index(w, x, y), rest)) && Index(w, x, y) == y * w + x
  {
    assert Cell(layer, w, at, rest, 0, h, x, y);
  }

  lemma BuiltFloor(data: MapText, m: Tilemap, z: int)
    requires Built(data, m)
    ensures z in m.floors <==> LastText(FloorData(data), z).Some?
    ensures z in m.floors ==> FloorSays(m.floors[z], LastText(FloorData(data), z).value, data.speedPalette, m.width, m.height)
  {
    hide FloorSays, LastText, StairsSay;
  }

  ghost function BlockedCells(floor: FloorText): (int, int) -> Option<bool> { (x, y) => Some(BlockedAt(floor, x, y)) }

  ghost function SpeedCells(floor: FloorText, palette: map<char, int>): (int, int) -> Option<int>
    requires floor.speed.Some?
  {
    (x, y) => SpeedAt(floor, palette, x, y)
  }

  ghost function ZoneCells(floor: FloorText): (int, int) -> Option<int>
    requires floor.zones.Some?
  {
    (x, y) => ZonesAt(floor, x, y)
  }

  method BlockedLayer(floor: FloorText, w: nat, h: nat) returns (layer: seq<bool>)
    ensures Lays(layer, w, h, BlockedCells(floor), false)
  {
    hide Index, Partly;
    ghost var at := BlockedCells(floor);
    var blocked := new bool[w * h](_ => false);
    PartlyFresh(blocked[..], w, h, at, false);
    for y := 0 to h
      invariant Partly(blocked[..], w, h, at, false, 0, y)
    {
      for x := 0 to w
        invariant Partly(blocked[..], w, h, at, false, x, y)
      {
        if BlockedAt(floor, x, y) {
          PartlyWritten(blocked[..], w, h, at, false, x, y, true);
          blocked[Index(w, x, y)] := true;
        } else {
          PartlySkipped(blocked[..], w, h, at, false, x, y);
        }
      }
      PartlyNextRow(blocked[..], w, h, at, false, y);
    }
    layer := blocked[..];
  }

  ghost predicate SpeedsKnown(floor: FloorText, palette: map<char, int>, w: nat, h: nat)
    requires floor.speed.Some?
  {
    forall x, y :: Inside(w, h, x, y) ==> SpeedAt(floor, palette, x, y).Some?
  }

  method SpeedLayer(floor: FloorText, palette: map<char, int>, w: nat, h: nat) returns (layer: Option<seq<int>>)
    requires floor.speed.Some?
    ensures layer.Some? <==> SpeedsKnown(floor, palette, w, h)
    ensures layer.Some? ==> Lays(layer.value, w, h, SpeedCells(floor, palette), DEFAULT_GROUND_SPEED)
  {
    hide Index, Partly;
    ghost var at := SpeedCells(floor, palette);
    var speed := new int[w * h](_ => DEFAULT_GROUND_SPEED);
    PartlyFresh(speed[..], w, h, at, DEFAULT_GROUND_SPEED);
    for y := 0 to h
      invariant Partly(speed[..], w, h, at, DEFAULT_GROUND_SPEED, 0, y)
    {
      for x := 0 to w
        invariant Partly(speed[..], w, h, at, DEFAULT_GROUND_SPEED, x, y)
      {
        var c := CharAt(floor.speed.value, x, y);
        if c.None? || c.value == ' ' || BlockedAt(floor, x, y) {
          PartlySkipped(speed[..], w, h, at, DEFAULT_GROUND_SPEED, x, y);
        } else {
          if c.value !in palette {
            assert Inside(w, h, x, y) && SpeedAt(floor, palette, x, y).None?;
            return None;
          }
          PartlyWritten(speed[..], w, h, at, DEFAULT_GROUND_SPEED, x, y, palette[c.value] % 0x1_0000);
          speed[Index(w, x, y)] := palette[c.value] % 0x1_0000;
        }
      }
      PartlyNextRow(speed[..], w, h, at, DEFAULT_GROUND_SPEED, y);
    }
    layer := Some(speed[..]);
    forall x, y | Inside(w, h, x, y) ensures SpeedAt(floor, palette, x, y).Some? {
      LaidCell(speed[..], w, h, at, DEFAULT_GROUND_SPEED, x, y);
    }
  }

  ghost predicate ZonesKnown(floor: FloorText, w: nat, h: nat)
    requires floor.zones.Some?
  {
    forall x, y :: Inside(w, h, x, y) ==> ZonesAt(floor, x, y).Some?
  }

  method ZoneLayer(floor: FloorText, w: nat, h: nat) returns (layer: Option<seq<int>>)
    requires floor.zones.Some?
    ensures layer.Some? <==> ZonesKnown(floor, w, h)
    ensures layer.Some? ==> Lays(layer.value, w, h, ZoneCells(floor), 0)
  {
    hide Index, Partly, ZoneValue;
    ghost var at := ZoneCells(floor);
    var zones := new int[w * h](_ => 0);
    PartlyFresh(zones[..], w, h, at, 0);
    for y := 0 to h
      invariant Partly(zones[..], w, h, at, 0, 0, y)
    {
      for x := 0 to w
        invariant Partly(zones[..], w, h, at, 0, x, y)
      {
        var c := CharAt(floor.zones.value, x, y);
        if c.None? {
          PartlySkipped(zones[..], w, h, at, 0, x, y);
        } else {
          var value := ZoneValue(c.value);
          if value.None? {
            assert Inside(w, h, x, y) && ZonesAt(floor, x, y).None?;
            return None;
          }
          PartlyWritten(zones[..], w, h, at, 0, x, y, value.value);
          zones[Index(w, x, y)] := value.value;
        }
      }
      PartlyNextRow(zones[..], w, h, at, 0, y);
    }
    layer := Some(zones[..]);
    forall x, y | Inside(w, h, x, y) ensures ZonesAt(floor, x, y).Some? {
      LaidCell(zones[..], w, h, at, 0, x, y);
    }
  }

  // ---------------------------------------------------------------- floors

  ghost predicate FloorKnown(floor: FloorText, palette: map<char, int>, w: nat, h: nat) {
    && (floor.speed.Some? ==> SpeedsKnown(floor, palette, w, h))
    && (floor.zones.Some? ==> ZonesKnown(floor, w, h))
  }

  /** The floor in memory says what its text says. */
  ghost predicate FloorSays(built: Floor, floor: FloorText, palette: map<char, int>, w: nat, h: nat) {
    && Lays(built.blocked, w, h, BlockedCells(floor), false)
    && (built.speed.Some? <==> floor.speed.Some?)
    && (built.speed.Some? ==> Lays(built.speed.value, w, h, SpeedCells(floor, palette), DEFAULT_GROUND_SPEED))
    && (built.zones.Some? <==> floor.zones.Some?)
    && (built.zones.Some? ==> Lays(built.zones.value, w, h, ZoneCells(floor), 0))
  }

  method BuildFloor(floor: FloorText, palette: map<char, int>, w: nat, h: nat) returns (result: Result<Floor, Error>)
    ensures result.Ok? <==> FloorKnown(floor, palette, w, h)
    ensures result.Ok? ==> FloorSays(result.value, floor, palette, w, h)
  {
    hide Lays, SpeedsKnown, ZonesKnown;
    var blocked := BlockedLayer(floor, w, h);
    var speed, zones := None, None;
    if floor.speed.Some? {
      speed := SpeedLayer(floor, palette, w, h);
      if speed.None? { return Err(UnknownSpeed); }
    }
    if floor.zones.Some? {
      zones := ZoneLayer(floor, w, h);
      if zones.None? { return Err(UnknownZone); }
    }
    result := Ok(Floor(blocked, speed, zones));
  }

  /** The text a floor is built from: the last one given for it. */
  function LastText(floors: seq<(int, FloorText)>, z: int): Option<FloorText> {
    if floors == [] then None
    else if floors[|floors| - 1].0 == z then Some(floors[|floors| - 1].1)
    else LastText(floors[..|floors| - 1], z)
  }

  ghost predicate FloorsSay(built: map<int, Floor>, floors: seq<(int, FloorText)>, palette: map<char, int>, w: nat, h: nat) {
    forall z ::
      && (z in built <==> LastText(floors, z).Some?)
      && (z in built ==> FloorSays(built[z], LastText(floors, z).value, palette, w, h))
  }

  ghost predicate AllKnown(floors: seq<(int, FloorText)>, palette: map<char, int>, w: nat, h: nat) {
    forall i :: 0 <= i < |floors| ==> FloorKnown(floors[i].1, palette, w, h)
  }

  method BuildFloors(floors: seq<(int, FloorText)>, palette: map<char, int>, w: nat, h: nat)
    returns (result: Result<map<int, Floor>, Error>)
    ensures result.Ok? <==> AllKnown(floors, palette, w, h)
    ensures result.Ok? ==> FloorsSay(result.value, floors, palette, w, h)
  {
    hide FloorKnown, FloorSays;
    var built: map<int, Floor> := map[];
    for i := 0 to |floors|
      invariant AllKnown(floors[..i], palette, w, h) && FloorsSay(built, floors[..i], palette, w, h)
    {
      var floor := BuildFloor(floors[i].1, palette, w, h);
      if floor.Err? { return Err(floor.error); }
      ghost var before := floors[..i];
      assert floors[..i + 1] == before + [floors[i]] && (before + [floors[i]])[..i] == before;
      built := built[floors[i].0 := floor.value];
    }
    assert floors[..|floors|] == floors;
    result := Ok(built);
  }

  // ---------------------------------------------------------------- stairs

  function KeyOf(p: Point): int { TileKey(p.x, p.y, p.z) }

  /** Where the last stair with that key leads. */
  function LastTo(changes: seq<FloorChange>, key: int): Option<Point> {
    if changes == [] then None
    else if KeyOf(changes[|changes| - 1].from) == key then Some(changes[|changes| - 1].to)
    else LastTo(changes[..|changes| - 1], key)
  }

  /** The stairs that leave a floor, in order. */
  function Leaving(changes: seq<FloorChange>, z: int): seq<FloorChange> {
    if changes == [] then []
    else
      var n := |changes| - 1;
      Leaving(changes[..n], z) + if changes[n].from.z == z then [changes[n]] else []
  }

  ghost predicate StairsSay(byKey: map<int, Point>, byFloor: map<int, seq<FloorChange>>, changes: seq<FloorChange>) {
    && (forall key :: (if key in byKey then Some(byKey[key]) else None) == LastTo(changes, key))
    && forall z :: (if z in byFloor then byFloor[z] else []) == Leaving(changes, z)
  }

  lemma LastToAdded(before: seq<FloorChange>, change: FloorChange, key: int)
    ensures LastTo(before + [change], key) == if KeyOf(change.from) == key then Some(change.to) else LastTo(before, key)
  {
    hide KeyOf;
    assert (before + [change])[..|before|] == before;
  }

  lemma LeavingAdded(before: seq<FloorChange>, change: FloorChange, z: int)
    ensures Leaving(before + [change], z) == Leaving(before, z) + if change.from.z == z then [change] else []
  {
    assert (before + [change])[..|before|] == before;
  }

  lemma StairAdded(byKey: map<int, Point>, byFloor: map<int, seq<FloorChange>>, before: seq<FloorChange>, change: FloorChange)
    requires StairsSay(byKey, byFloor, before)
    ensures var z := change.from.z;
      StairsSay(byKey[KeyOf(change.from) := change.to],
                byFloor[z := (if z in byFloor then byFloor[z] else []) + [change]], before + [change])
  {
    hide KeyOf, LastTo, Leaving;
    var after := before + [change];
    forall key ensures LastTo(after, key) == if KeyOf(change.from) == key then Some(change.to) else LastTo(before, key) {
      LastToAdded(before, change, key);
    }
    forall z ensures Leaving(after, z) == if change.from.z == z then Leaving(before, z) + [change] else Leaving(before, z) {
      LeavingAdded(before, change, z);
    }
  }

  method BuildStairs(changes: seq<FloorChange>) returns (byKey: map<int, Point>, byFloor: map<int, seq<FloorChange>>)
    ensures StairsSay(byKey, byFloor, changes)
  {
    hide StairsSay, TileKey;
    byKey, byFloor := map[], map[];
    NoStairs();
    for i := 0 to |changes|
      invariant StairsSay(byKey, byFloor, changes[..i])
    {
      var change := changes[i];
      StairAdded(byKey, byFloor, changes[..i], change);
      assert changes[..i + 1] == changes[..i] + [change];
      byKey := byKey[TileKey(change.from.x, change.from.y, change.from.z) := change.to];
      if change.from.z !in byFloor {
        assert [] + [change] == [change];
        byFloor := byFloor[change.from.z := [change]];
      } else {
        byFloor := byFloor[change.from.z := byFloor[change.from.z] + [change]];
      }
    }
    assert changes[..|changes|] == changes;
  }

  lemma NoStairs()
    ensures StairsSay(map[], map[], [])
  {}

  // ---------------------------------------------------------------- the whole map

  /** The text has a floor, only characters of its palettes, and the default floor. */
  ghost predicate Buildable(data: MapText) {
    var floors := FloorData(data);
    && floors != []
    && AllKnown(floors, data.speedPalette, Width(floors), Height(floors))
    && LastText(floors, data.z).Some?
  }

  ghost predicate Built(data: MapText, m: Tilemap) {
    var floors := FloorData(data);
    && m.width == Width(floors) && m.height == Height(floors) && m.z == data.z
    && FloorsSay(m.floors, floors, data.speedPalette, m.width, m.height)
    && StairsSay(m.floorChanges, m.floorChangesByFloor, data.floorChanges)
  }

  method Build(data: MapText) returns (result: Result<Tilemap, Error>)
    ensures result.Ok? <==> Buildable(data)
    ensures result.Ok? ==> Built(data, result.value)
  {
    hide AllKnown, FloorSays, StairsSay;
    var floorData := FloorData(data);
    if floorData == [] { return Err(NoFloor); }
    var height, width := Height(floorData), Width(floorData);
    var floors := BuildFloors(floorData, data.speedPalette, width, height);
    if floors.Err? { return Err(floors.error); }
    if data.z !in floors.value { return Err(NoDefaultFloor); }
    var byKey, byFloor := BuildStairs(data.floorChanges);
    result := Ok(Tilemap(width, height, data.z, floors.value, byKey, byFloor));
  }

  // ---------------------------------------------------------------- results

  lemma {:induction false} TextIsAmongFloors(floors: seq<(int, FloorText)>, z: int)
    requires LastText(floors, z).Some?
    ensures (z, LastText(floors, z).value) in floors
  {
    if floors[|floors| - 1].0 != z { TextIsAmongFloors(floors[..|floors| - 1], z); }
  }

  /** Nothing drawn free lies outside the built map. */
  lemma FreeIsInside(floors: seq<(int, FloorText)>, z: int, x: int, y: int)
    requires LastText(floors, z).Some? && !BlockedAt(LastText(floors, z).value, x, y)
    ensures Inside(Width(floors), Height(floors), x, y)
  {
    TextIsAmongFloors(floors, z);
    var i :| 0 <= i < |floors| && floors[i] == (z, LastText(floors, z).value);
    assert floors[i].1.grid[y][x] != '#';
  }

  /** A tile of the built map is blocked unless the text draws free ground there. */
  lemma BuiltBlocks(data: MapText, m: Tilemap, x: int, y: int, z: int)
    requires Built(data, m)
    ensures var text := LastText(FloorData(data), z);
      IsBlocked(m, x, y, z) <==> text.None? || BlockedAt(text.value, x, y)
  {
    BuiltFloor(data, m, z);
    hide LastText, Lays, Read, Index, FloorsSay, StairsSay, BlockedAt;
    var text := LastText(FloorData(data), z);
    if text.Some? {
      if Inside(m.width, m.height, x, y) {
        LaidCell(m.floors[z].blocked, m.width, m.height, BlockedCells(text.value), false, x, y);
      } else if !BlockedAt(text.value, x, y) {
        FreeIsInside(FloorData(data), z, x, y);
      }
    }
  }

  /** The speed of a tile is the palette's, in 16 bits, where the text gives free ground a speed, and the default elsewhere. */
  lemma BuiltSpeed(data: MapText, m: Tilemap, x: int, y: int, z: int)
    requires Built(data, m)
    ensures var text := LastText(FloorData(data), z);
      Some(GroundSpeed(m, x, y, z)) ==
        if text.None? || text.value.speed.None? || !InBounds(m, x, y) then Some(DEFAULT_GROUND_SPEED)
        else SpeedAt(text.value, data.speedPalette, x, y)
  {
    BuiltFloor(data, m, z);
    hide LastText, Lays, Read, Index, FloorsSay, StairsSay, SpeedAt, Width, Height;
    var text := LastText(FloorData(data), z);
    if text.Some? {
      if text.value.speed.Some? && InBounds(m, x, y) {
        LaidCell(m.floors[z].speed.value, m.width, m.height, SpeedCells(text.value, data.speedPalette),
                 DEFAULT_GROUND_SPEED, x, y);
      }
    }
  }

  /** The zone flags of a tile are those its character stands for. */
  lemma BuiltZones(data: MapText, m: Tilemap, x: int, y: int, z: int)
    requires Built(data, m)
    ensures var text := LastText(FloorData(data), z);
      Some(ZoneFlagsAt(m, x, y, z)) ==
        if text.None? || text.value.zones.None? || !InBounds(m, x, y) then Some(0) else ZonesAt(text.value, x, y)
  {
    BuiltFloor(data, m, z);
    hide LastText, Lays, Read, Index, FloorsSay, StairsSay, ZonesAt, Width, Height;
    var text := LastText(FloorData(data), z);
    if text.Some? {
      if text.value.zones.Some? && InBounds(m, x, y) {
        LaidCell(m.floors[z].zones.value, m.width, m.height, ZoneCells(text.value), 0, x, y);
      }
    }
  }

  /** No two stairs with one key lead to different places. */
  ghost predicate StairsAgree(changes: seq<FloorChange>) {
    forall c, d :: c in changes && d in changes && KeyOf(c.from) == KeyOf(d.from) ==> c.to == d.to
  }

  lemma {:induction false} LastToIsOne(changes: seq<FloorChange>, key: int)
    ensures LastTo(changes, key).Some? <==> exists c :: c in changes && KeyOf(c.from) == key
    ensures LastTo(changes, key).Some? ==> exists c :: c in changes && KeyOf(c.from) == key && c.to == LastTo(changes, key).value
  {
    hide KeyOf;
    if changes != [] {
      var n := |changes| - 1;
      assert changes == changes[..n] + [changes[n]];
      LastToIsOne(changes[..n], key);
      assert changes[n] in changes;
    }
  }

  lemma {:induction false} LeavingAre(changes: seq<FloorChange>, z: int, c: FloorChange)
    ensures c in Leaving(changes, z) <==> c in changes && c.from.z == z
  {
    if changes != [] {
      var n := |changes| - 1;
      LeavingAre(changes[..n], z, c);
      assert changes == changes[..n] + [changes[n]];
    }
  }

  /** The two forms of the stairs tell the same exactly when no stair of the text overwrites another. */
  lemma BuiltStairsConsistent(data: MapText, m: Tilemap)
    requires Built(data, m)
    ensures FloorGraph.Consistent(m) <==> StairsAgree(data.floorChanges)
  {
    var changes := data.floorChanges;
    forall c | c in changes
      ensures c.from.z in m.floorChangesByFloor && c in m.floorChangesByFloor[c.from.z]
      ensures FloorChangeAt(m, c.from.x, c.from.y, c.from.z) == LastTo(changes, KeyOf(c.from))
    {
      LeavingAre(changes, c.from.z, c);
    }
    hide TileKey, FloorChangeAt;
    forall z, c | z in m.floorChangesByFloor && c in m.floorChangesByFloor[z] ensures c in changes && c.from.z == z {
      LeavingAre(changes, z, c);
    }
    forall c | c in changes ensures StairsAgree(changes) ==> LastTo(changes, KeyOf(c.from)) == Some(c.to) {
      LastToIsOne(changes, KeyOf(c.from));
    }
  }
}
