/** The second half of an import: the cut to the component, the speed palette, and the layers as rows of characters. */
module ImportRegion {
  import opened Wrappers
  import opened Tilemaps
  import opened Otbm
  import opened ImportMap
  import Text = BuildTilemap
  import IdRanges
  import OtbmMap
  import OtbmTree
  import Walks

  // ---------------------------------------------------------------- the cut

  /** One tile or none away, on the same floor. */
  predicate Beside(c: Point, p: Point) { c.z == p.z && Ring(c, p) <= 1 }

  function Moved(c: Point, dx: int, dy: int): Point { Point(c.x + dx, c.y + dy, c.z) }

  /** The component with its border of one tile. */
  ghost predicate InBorder(component: set<Point>, p: Point) { exists c :: c in component && Beside(c, p) }

  method WithBorder(component: set<Point>) returns (kept: set<Point>)
    ensures forall p :: p in kept <==> InBorder(component, p)
  {
    kept := set c, dx, dy | c in component && -1 <= dx <= 1 && -1 <= dy <= 1 :: Moved(c, dx, dy);
    forall p ensures p in kept <==> InBorder(component, p) {
      if InBorder(component, p) {
        var c :| c in component && Beside(c, p);
        var dx, dy := p.x - c.x, p.y - c.y;
        assert p == Moved(c, dx, dy);
      }
    }
  }

  method Pick<T(==)>(values: set<T>) returns (v: T)
    requires values != {}
    ensures v in values
  {
    v :| v in values;
  }

  /** A span holds every value and both its ends are values. */
  ghost predicate Spans(span: Span, values: set<int>) {
    span.low in values && span.high in values && forall v :: v in values ==> Within(v, span)
  }

  method SpanOf(values: set<int>) returns (span: Span)
    requires values != {}
    ensures Spans(span, values)
  {
    var first := Pick(values);
    span := Span(first, first);
    var rest := values - {first};
    while rest != {}
      invariant rest <= values && Spans(span, values - rest)
      decreases rest
    {
      var v := Pick(rest);
      assert values - (rest - {v}) == values - rest + {v};
      span := Span(if v < span.low then v else span.low, if v > span.high then v else span.high);
      rest := rest - {v};
    }
    assert values - rest == values;
  }

  function Xs(points: set<Point>): set<int> { set p | p in points :: p.x }

  function Ys(points: set<Point>): set<int> { set p | p in points :: p.y }

  function Zs(points: set<Point>): set<int> { set p | p in points :: p.z }

  /** Some point of the component's border lies on either side of `p`, in each direction. */
  ghost predicate InBox(component: set<Point>, p: Point) {
    && (exists a, b :: InBorder(component, a) && InBorder(component, b) && a.x <= p.x <= b.x)
    && exists a, b :: InBorder(component, a) && InBorder(component, b) && a.y <= p.y <= b.y
  }

  /** The seed's floor keeps the component and its border; the others, what lies in the box these occupy. */
  ghost predicate Stays(component: set<Point>, seed: Point, p: Point) {
    if p.z == seed.z then InBorder(component, p) else InBox(component, p)
  }

  method Cut(tiles: Tiles, component: set<Point>, seed: Point) returns (kept: Tiles)
    requires component != {}
    ensures forall p :: p in kept <==> p in tiles && Stays(component, seed, p)
    ensures forall p :: p in kept ==> kept[p] == tiles[p]
  {
    var border := WithBorder(component);
    BorderIsSomewhere(component, border);
    var x := SpanOf(Xs(border));
    var y := SpanOf(Ys(border));
    forall p: Point ensures StaysBy(border, x, y, seed, p) <==> Stays(component, seed, p) {
      BoxIsSpans(component, border, x, y, p);
    }
    hide StaysBy, Stays;
    kept := map p | p in tiles && StaysBy(border, x, y, seed, p) :: tiles[p];
  }

  lemma BorderIsSomewhere(component: set<Point>, border: set<Point>)
    requires component != {} && forall p :: p in border <==> InBorder(component, p)
    ensures Xs(border) != {} && Ys(border) != {}
  {
    var c :| c in component;
    assert Beside(c, c) && c in border;
    assert c.x in Xs(border) && c.y in Ys(border);
  }

  predicate StaysBy(border: set<Point>, x: Span, y: Span, seed: Point, p: Point) {
    if p.z == seed.z then p in border else Within(p.x, x) && Within(p.y, y)
  }

  lemma BoxIsSpans(component: set<Point>, border: set<Point>, x: Span, y: Span, p: Point)
    requires forall q :: q in border <==> InBorder(component, q)
    requires Spans(x, Xs(border)) && Spans(y, Ys(border))
    ensures Within(p.x, x) && Within(p.y, y) <==> InBox(component, p)
  {
    hide InBorder;
    if Within(p.x, x) && Within(p.y, y) {
      var a, b :| a in border && a.x == x.low && b in border && b.x == x.high;
      assert InBorder(component, a) && InBorder(component, b) && a.x <= p.x <= b.x;
      var c, d :| c in border && c.y == y.low && d in border && d.y == y.high;
      assert InBorder(component, c) && InBorder(component, d) && c.y <= p.y <= d.y;
    }
    if InBox(component, p) {
      var a, b :| InBorder(component, a) && InBorder(component, b) && a.x <= p.x <= b.x;
      assert a.x in Xs(border) && b.x in Xs(border);
      var c, d :| InBorder(component, c) && InBorder(component, d) && c.y <= p.y <= d.y;
      assert c.y in Ys(border) && d.y in Ys(border);
    }
  }

  /** What an import keeps of the tiles that exist. */
  ghost predicate Keeps(o: Options, tiles: Tiles, p: Point) {
    o.keepFrom.None? || Stays(ComponentFrom(o, tiles, o.keepFrom.value), o.keepFrom.value, p)
  }

  ghost function ComponentFrom(o: Options, tiles: Tiles, seed: Point): set<Point> {
    var walkable := WalkableSet(o, tiles);
    set p | p in walkable && InComponent(walkable, seed, p)
  }

  ghost function Kept(o: Options, source: seq<Tile>): Tiles {
    var tiles := Existing(source);
    map p | p in tiles && Keeps(o, tiles, p) :: tiles[p]
  }

  /** The region asked for, or the box of what was kept after a cut. */
  ghost predicate IsFinalRegion(o: Options, kept: Tiles, region: Region) {
    if o.keepFrom.None? then region == o.region
    else Spans(region.x, Xs(kept.Keys)) && Spans(region.y, Ys(kept.Keys)) && Spans(region.z, Zs(kept.Keys))
  }

  // ---------------------------------------------------------------- speeds as characters

  const PALETTE_SIZE := 62

  /** Lower case, upper case, then digits. */
  function PaletteChar(i: nat): char
    requires i < PALETTE_SIZE
  {
    if i < 26 then ('a' as int + i) as char
    else if i < 52 then ('A' as int + (i - 26)) as char
    else ('0' as int + (i - 52)) as char
  }

  lemma PaletteCharsDiffer(i: nat, j: nat)
    requires i < PALETTE_SIZE && j < PALETTE_SIZE
    ensures PaletteChar(i) == PaletteChar(j) <==> i == j
    ensures PaletteChar(i) != ' '
  {}

  method SortNumbers(values: set<int>) returns (sorted: seq<int>)
    ensures IdRanges.Increasing(sorted) && forall v :: v in sorted <==> v in values
  {
    sorted := [];
    var rest := values;
    while rest != {}
      invariant rest <= values && IdRanges.Increasing(sorted)
      invariant forall v :: v in sorted <==> v in values - rest
      decreases rest
    {
      var v := Pick(rest);
      IdRanges.InsertedIncreases(sorted, v);
      sorted := IdRanges.Inserted(sorted, v);
      rest := rest - {v};
    }
  }

  function SpeedsIn(o: Options, tiles: Tiles): set<int> {
    set p | p in tiles && !StackBlocks(o, tiles[p]) :: SpeedOf(o, tiles[p]) as int
  }

  /** Each speed has its character, and the palette gives it back. */
  ghost predicate PaletteFits(speeds: set<int>, charOf: map<int, char>, palette: map<char, int>) {
    && charOf.Keys == speeds
    && (forall s :: s in speeds ==> charOf[s] != ' ' && charOf[s] in palette && palette[charOf[s]] == s)
    && forall c :: c in palette ==> palette[c] in speeds && charOf[palette[c]] == c
  }

  method BuildPalette(sorted: seq<int>, ghost speeds: set<int>) returns (charOf: map<int, char>, palette: map<char, int>)
    requires |sorted| <= PALETTE_SIZE && IdRanges.Increasing(sorted) && forall v :: v in sorted <==> v in speeds
    ensures PaletteFits(speeds, charOf, palette)
  {
    charOf, palette := map[], map[];
    ghost var placed: set<int> := {};
    for i := 0 to |sorted|
      invariant PaletteFits(placed, charOf, palette)
      invariant forall v :: v in placed <==> v in sorted[..i]
      invariant forall c :: c in palette ==> exists j :: 0 <= j < i && c == PaletteChar(j)
    {
      PalettePut(placed, charOf, palette, i, sorted[i]);
      assert sorted[..i + 1] == sorted[..i] + [sorted[i]];
      placed := placed + {sorted[i]};
      charOf := charOf[sorted[i] := PaletteChar(i)];
      palette := palette[PaletteChar(i) := sorted[i]];
    }
    assert sorted[..|sorted|] == sorted;
    forall v ensures v in placed <==> v in speeds { assert v in placed <==> v in sorted[..|sorted|]; }
    assert placed == speeds;
  }

  lemma PalettePut(speeds: set<int>, charOf: map<int, char>, palette: map<char, int>, i: nat, s: int)
    requires PaletteFits(speeds, charOf, palette) && i < PALETTE_SIZE && s !in speeds
    requires forall c :: c in palette ==> exists j :: 0 <= j < i && c == PaletteChar(j)
    ensures PaletteFits(speeds + {s}, charOf[s := PaletteChar(i)], palette[PaletteChar(i) := s])
  {
    var c := PaletteChar(i);
    forall j | 0 <= j < i ensures PaletteChar(j) != c { PaletteCharsDiffer(i, j); }
    PaletteCharsDiffer(i, i);
    hide PaletteChar;
    assert c !in palette;
  }

  // ---------------------------------------------------------------- pictures

  function Length(span: Span): nat { if span.high < span.low then 0 else span.high - span.low + 1 }

  /** The absolute position of a local one. */
  function Absolute(region: Region, x: int, y: int, z: int): Point { Point(region.x.low + x, region.y.low + y, z) }

  /** The rows of one floor of the region, a character per tile. */
  function Picture(region: Region, z: int, draw: Point -> char): seq<string> {
    seq(Length(region.y), j requires 0 <= j < Length(region.y) => PictureRow(region, z, j, draw))
  }

  function PictureRow(region: Region, z: int, j: int, draw: Point -> char): string {
    seq(Length(region.x), i requires 0 <= i < Length(region.x) => draw(Absolute(region, i, j, z)))
  }

  lemma PictureShows(region: Region, z: int, draw: Point -> char, x: int, y: int)
    ensures Text.CharAt(Picture(region, z, draw), x, y) ==
      if 0 <= x < Length(region.x) && 0 <= y < Length(region.y) then Some(draw(Absolute(region, x, y, z))) else None
  {}

  function GridChar(tiles: Tiles, blocked: map<Point, bool>, p: Point): char {
    if p !in tiles || p !in blocked || blocked[p] then '#' else '.'
  }

  function SpeedChar(o: Options, tiles: Tiles, blocked: map<Point, bool>, charOf: map<int, char>, p: Point): char {
    if p !in tiles || p !in blocked || blocked[p] || SpeedOf(o, tiles[p]) !in charOf then ' ' else charOf[SpeedOf(o, tiles[p])]
  }

  function ZoneAt(zones: map<Point, int>, p: Point): int { if p in zones then zones[p] else 0 }

  function ZoneCharAt(zones: map<Point, int>, p: Point): char {
    var c := Text.ZoneChar(ZoneAt(zones, p));
    if c.Some? then c.value else '.'
  }

  function GridDraw(tiles: Tiles, blocked: map<Point, bool>): Point -> char { p => GridChar(tiles, blocked, p) }

  function SpeedDraw(o: Options, tiles: Tiles, blocked: map<Point, bool>, charOf: map<int, char>): Point -> char {
    p => SpeedChar(o, tiles, blocked, charOf, p)
  }

  function ZoneDraw(zones: map<Point, int>): Point -> char { p => ZoneCharAt(zones, p) }

  /** The grid and speed rows of one floor, tile by tile. */
  method DrawFloor(region: Region, z: int, tiles: Tiles, blocked: map<Point, bool>, charOf: map<int, char>, o: Options)
    returns (grid: seq<string>, speed: seq<string>)
    requires tiles.Keys <= blocked.Keys
    ensures grid == Picture(region, z, GridDraw(tiles, blocked))
    ensures speed == Picture(region, z, SpeedDraw(o, tiles, blocked, charOf))
  {
    hide SpeedOf;
    grid, speed := [], [];
    for j := 0 to Length(region.y)
      invariant grid == Picture(region, z, GridDraw(tiles, blocked))[..j]
      invariant speed == Picture(region, z, SpeedDraw(o, tiles, blocked, charOf))[..j]
    {
      var row, speedRow := DrawRow(region, z, j, tiles, blocked, charOf, o);
      grid := grid + [row];
      speed := speed + [speedRow];
    }
  }

  method DrawRow(region: Region, z: int, j: nat, tiles: Tiles, blocked: map<Point, bool>, charOf: map<int, char>, o: Options)
    returns (row: string, speedRow: string)
    requires tiles.Keys <= blocked.Keys
    ensures row == PictureRow(region, z, j, GridDraw(tiles, blocked))
    ensures speedRow == PictureRow(region, z, j, SpeedDraw(o, tiles, blocked, charOf))
  {
    hide SpeedOf;
    row, speedRow := "", "";
    for i := 0 to Length(region.x)
      invariant row == PictureRow(region, z, j, GridDraw(tiles, blocked))[..i]
      invariant speedRow == PictureRow(region, z, j, SpeedDraw(o, tiles, blocked, charOf))[..i]
    {
      var k := Absolute(region, i, j, z);
      if k !in tiles || blocked[k] {
        row := row + ['#'];
        speedRow := speedRow + [' '];
      } else {
        row := row + ['.'];
        var speed := SpeedOf(o, tiles[k]);
        speedRow := speedRow + [if speed in charOf then charOf[speed] else ' '];
      }
    }
  }

  // ---------------------------------------------------------------- zones

  /** Only the tiles with a zone. */
  function Zones(tiles: Tiles): map<Point, int> { map p | p in tiles && ZoneFlagsOf(tiles[p]) != 0 :: ZoneFlagsOf(tiles[p]) }

  predicate InRegion(region: Region, p: Point) { Within(p.x, region.x) && Within(p.y, region.y) }

  ghost predicate AnyZone(zones: map<Point, int>, region: Region, z: int) {
    exists p: Point :: p.z == z && InRegion(region, p) && ZoneAt(zones, p) != 0
  }

  /** Rows for exactly the floors with a zone in the region. */
  ghost predicate IsZoneRows(rows: map<int, seq<string>>, zones: map<Point, int>, region: Region, floors: seq<int>) {
    && (forall z :: z in rows <==> z in floors && AnyZone(zones, region, z))
    && forall z :: z in rows ==> rows[z] == Picture(region, z, ZoneDraw(zones))
  }

  /** The two collections have the same zone on every tile of these floors inside the region. */
  ghost predicate SameZones(a: map<Point, int>, b: map<Point, int>, region: Region, floors: seq<int>) {
    forall p: Point :: p.z in floors && InRegion(region, p) ==> ZoneAt(a, p) == ZoneAt(b, p)
  }

  lemma SamePicture(a: map<Point, int>, b: map<Point, int>, region: Region, floors: seq<int>, z: int)
    requires SameZones(a, b, region, floors) && z in floors
    ensures Picture(region, z, ZoneDraw(a)) == Picture(region, z, ZoneDraw(b))
    ensures AnyZone(a, region, z) <==> AnyZone(b, region, z)
  {
    hide ZoneAt, Text.ZoneChar;
    forall j | 0 <= j < Length(region.y) ensures PictureRow(region, z, j, ZoneDraw(a)) == PictureRow(region, z, j, ZoneDraw(b)) {
      forall i | 0 <= i < Length(region.x)
        ensures ZoneCharAt(a, Absolute(region, i, j, z)) == ZoneCharAt(b, Absolute(region, i, j, z))
      {
        assert InRegion(region, Absolute(region, i, j, z));
      }
    }
  }

  /** Zone rows look at nothing outside their region and floors. */
  lemma OneZoneRows(rows: map<int, seq<string>>, others: map<int, seq<string>>, zones: map<Point, int>, zones1: map<Point, int>,
                    region: Region, floors: seq<int>)
    requires IsZoneRows(rows, zones, region, floors) && IsZoneRows(others, zones1, region, floors)
    requires SameZones(zones, zones1, region, floors)
    ensures rows == others
  {
    hide AnyZone, Picture, SameZones;
    forall z ensures (z in rows <==> z in others) && (z in rows ==> rows[z] == others[z]) {
      if z in floors { SamePicture(zones, zones1, region, floors, z); }
    }
  }

  method ZoneRowsOf(zones: map<Point, int>, region: Region, floors: seq<int>) returns (out: map<int, seq<string>>)
    requires forall p :: p in zones ==> Text.ZoneChar(zones[p]).Some?
    ensures IsZoneRows(out, zones, region, floors)
  {
    hide AnyZone;
    out := map[];
    for i := 0 to |floors|
      invariant IsZoneRows(out, zones, region, floors[..i])
    {
      assert floors[..i + 1] == floors[..i] + [floors[i]];
      var rows, any := ZoneFloor(zones, region, floors[i]);
      if any { out := out[floors[i] := rows]; }
    }
    assert floors[..|floors|] == floors;
  }

  ghost predicate AnyAbove(zones: map<Point, int>, region: Region, z: int, j: nat) {
    exists p: Point :: p.z == z && InRegion(region, p) && p.y < region.y.low + j && ZoneAt(zones, p) != 0
  }

  method ZoneFloor(zones: map<Point, int>, region: Region, z: int) returns (rows: seq<string>, any: bool)
    requires forall p :: p in zones ==> Text.ZoneChar(zones[p]).Some?
    ensures rows == Picture(region, z, ZoneDraw(zones)) && any == AnyZone(zones, region, z)
  {
    rows, any := [], false;
    for j := 0 to Length(region.y)
      invariant rows == Picture(region, z, ZoneDraw(zones))[..j] && any == AnyAbove(zones, region, z, j)
    {
      hide ZoneCharAt;
      var row, inRow := ZoneRow(zones, region, z, j);
      rows := rows + [row];
      any := any || inRow;
    }
  }

  ghost predicate AnyInRow(zones: map<Point, int>, region: Region, z: int, j: nat) {
    exists p: Point :: p.z == z && InRegion(region, p) && p.y == region.y.low + j && ZoneAt(zones, p) != 0
  }

  method ZoneRow(zones: map<Point, int>, region: Region, z: int, j: nat) returns (row: string, any: bool)
    requires j < Length(region.y) && forall p :: p in zones ==> Text.ZoneChar(zones[p]).Some?
    ensures row == PictureRow(region, z, j, ZoneDraw(zones)) && any == AnyInRow(zones, region, z, j)
  {
    row, any := "", false;
    for i := 0 to Length(region.x)
      invariant row == PictureRow(region, z, j, ZoneDraw(zones))[..i]
      invariant any == exists k :: 0 <= k < i && ZoneAt(zones, Absolute(region, k, j, z)) != 0
    {
      var value := ZoneAt(zones, Absolute(region, i, j, z));
      if value != 0 { any := true; }
      row := row + [ZoneCharAt(zones, Absolute(region, i, j, z))];
    }
    if any {
      var k :| 0 <= k < Length(region.x) && ZoneAt(zones, Absolute(region, k, j, z)) != 0;
      assert InRegion(region, Absolute(region, k, j, z));
    }
    if AnyInRow(zones, region, z, j) {
      var p: Point :| p.z == z && InRegion(region, p) && p.y == region.y.low + j && ZoneAt(zones, p) != 0;
      assert p == Absolute(region, p.x - region.x.low, j, z);
    }
  }

  /** The zone rows straight from the stream, without any art package. */
  method DeriveZones(source: seq<Tile>, region: Region, floors: seq<int>) returns (rows: map<int, seq<string>>)
    ensures IsZoneRows(rows, Zones(Existing(source)), region, floors)
  {
    var tiles, _, _ := CollectTiles(source);
    rows := ZoneRowsOf(Zones(Present(tiles)), region, floors);
  }

  // ---------------------------------------------------------------- the import

  datatype Error = NoWalkableSeed | UnknownArt | EmptyRegion | TooManySpeeds | NoDefaultFloor | BadEntry | RefusedBySchema

  datatype Imported = Imported(content: Text.MapText, region: Region, floors: seq<int>)

  function BlockedMap(o: Options, tiles: Tiles): map<Point, bool> { map p | p in tiles :: StackBlocks(o, tiles[p]) }

  function ZoneText(rows: map<int, seq<string>>, z: int): Option<seq<string>> { if z in rows then Some(rows[z]) else None }

  /** The layers of one floor as the import draws them. */
  function Drawn(o: Options, kept: Tiles, blocked: map<Point, bool>, charOf: map<int, char>, rows: map<int, seq<string>>,
                 region: Region, z: int): Text.FloorText {
    Text.FloorText(Picture(region, z, GridDraw(kept, blocked)),
                   Some(Picture(region, z, SpeedDraw(o, kept, blocked, charOf))), ZoneText(rows, z))
  }

  ghost predicate IsDrawing(content: Text.MapText, floors: seq<int>, o: Options, kept: Tiles, blocked: map<Point, bool>,
                            charOf: map<int, char>, rows: map<int, seq<string>>, region: Region) {
    && |content.floors| == |floors|
    && forall i :: 0 <= i < |floors| ==>
        content.floors[i] == (floors[i], Drawn(o, kept, blocked, charOf, rows, region, floors[i]))
  }

  function DefaultFloor(o: Options, floors: seq<int>): int
    requires floors != []
  {
    if o.defaultZ.Some? then o.defaultZ.value
    else if o.entryPoint.Some? then o.entryPoint.value.z
    else floors[|floors| - 1]
  }

  /** What a finished import is. */
  ghost predicate IsImport(r: Imported, o: Options, source: seq<Tile>) {
    var existing, kept := Existing(source), Kept(o, source);
    && IsFinalRegion(o, kept, r.region) && Length(r.region.x) > 0 && Length(r.region.y) > 0
    && r.floors != [] && IdRanges.Increasing(r.floors) && (forall z :: z in r.floors <==> z in Zs(kept.Keys))
    && r.content.z == DefaultFloor(o, r.floors) && r.content.z in r.floors
    && r.content.grid == None && r.content.floorChanges == []
    && exists charOf, rows :: IsDrawn(r, o, existing, kept, charOf, rows)
  }

  /** The layers are drawn with these characters for the speeds and these rows of zones. */
  ghost predicate IsDrawn(r: Imported, o: Options, existing: Tiles, kept: Tiles, charOf: map<int, char>,
                          rows: map<int, seq<string>>) {
    && PaletteFits(SpeedsIn(o, kept), charOf, r.content.speedPalette)
    && IsZoneRows(rows, Zones(existing), r.region, r.floors)
    && IsDrawing(r.content, r.floors, o, kept, BlockedMap(o, existing), charOf, rows, r.region)
  }

  /** When an import is refused, and why. */
  ghost predicate Refused(o: Options, source: seq<Tile>, e: Error) {
    var existing := Existing(source);
    if e.NoWalkableSeed? then o.keepFrom.Some? && NoneEligible(WalkableSet(o, existing), o.keepFrom.value)
    else
      var kept := Kept(o, source);
      match e
      case UnknownArt => !o.allowUnknown && AllUnknown(kept, o) != {}
      case EmptyRegion => kept == map[]
      case TooManySpeeds => |SpeedsIn(o, kept)| > PALETTE_SIZE
      case NoDefaultFloor =>
        || (o.defaultZ.Some? && o.defaultZ.value !in Zs(kept.Keys))
        || (o.defaultZ.None? && o.entryPoint.Some? && o.entryPoint.value.z !in Zs(kept.Keys))
      case BadEntry => o.entryPoint.Some? && (o.entryPoint.value !in kept || StackBlocks(o, kept[o.entryPoint.value]))
      case RefusedBySchema => o.keepFrom.None? && (Length(o.region.x) == 0 || Length(o.region.y) == 0)
      case NoWalkableSeed => false
  }

  /** The tiles an import keeps, with what it judged of every tile that exists. */
  method KeepTiles(source: seq<Tile>, o: Options) returns (kept: Option<Tiles>, blocked: map<Point, bool>, zones: map<Point, int>)
    ensures kept.None? <==> Refused(o, source, NoWalkableSeed)
    ensures kept.Some? ==> kept.value == Kept(o, source)
    ensures kept.Some? && o.keepFrom.Some? ==> kept.value.Keys != {}
    ensures blocked == BlockedMap(o, Existing(source)) && zones == Zones(Existing(source))
  {
    hide StackBlocks, ZoneFlagsOf, Exists, Stays, NoneEligible, InComponent;
    var all, _, _ := CollectTiles(source);
    var tiles := Present(all);
    var ignored: set<nat>;
    blocked, ignored := JudgeTiles(tiles, o);
    zones := Zones(tiles);
    kept := Some(tiles);
    if o.keepFrom.Some? {
      var seed := o.keepFrom.value;
      var walkable := set p | p in tiles && !blocked[p];
      assert walkable == WalkableSet(o, tiles);
      var component := WalkableComponent(walkable, seed);
      if component.None? { return None, blocked, zones; }
      assert component.value == ComponentFrom(o, tiles, seed);
      var cut := Cut(tiles, component.value, seed);
      KeptSomething(tiles, component.value, seed, cut);
      kept := Some(cut);
    }
    assert forall p :: p in kept.value <==> p in tiles && Keeps(o, tiles, p);
  }

  lemma KeptSomething(tiles: Tiles, component: set<Point>, seed: Point, kept: Tiles)
    requires component != {} && component <= tiles.Keys
    requires forall p :: p in kept <==> p in tiles && Stays(component, seed, p)
    ensures kept.Keys != {}
  {
    var c :| c in component;
    assert Beside(c, c) && InBorder(component, c);
    assert InBox(component, c);
    assert c in kept;
  }

  /** The box of what was kept after a cut, or the region asked for. */
  method FinalRegion(o: Options, kept: Tiles) returns (region: Region)
    requires o.keepFrom.Some? ==> kept.Keys != {}
    ensures IsFinalRegion(o, kept, region)
  {
    if o.keepFrom.None? { return o.region; }
    ghost var p :| p in kept.Keys;
    assert p.x in Xs(kept.Keys) && p.y in Ys(kept.Keys) && p.z in Zs(kept.Keys);
    var x := SpanOf(Xs(kept.Keys));
    var y := SpanOf(Ys(kept.Keys));
    var z := SpanOf(Zs(kept.Keys));
    region := Region(x, y, z);
  }

  method DrawFloors(o: Options, kept: Tiles, blocked: map<Point, bool>, charOf: map<int, char>, rows: map<int, seq<string>>,
                    region: Region, floors: seq<int>) returns (out: seq<(int, Text.FloorText)>)
    requires kept.Keys <= blocked.Keys
    ensures |out| == |floors|
    ensures forall i :: 0 <= i < |floors| ==> out[i] == (floors[i], Drawn(o, kept, blocked, charOf, rows, region, floors[i]))
  {
    hide Picture;
    out := [];
    for i := 0 to |floors|
      invariant |out| == i
      invariant forall k :: 0 <= k < i ==> out[k] == (floors[k], Drawn(o, kept, blocked, charOf, rows, region, floors[k]))
    {
      var grid, speed := DrawFloor(region, floors[i], kept, blocked, charOf, o);
      out := out + [(floors[i], Text.FloorText(grid, Some(speed), ZoneText(rows, floors[i])))];
    }
  }

  lemma IncreasingSize(sorted: seq<int>, values: set<int>)
    requires IdRanges.Increasing(sorted) && forall v :: v in sorted <==> v in values
    ensures |sorted| == |values|
  {
    Walks.DistinctSize(sorted);
    assert (set v | v in sorted) == values;
  }

  lemma ZonesAreWritable(tiles: Tiles)
    ensures forall p :: p in Zones(tiles) ==> Text.ZoneChar(Zones(tiles)[p]).Some?
  {}

  lemma LengthOfSpans(o: Options, kept: Tiles, region: Region)
    requires IsFinalRegion(o, kept, region) && o.keepFrom.Some?
    ensures Length(region.x) > 0 && Length(region.y) > 0
  {}

  lemma SameEmptiness(floors: seq<int>, values: set<int>)
    requires forall z :: z in floors <==> z in values
    ensures floors == [] <==> values == {}
  {
    if floors == [] {
      forall z ensures z !in values { assert z !in floors; }
      assert values == {};
    } else {
      var z := floors[0];
      assert z in floors;
    }
  }

  lemma NoFloorNoTile(kept: Tiles)
    ensures Zs(kept.Keys) == {} <==> kept == map[]
  {
    if kept != map[] {
      var p :| p in kept.Keys;
      assert p.z in Zs(kept.Keys);
    }
  }

  method Import(source: seq<Tile>, o: Options) returns (result: Result<Imported, Error>)
    ensures result.Ok? ==> IsImport(result.value, o, source)
    ensures result.Ok? ==> forall e :: !Refused(o, source, e)
    ensures result.Err? ==> Refused(o, source, result.error)
  {
    hide Kept, Existing, Zones, IsFinalRegion, AllUnknown, SpeedsIn, StackBlocks, NoneEligible, IsDrawn, BlockedMap;
    var kept, blocked, zones := KeepTiles(source, o);
    if kept.None? { return Err(NoWalkableSeed); }
    var tiles := kept.value;
    KeptExists(o, source);
    var judged, unknown := JudgeTiles(tiles, o);
    if unknown != {} && !o.allowUnknown { return Err(UnknownArt); }
    var region := FinalRegion(o, tiles);
    var floors := SortNumbers(Zs(tiles.Keys));
    SameEmptiness(floors, Zs(tiles.Keys));
    NoFloorNoTile(tiles);
    if floors == [] { return Err(EmptyRegion); }
    var drawn := Draw(o, Existing(source), tiles, blocked, zones, region, floors);
    if drawn.None? { return Err(TooManySpeeds); }
    if drawn.value.content.z !in floors { return Err(NoDefaultFloor); }
    if o.entryPoint.Some? && (o.entryPoint.value !in tiles || StackBlocks(o, tiles[o.entryPoint.value])) { return Err(BadEntry); }
    if o.keepFrom.Some? { LengthOfSpans(o, tiles, region); } else { SameRegion(o, tiles, region); }
    if Length(region.x) == 0 || Length(region.y) == 0 { return Err(RefusedBySchema); }
    result := Ok(drawn.value);
  }

  /** Palette, zone rows and layers; nothing when there are more speeds than characters. */
  method Draw(o: Options, ghost existing: Tiles, tiles: Tiles, blocked: map<Point, bool>, zones: map<Point, int>,
              region: Region, floors: seq<int>)
    returns (result: Option<Imported>)
    requires floors != [] && tiles.Keys <= existing.Keys && blocked == BlockedMap(o, existing) && zones == Zones(existing)
    ensures result.None? <==> |SpeedsIn(o, tiles)| > PALETTE_SIZE
    ensures result.Some? ==> result.value.region == region && result.value.floors == floors
    ensures result.Some? ==>
              var c := result.value.content; c.z == DefaultFloor(o, floors) && c.grid == None && c.floorChanges == []
    ensures result.Some? ==> exists charOf, rows :: IsDrawn(result.value, o, existing, tiles, charOf, rows)
  {
    hide Zones, IsZoneRows, PaletteFits, SpeedsIn, Drawn, StackBlocks;
    var speeds := SortNumbers(SpeedsIn(o, tiles));
    IncreasingSize(speeds, SpeedsIn(o, tiles));
    if |speeds| > PALETTE_SIZE { return None; }
    var charOf, palette := BuildPalette(speeds, SpeedsIn(o, tiles));
    ZonesAreWritable(existing);
    var rows := ZoneRowsOf(zones, region, floors);
    var drawn := DrawFloors(o, tiles, blocked, charOf, rows, region, floors);
    result := Some(Imported(Text.MapText(DefaultFloor(o, floors), None, drawn, palette, []), region, floors));
    assert IsDrawn(result.value, o, existing, tiles, charOf, rows);
  }

  lemma SameRegion(o: Options, kept: Tiles, region: Region)
    requires IsFinalRegion(o, kept, region) && o.keepFrom.None?
    ensures region == o.region
  {}

  lemma KeptExists(o: Options, source: seq<Tile>)
    ensures Kept(o, source).Keys <= Existing(source).Keys
  {}

  // ---------------------------------------------------------------- results

  /** Every row of every floor drawn has the region's width, so the map built is as large as the region. */
  lemma {:induction false} DrawnSize(o: Options, kept: Tiles, blocked: map<Point, bool>, charOf: map<int, char>,
                                     rows: map<int, seq<string>>, region: Region, floors: seq<int>,
                                     drawn: seq<(int, Text.FloorText)>)
    requires Length(region.x) > 0 && Length(region.y) > 0
    requires |drawn| == |floors|
    requires forall i :: 0 <= i < |floors| ==> drawn[i] == (floors[i], Drawn(o, kept, blocked, charOf, rows, region, floors[i]))
    ensures Text.Height(drawn) == if drawn == [] then 0 else Length(region.y)
    ensures Text.Width(drawn) == if drawn == [] then 0 else Length(region.x)
  {
    if drawn != [] {
      DrawnSize(o, kept, blocked, charOf, rows, region, floors[1..], drawn[1..]);
      var grid := drawn[0].1.grid;
      assert |grid| == Length(region.y) && forall y :: 0 <= y < |grid| ==> |grid[y]| == Length(region.x);
      EvenRows(grid, Length(region.x));
    }
  }

  lemma {:induction false} EvenRows(rows: seq<string>, w: nat)
    requires rows != [] && forall y :: 0 <= y < |rows| ==> |rows[y]| == w
    ensures Text.LongestRow(rows) == w
  {
    if |rows| > 1 { EvenRows(rows[1..], w); }
  }

  /** The text of a floor is what was drawn for it. */
  lemma {:induction false} TextOfFloor(floors: seq<int>, drawn: seq<(int, Text.FloorText)>, z: int, k: nat)
    requires IdRanges.Increasing(floors) && |drawn| == |floors| && forall i :: 0 <= i < |floors| ==> drawn[i].0 == floors[i]
    requires z in floors ==> k < |floors| && floors[k] == z
    ensures Text.LastText(drawn, z) == if z in floors then Some(drawn[k].1) else None
  {
    if drawn != [] {
      var n := |drawn| - 1;
      assert floors == floors[..n] + [floors[n]];
      if floors[n] == z {
        assert k == n;
      } else {
        TextOfFloor(floors[..n], drawn[..n], z, k);
      }
    }
  }

  predicate OnMap(region: Region, x: int, y: int) { 0 <= x < Length(region.x) && 0 <= y < Length(region.y) }

  /** The local tile was kept and its stack lets through. */
  ghost predicate Free(o: Options, kept: Tiles, region: Region, x: int, y: int, z: int) {
    var p := Absolute(region, x, y, z);
    OnMap(region, x, y) && p in kept && !StackBlocks(o, kept[p])
  }

  /** What blocking was judged from is what was kept. */
  ghost predicate Judged(o: Options, kept: Tiles, blocked: map<Point, bool>) {
    forall p :: p in kept ==> p in blocked && blocked[p] == StackBlocks(o, kept[p])
  }

  lemma DrawnGrid(o: Options, kept: Tiles, blocked: map<Point, bool>, charOf: map<int, char>, rows: map<int, seq<string>>,
                  region: Region, x: int, y: int, z: int)
    requires Judged(o, kept, blocked)
    ensures Text.BlockedAt(Drawn(o, kept, blocked, charOf, rows, region, z), x, y) <==> !Free(o, kept, region, x, y, z)
  {
    PictureShows(region, z, GridDraw(kept, blocked), x, y);
    hide Picture, StackBlocks, Text.CharAt;
  }

  lemma DrawnSpeed(o: Options, kept: Tiles, blocked: map<Point, bool>, charOf: map<int, char>, rows: map<int, seq<string>>,
                   region: Region, palette: map<char, int>, x: int, y: int, z: int)
    requires Judged(o, kept, blocked) && PaletteFits(SpeedsIn(o, kept), charOf, palette)
    ensures Text.SpeedAt(Drawn(o, kept, blocked, charOf, rows, region, z), palette, x, y)
         == Some(if Free(o, kept, region, x, y, z) then SpeedOf(o, kept[Absolute(region, x, y, z)]) % 0x1_0000
                 else DEFAULT_GROUND_SPEED)
  {
    DrawnGrid(o, kept, blocked, charOf, rows, region, x, y, z);
    PictureShows(region, z, SpeedDraw(o, kept, blocked, charOf), x, y);
    hide Picture, StackBlocks, Text.CharAt, Text.BlockedAt, SpeedOf;
    if Free(o, kept, region, x, y, z) {
      var p := Absolute(region, x, y, z);
      assert SpeedOf(o, kept[p]) as int in SpeedsIn(o, kept);
    }
  }

  lemma DrawnZones(o: Options, kept: Tiles, blocked: map<Point, bool>, charOf: map<int, char>, rows: map<int, seq<string>>,
                   region: Region, existing: Tiles, floors: seq<int>, x: int, y: int, z: int)
    requires IsZoneRows(rows, Zones(existing), region, floors) && z in floors
    ensures var floor := Drawn(o, kept, blocked, charOf, rows, region, z);
      (if floor.zones.Some? then Text.ZonesAt(floor, x, y) else Some(0))
        == Some(if OnMap(region, x, y) then ZoneAt(Zones(existing), Absolute(region, x, y, z)) else 0)
  {
    var zones := Zones(existing);
    ZonesAreWritable(existing);
    var p := Absolute(region, x, y, z);
    if z in rows {
      PictureShows(region, z, ZoneDraw(zones), x, y);
      Text.ZonePaletteIsOneToOne(ZoneCharAt(zones, p), ZoneAt(zones, p));
    } else if OnMap(region, x, y) {
      assert p.z == z && InRegion(region, p) && !AnyZone(zones, region, z);
    }
  }

  lemma KeptIsJudged(o: Options, source: seq<Tile>)
    ensures Judged(o, Kept(o, source), BlockedMap(o, Existing(source)))
  {}

  lemma DrawnIsKnown(o: Options, kept: Tiles, blocked: map<Point, bool>, charOf: map<int, char>, rows: map<int, seq<string>>,
                     region: Region, palette: map<char, int>, existing: Tiles, floors: seq<int>, z: int, w: nat, h: nat)
    requires Judged(o, kept, blocked) && PaletteFits(SpeedsIn(o, kept), charOf, palette)
    requires IsZoneRows(rows, Zones(existing), region, floors) && z in floors
    ensures Text.FloorKnown(Drawn(o, kept, blocked, charOf, rows, region, z), palette, w, h)
  {
    hide Judged, PaletteFits, IsZoneRows, Text.SpeedAt, Text.ZonesAt, Free, OnMap;
    var floor := Drawn(o, kept, blocked, charOf, rows, region, z);
    forall x, y | Text.Inside(w, h, x, y) ensures Text.SpeedAt(floor, palette, x, y).Some? {
      DrawnSpeed(o, kept, blocked, charOf, rows, region, palette, x, y, z);
    }
    if floor.zones.Some? {
      forall x, y | Text.Inside(w, h, x, y) ensures Text.ZonesAt(floor, x, y).Some? {
        DrawnZones(o, kept, blocked, charOf, rows, region, existing, floors, x, y, z);
      }
    }
  }

  /** The text of an import is one the map builder accepts, and the map is as large as the region. */
  lemma ImportBuilds(o: Options, source: seq<Tile>, r: Imported)
    requires IsImport(r, o, source)
    ensures Text.Buildable(r.content)
    ensures Text.Width(Text.FloorData(r.content)) == Length(r.region.x)
    ensures Text.Height(Text.FloorData(r.content)) == Length(r.region.y)
  {
    var existing, kept := Existing(source), Kept(o, source);
    var charOf, rows :| IsDrawn(r, o, existing, kept, charOf, rows);
    KeptIsJudged(o, source);
    hide Kept, Existing, IsDrawn, StackBlocks, IsFinalRegion, Judged, BlockedMap, Text.AllKnown;
    DrawnBuilds(r, o, existing, kept, charOf, rows);
    TextIsDrawn(r, o, existing, kept, charOf, rows, r.content.z);
  }

  lemma DrawnBuilds(r: Imported, o: Options, existing: Tiles, kept: Tiles, charOf: map<int, char>, rows: map<int, seq<string>>)
    requires IsDrawn(r, o, existing, kept, charOf, rows) && Judged(o, kept, BlockedMap(o, existing))
    requires Length(r.region.x) > 0 && Length(r.region.y) > 0 && r.floors != [] && r.content.grid == None
    ensures var floors, w, h := Text.FloorData(r.content), Length(r.region.x), Length(r.region.y);
      floors != [] && Text.Width(floors) == w && Text.Height(floors) == h && Text.AllKnown(floors, r.content.speedPalette, w, h)
  {
    var floors, w, h := r.content.floors, Length(r.region.x), Length(r.region.y);
    assert Text.FloorData(r.content) == floors;
    var blocked, palette := BlockedMap(o, existing), r.content.speedPalette;
    hide Zones, PaletteFits, IsZoneRows, Drawn, SpeedsIn, StackBlocks, Judged, BlockedMap, Text.FloorKnown;
    DrawnSize(o, kept, blocked, charOf, rows, r.region, r.floors, floors);
    forall i | 0 <= i < |floors| ensures Text.FloorKnown(floors[i].1, palette, w, h) {
      DrawnIsKnown(o, kept, blocked, charOf, rows, r.region, palette, existing, r.floors, r.floors[i], w, h);
    }
  }

  lemma TextIsDrawn(r: Imported, o: Options, existing: Tiles, kept: Tiles, charOf: map<int, char>,
                    rows: map<int, seq<string>>, z: int)
    requires IsDrawn(r, o, existing, kept, charOf, rows) && IdRanges.Increasing(r.floors) && r.content.grid == None
    ensures Text.LastText(Text.FloorData(r.content), z)
         == if z in r.floors then Some(Drawn(o, kept, BlockedMap(o, existing), charOf, rows, r.region, z)) else None
  {
    var floors := r.content.floors;
    assert Text.FloorData(r.content) == floors;
    DrawingText(floors, r.floors, r.content, o, kept, BlockedMap(o, existing), charOf, rows, r.region, z);
  }

  lemma DrawingText(floors: seq<(int, Text.FloorText)>, zs: seq<int>, content: Text.MapText, o: Options, kept: Tiles,
                    blocked: map<Point, bool>, charOf: map<int, char>, rows: map<int, seq<string>>, region: Region, z: int)
    requires floors == content.floors && IsDrawing(content, zs, o, kept, blocked, charOf, rows, region) && IdRanges.Increasing(zs)
    ensures Text.LastText(floors, z) == if z in zs then Some(Drawn(o, kept, blocked, charOf, rows, region, z)) else None
  {
    hide Drawn, Text.LastText;
    if z in zs {
      var k :| 0 <= k < |zs| && zs[k] == z;
      TextOfFloor(zs, floors, z, k);
    } else {
      TextOfFloor(zs, floors, z, 0);
    }
  }

  /** Importing and then building preserves the region, tile by tile. */
  lemma ImportThenBuild(o: Options, source: seq<Tile>, r: Imported, m: Tilemap, x: int, y: int, z: int)
    requires IsImport(r, o, source) && Text.Built(r.content, m)
    ensures var existing, kept, p := Existing(source), Kept(o, source), Absolute(r.region, x, y, z);
      && (IsBlocked(m, x, y, z) <==> !Free(o, kept, r.region, x, y, z))
      && GroundSpeed(m, x, y, z)
         == (if Free(o, kept, r.region, x, y, z) then SpeedOf(o, kept[p]) % 0x1_0000 else DEFAULT_GROUND_SPEED)
      && ZoneFlagsAt(m, x, y, z)
         == if OnMap(r.region, x, y) && z in Zs(kept.Keys) && p in existing then ZoneFlagsOf(existing[p]) else 0
  {
    var existing, kept := Existing(source), Kept(o, source);
    var charOf, rows :| IsDrawn(r, o, existing, kept, charOf, rows);
    var blocked := BlockedMap(o, existing);
    var floor := Drawn(o, kept, blocked, charOf, rows, r.region, z);
    ImportBuilds(o, source, r);
    KeptIsJudged(o, source);
    ZonesOf(existing, Absolute(r.region, x, y, z));
    if Free(o, kept, r.region, x, y, z) { FreeIsOnFloor(o, kept, r.region, x, y, z); }
    TextIsDrawn(r, o, existing, kept, charOf, rows, z);
    assert z in r.floors <==> z in Zs(kept.Keys);
    assert m.width == Length(r.region.x) && m.height == Length(r.region.y);
    Text.BuiltBlocks(r.content, m, x, y, z);
    Text.BuiltSpeed(r.content, m, x, y, z);
    Text.BuiltZones(r.content, m, x, y, z);
    hide Kept, Existing, Zones, PaletteFits, IsZoneRows, BlockedMap, Judged, IsFinalRegion, IsDrawing, StackBlocks, SpeedsIn, Zs,
      Text.Built, Text.Buildable, Text.LastText, Text.BlockedAt, Text.SpeedAt, Text.ZonesAt, IsBlocked, GroundSpeed,
      ZoneFlagsAt, SpeedOf;
    if z in r.floors {
      DrawnGrid(o, kept, blocked, charOf, rows, r.region, x, y, z);
      DrawnSpeed(o, kept, blocked, charOf, rows, r.region, r.content.speedPalette, x, y, z);
      DrawnZones(o, kept, blocked, charOf, rows, r.region, existing, r.floors, x, y, z);
    }
  }

  lemma ZonesOf(existing: Tiles, p: Point)
    ensures ZoneAt(Zones(existing), p) == if p in existing then ZoneFlagsOf(existing[p]) else 0
  {}

  lemma FreeIsOnFloor(o: Options, kept: Tiles, region: Region, x: int, y: int, z: int)
    requires Free(o, kept, region, x, y, z)
    ensures z in Zs(kept.Keys)
  {
    var p := Absolute(region, x, y, z);
    assert p in kept.Keys && p.z == z;
  }

  // ---------------------------------------------------------------- reading the zones again

  predicate Encloses(region: Region, p: Point) { InRegion(region, p) && Within(p.z, region.z) }

  /** Inside the region a clipped stream has the last records of the whole one. */
  lemma {:induction false} ClippedRecords(source: seq<Tile>, region: Region, p: Point)
    requires Encloses(region, p)
    ensures p in LastRecords(OtbmMap.Clip(source, region)) <==> p in LastRecords(source)
    ensures p in LastRecords(source) ==> LastRecords(OtbmMap.Clip(source, region))[p] == LastRecords(source)[p]
  {
    if source != [] {
      var front, last := source[..|source| - 1], source[|source| - 1];
      ClippedRecords(front, region, p);
      ClipSnoc(front, last, region);
      assert source == front + [last];
      RecordsSnoc(front, last);
      RecordsSnoc(OtbmMap.Clip(front, region), last);
      assert PositionOf(last) == p ==> OtbmMap.Inside(last, region);
      hide LastRecords, OtbmMap.Clip, OtbmMap.Inside;
    }
  }

  lemma ClipSnoc(front: seq<Tile>, last: Tile, region: Region)
    ensures OtbmMap.Clip(front + [last], region)
         == if OtbmMap.Inside(last, region) then OtbmMap.Clip(front, region) + [last] else OtbmMap.Clip(front, region)
  {
    OtbmMap.ClipConcat(front, [last], region);
    OtbmMap.ClipOne(last, region);
    assert OtbmMap.Clip(front, region) + [] == OtbmMap.Clip(front, region);
  }

  lemma RecordsSnoc(front: seq<Tile>, last: Tile)
    ensures LastRecords(front + [last]) == LastRecords(front)[PositionOf(last) := last]
  {
    assert (front + [last])[..|front|] == front;
  }

  lemma ClippedZones(source: seq<Tile>, region: Region, floors: seq<int>)
    requires forall z :: z in floors ==> Within(z, region.z)
    ensures SameZones(Zones(Existing(OtbmMap.Clip(source, region))), Zones(Existing(source)), region, floors)
  {
    hide ZoneFlagsOf, Exists;
    var clipped := OtbmMap.Clip(source, region);
    forall p: Point | p.z in floors && InRegion(region, p)
      ensures ZoneAt(Zones(Existing(clipped)), p) == ZoneAt(Zones(Existing(source)), p)
    {
      ClippedRecords(source, region, p);
      ZonesOf(Existing(clipped), p);
      ZonesOf(Existing(source), p);
    }
  }

  /** Every tile of the source is one the region asked for. */
  ghost predicate ReadFrom(o: Options, source: seq<Tile>) { forall t :: t in source ==> OtbmMap.Inside(t, o.region) }

  lemma KeptInRegion(o: Options, source: seq<Tile>)
    requires ReadFrom(o, source)
    ensures forall p :: p in Kept(o, source) ==> Encloses(o.region, p)
  {
    hide Keeps;
    forall p | p in Kept(o, source) ensures Encloses(o.region, p) { RecordsAt(source, p); }
  }

  /** The final region lies in the one asked for, and the floors lie in it. */
  lemma FinalRegionCovers(o: Options, source: seq<Tile>, region: Region)
    requires ReadFrom(o, source) && IsFinalRegion(o, Kept(o, source), region)
    ensures OtbmMap.Covers(o.region, region) && forall z :: z in Zs(Kept(o, source).Keys) ==> Within(z, region.z)
  {
    KeptInRegion(o, source);
    hide Kept;
    forall z | z in Zs(Kept(o, source).Keys) ensures Within(z, region.z) {
      var p :| p in Kept(o, source).Keys && p.z == z;
      assert Encloses(o.region, p);
    }
  }

  /** The zone rows derived from the part of the stream inside the final region are the ones the import wrote. */
  lemma DerivedZonesAgree(o: Options, source: seq<Tile>, r: Imported, derived: map<int, seq<string>>, i: nat)
    requires IsImport(r, o, source) && ReadFrom(o, source)
    requires IsZoneRows(derived, Zones(Existing(OtbmMap.Clip(source, r.region))), r.region, r.floors)
    requires i < |r.floors|
    ensures |r.content.floors| == |r.floors| && r.content.floors[i].1.zones == ZoneText(derived, r.floors[i])
  {
    var existing, kept := Existing(source), Kept(o, source);
    var charOf, rows :| IsDrawn(r, o, existing, kept, charOf, rows);
    FinalRegionCovers(o, source, r.region);
    ClippedZones(source, r.region, r.floors);
    hide Kept, Existing, Zones, IsZoneRows, SameZones;
    OneZoneRows(derived, rows, Zones(Existing(OtbmMap.Clip(source, r.region))), Zones(existing), r.region, r.floors);
  }

  /**
   * On the bytes: importing a map file, then deriving the zones from that file read anew with the final region,
   * gives the rows written.
   */
  lemma RereadZonesAgree(f: OtbmMap.MapFile, root: OtbmTree.Node, o: Options, r: Imported, derived: map<int, seq<string>>, i: nat)
    requires OtbmMap.ValidFile(f) && OtbmMap.Extends(root, OtbmMap.FileTree(f))
    requires IsImport(r, o, ReadTiles(OtbmTree.FileBytes(root), o.region).tiles)
    requires IsZoneRows(derived, Zones(Existing(ReadTiles(OtbmTree.FileBytes(root), r.region).tiles)), r.region, r.floors)
    requires i < |r.floors|
    ensures |r.content.floors| == |r.floors| && r.content.floors[i].1.zones == ZoneText(derived, r.floors[i])
  {
    hide ReadTiles, IsImport, IsZoneRows, OtbmMap.AllTiles;
    var source := ReadTiles(OtbmTree.FileBytes(root), o.region).tiles;
    OtbmMap.ReadPrintedMap(f, root, o.region);
    OtbmMap.ClippedAreInside(OtbmMap.AllTiles(f.areas), o.region);
    ImportedRegion(o, source, r);
    FinalRegionCovers(o, source, r.region);
    OtbmMap.PruningIsFiltering(f, root, o.region, r.region);
    DerivedZonesAgree(o, source, r, derived, i);
  }

  lemma ImportedRegion(o: Options, source: seq<Tile>, r: Imported)
    requires IsImport(r, o, source)
    ensures IsFinalRegion(o, Kept(o, source), r.region)
  {}
}
