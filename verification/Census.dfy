/** Counting the world's tiles through one bitset per sector, and why three readers of one stream agree on the count. */
module Census {
  import opened Numbers
  import opened Otbm
  import OtbmBounds
  import WorldMap

  const SECTOR_BITS := 128

  type Place = (nat, nat, nat)

  function PlaceOf(t: Tile): Place { (t.x, t.y, t.z) }

  ghost function Places(tiles: seq<Tile>): set<Place> { set t | t in tiles :: PlaceOf(t) }

  /** Coordinates of 16 bits. */
  predicate Narrow(p: Place) { p.0 < 0x1_0000 && p.1 < 0x1_0000 }

  function SectorKey(p: Place): nat {
    ((p.2 * 2048) + p.1 / SECTOR_SIZE) * 2048 + p.0 / SECTOR_SIZE
  }

  /** The bit of a place inside its sector's set: which byte, and which bit of it. */
  function Bit(p: Place): (b: nat)
    ensures b < 1024
  {
    (p.1 % SECTOR_SIZE) * SECTOR_SIZE + p.0 % SECTOR_SIZE
  }

  predicate TestBit(b: bv8, k: nat)
    requires k < 8
  {
    b & ((1 as bv8) << k) != 0
  }

  function SetBit(b: bv8, k: nat): bv8
    requires k < 8
  {
    b | ((1 as bv8) << k)
  }

  lemma SetBitTests(b: bv8, k: nat, j: nat)
    requires k < 8 && j < 8
    ensures TestBit(SetBit(b, k), j) <==> j == k || TestBit(b, j)
  {}

  lemma NoBitSet(j: nat)
    requires j < 8
    ensures !TestBit(0, j)
  {}

  /** The key and the bit together give the place back. */
  lemma KeyAndBitInjective(p: Place, q: Place)
    requires Narrow(p) && Narrow(q) && SectorKey(p) == SectorKey(q) && Bit(p) == Bit(q)
    ensures p == q
  {
    assert p.0 / 32 < 2048 && q.0 / 32 < 2048 && p.1 / 32 < 2048 && q.1 / 32 < 2048;
    var rowP, rowQ := p.2 * 2048 + p.1 / 32, q.2 * 2048 + q.1 / 32;
    assert rowP * 2048 + p.0 / 32 == rowQ * 2048 + q.0 / 32;
    assert rowP == rowQ;
    assert p.1 / 32 == q.1 / 32 && p.0 / 32 == q.0 / 32 && p.2 == q.2;
    assert p.1 % 32 == q.1 % 32 && p.0 % 32 == q.0 % 32;
  }

  type Bits = s: seq<bv8> | |s| == SECTOR_BITS witness seq(SECTOR_BITS, _ => 0)

  /** Where a place is marked: the sector's key, and the bit. */
  type Spot = (nat, nat)

  function SpotOf(p: Place): Spot { (SectorKey(p), Bit(p)) }

  ghost function Spots(tiles: seq<Tile>): set<Spot> { set t | t in tiles :: SpotOf(PlaceOf(t)) }

  predicate Marked(sectors: map<nat, Bits>, spot: Spot)
    requires spot.1 < 1024
  {
    spot.0 in sectors && TestBit(sectors[spot.0][spot.1 / 8], spot.1 % 8)
  }

  function Mark(sectors: map<nat, Bits>, spot: Spot): map<nat, Bits>
    requires spot.0 in sectors && spot.1 < 1024
  {
    var bits := sectors[spot.0];
    sectors[spot.0 := bits[spot.1 / 8 := SetBit(bits[spot.1 / 8], spot.1 % 8)]]
  }

  /** Marking a spot marks that spot and no other. */
  lemma MarkMarks(sectors: map<nat, Bits>, spot: Spot, other: Spot)
    requires spot.0 in sectors && spot.1 < 1024 && other.1 < 1024
    ensures Marked(Mark(sectors, spot), other) <==> other == spot || Marked(sectors, other)
  {
    if spot.0 == other.0 && spot.1 / 8 == other.1 / 8 {
      SetBitTests(sectors[spot.0][spot.1 / 8], spot.1 % 8, other.1 % 8);
      assert spot.1 % 8 == other.1 % 8 ==> spot.1 == other.1 && spot == (spot.0, spot.1) == other;
    }
  }

  const EMPTY: Bits := seq(SECTOR_BITS, _ => 0)

  lemma NewSectorMarksNothing(sectors: map<nat, Bits>, key: nat, spot: Spot)
    requires key !in sectors && spot.1 < 1024
    ensures Marked(sectors[key := EMPTY], spot) <==> Marked(sectors, spot)
  {
    NoBitSet(spot.1 % 8);
  }

  // ---------------------------------------------------------------- what is counted

  /** The places that found their spot unmarked: one for each spot. */
  ghost function Firsts(tiles: seq<Tile>): set<Place> {
    if tiles == [] then {}
    else
      var before, place := tiles[..|tiles| - 1], PlaceOf(tiles[|tiles| - 1]);
      if SpotOf(place) in Spots(before) then Firsts(before) else Firsts(before) + {place}
  }

  ghost function FirstsOn(tiles: seq<Tile>, z: nat): set<Place> { set p | p in Firsts(tiles) && p.2 == z }

  /** Some of the places, one for each spot. */
  ghost predicate OnePerSpot(some: set<Place>, places: set<Place>) {
    && some <= places
    && (forall p, q :: p in some && q in some && SpotOf(p) == SpotOf(q) ==> p == q)
    && forall p :: p in places ==> exists q :: q in some && SpotOf(q) == SpotOf(p)
  }

  lemma NewSpot(some: set<Place>, places: set<Place>, p: Place)
    requires OnePerSpot(some, places) && forall q :: q in places ==> SpotOf(q) != SpotOf(p)
    ensures OnePerSpot(some + {p}, places + {p})
  {
    hide SpotOf;
  }

  lemma OldSpot(some: set<Place>, places: set<Place>, p: Place, q: Place)
    requires OnePerSpot(some, places) && q in places && SpotOf(q) == SpotOf(p)
    ensures OnePerSpot(some, places + {p})
  {
    hide SpotOf;
  }

  lemma {:induction false} FirstsArePlaces(tiles: seq<Tile>)
    ensures OnePerSpot(Firsts(tiles), Places(tiles))
  {
    if tiles != [] {
      var before, last := tiles[..|tiles| - 1], tiles[|tiles| - 1];
      assert tiles == before + [last];
      FirstsArePlaces(before);
      PlacesGrow(before, last);
      var place := PlaceOf(last);
      if SpotOf(place) in Spots(before) {
        var t :| t in before && SpotOf(PlaceOf(t)) == SpotOf(place);
        OldSpot(Firsts(before), Places(before), place, PlaceOf(t));
      } else {
        assert forall q :: q in Places(before) ==> SpotOf(q) in Spots(before);
        NewSpot(Firsts(before), Places(before), place);
      }
      hide OnePerSpot, Places, Spots, SpotOf;
    }
  }

  /** No two places of the stream share a key and a bit. */
  ghost predicate Apart(tiles: seq<Tile>) {
    forall p, q :: p in Places(tiles) && q in Places(tiles) && SpotOf(p) == SpotOf(q) ==> p == q
  }

  /** One place is counted for each spot, so all places are counted exactly when no two share one. */
  lemma CountIsExact(tiles: seq<Tile>)
    ensures |Firsts(tiles)| == |Places(tiles)| <==> Apart(tiles)
  {
    FirstsArePlaces(tiles);
    hide Firsts, Places, SpotOf;
    if Apart(tiles) {
      forall p | p in Places(tiles) ensures p in Firsts(tiles) {
        var q :| q in Firsts(tiles) && SpotOf(q) == SpotOf(p);
      }
      assert Firsts(tiles) == Places(tiles);
    }
    var missed := Places(tiles) - Firsts(tiles);
    assert Places(tiles) == Firsts(tiles) + missed && |Places(tiles)| == |Firsts(tiles)| + |missed|;
  }

  /** Places of 16-bit coordinates are apart. */
  lemma NarrowIsApart(tiles: seq<Tile>)
    requires forall t :: t in tiles ==> Narrow(PlaceOf(t))
    ensures Apart(tiles)
  {
    forall p, q | p in Places(tiles) && q in Places(tiles) && SpotOf(p) == SpotOf(q) ensures p == q {
      KeyAndBitInjective(p, q);
    }
  }

  /** Whatever the file, reading it with a region of 16-bit coordinates delivers places that are apart. */
  lemma RegionIsApart(bytes: seq<Byte>, region: Region)
    requires region.x.high < 0x1_0000 && region.y.high < 0x1_0000
    ensures Apart(ReadTiles(bytes, region).tiles)
  {
    OtbmBounds.DeliveredTiles(bytes, region);
    hide ReadTiles;
    NarrowIsApart(ReadTiles(bytes, region).tiles);
  }

  // ---------------------------------------------------------------- the counter

  /** The bitsets mark exactly these spots. */
  ghost predicate Marks(sectors: map<nat, Bits>, spots: set<Spot>) {
    forall spot: Spot :: spot.1 < 1024 ==> (Marked(sectors, spot) <==> spot in spots)
  }

  /** The totals are the numbers of places counted on each floor. */
  ghost predicate Totals(floors: map<nat, nat>, tiles: seq<Tile>) {
    forall z :: (z in floors <==> FirstsOn(tiles, z) != {}) && (z in floors ==> floors[z] == |FirstsOn(tiles, z)|)
  }

  lemma OpenKeepsMarks(sectors: map<nat, Bits>, spots: set<Spot>, key: nat)
    requires Marks(sectors, spots) && key !in sectors
    ensures Marks(sectors[key := EMPTY], spots)
  {
    forall spot: Spot | spot.1 < 1024 ensures Marked(sectors[key := EMPTY], spot) <==> spot in spots {
      NewSectorMarksNothing(sectors, key, spot);
    }
  }

  lemma MarkAddsSpot(sectors: map<nat, Bits>, spots: set<Spot>, spot: Spot)
    requires Marks(sectors, spots) && spot.0 in sectors && spot.1 < 1024
    ensures Marks(Mark(sectors, spot), spots + {spot})
  {
    forall other: Spot | other.1 < 1024 ensures Marked(Mark(sectors, spot), other) <==> other in spots + {spot} {
      MarkMarks(sectors, spot, other);
    }
  }

  lemma PlacesGrow(before: seq<Tile>, tile: Tile)
    ensures Places(before + [tile]) == Places(before) + {PlaceOf(tile)}
    ensures Spots(before + [tile]) == Spots(before) + {SpotOf(PlaceOf(tile))}
  {}

  /** One more record counts its place, on its floor only, unless the spot was marked. */
  lemma FirstsGrow(before: seq<Tile>, tile: Tile)
    ensures Firsts(before + [tile]) == Firsts(before) + if SpotOf(PlaceOf(tile)) in Spots(before) then {} else {PlaceOf(tile)}
    ensures SpotOf(PlaceOf(tile)) !in Spots(before) ==> PlaceOf(tile) !in Firsts(before)
  {
    assert (before + [tile])[..|before|] == before;
    FirstsArePlaces(before);
    assert forall p :: p in Places(before) ==> SpotOf(p) in Spots(before);
  }

  lemma RepeatKeepsTotals(floors: map<nat, nat>, before: seq<Tile>, tile: Tile)
    requires Totals(floors, before) && SpotOf(PlaceOf(tile)) in Spots(before)
    ensures Totals(floors, before + [tile]) && |Firsts(before + [tile])| == |Firsts(before)|
  {
    FirstsGrow(before, tile);
    hide Firsts;
    assert Firsts(before + [tile]) == Firsts(before);
  }

  lemma MarksGrow(sectors: map<nat, Bits>, before: seq<Tile>, tile: Tile)
    requires Marks(sectors, Spots(before) + {SpotOf(PlaceOf(tile))})
    ensures Marks(sectors, Spots(before + [tile]))
  {
    PlacesGrow(before, tile);
    hide Marks, Spots, SpotOf;
  }

  lemma FloorsGrow(before: seq<Tile>, tile: Tile, z: nat)
    requires SpotOf(PlaceOf(tile)) !in Spots(before)
    ensures FirstsOn(before + [tile], z) == FirstsOn(before, z) + if z == tile.z then {PlaceOf(tile)} else {}
    ensures PlaceOf(tile) !in FirstsOn(before, tile.z)
  {
    FirstsGrow(before, tile);
    hide Firsts;
  }

  lemma NewPlaceAddsOne(floors: map<nat, nat>, before: seq<Tile>, tile: Tile)
    requires Totals(floors, before) && SpotOf(PlaceOf(tile)) !in Spots(before)
    ensures Totals(floors[tile.z := (if tile.z in floors then floors[tile.z] else 0) + 1], before + [tile])
    ensures |Firsts(before + [tile])| == |Firsts(before)| + 1
  {
    FirstsGrow(before, tile);
    hide Firsts, FirstsOn, Spots, SpotOf;
    var grown := floors[tile.z := (if tile.z in floors then floors[tile.z] else 0) + 1];
    forall z
      ensures z in grown <==> FirstsOn(before + [tile], z) != {}
      ensures z in grown ==> grown[z] == |FirstsOn(before + [tile], z)|
    {
      FloorsGrow(before, tile, z);
    }
  }

  /** The places on floors that are not in `rest`. */
  ghost function Counted(tiles: seq<Tile>, rest: set<nat>): set<Place> {
    set p | p in Firsts(tiles) && p.2 !in rest
  }

  lemma NothingCounted(floors: map<nat, nat>, tiles: seq<Tile>)
    requires Totals(floors, tiles)
    ensures Counted(tiles, floors.Keys) == {}
  {
    forall p | p in Firsts(tiles) ensures p.2 in floors {
      assert p in FirstsOn(tiles, p.2);
    }
  }

  lemma CountFloor(tiles: seq<Tile>, rest: set<nat>, z: nat)
    requires z in rest
    ensures |Counted(tiles, rest - {z})| == |Counted(tiles, rest)| + |FirstsOn(tiles, z)|
  {
    assert Counted(tiles, rest - {z}) == Counted(tiles, rest) + FirstsOn(tiles, z);
    assert Counted(tiles, rest) !! FirstsOn(tiles, z);
  }

  class Counter {
    var sectors: map<nat, Bits>
    var floors: map<nat, nat>
    var tileRecords: nat
    var duplicates: nat

    constructor ()
      ensures Read([])
    {
      sectors, floors, tileRecords, duplicates := map[], map[], 0, 0;
    }

    /** Marks, floor totals and duplicates are those of the stream. */
    ghost predicate Read(tiles: seq<Tile>)
      reads this
    {
      && Marks(sectors, Spots(tiles)) && Totals(floors, tiles)
      && tileRecords == |tiles| && duplicates + |Firsts(tiles)| == |tiles|
    }

    /** Marks the spot; says whether it was already marked. */
    method MarkSpot(spot: Spot, ghost spots: set<Spot>) returns (repeated: bool)
      requires Marks(sectors, spots) && spot.1 < 1024
      modifies this`sectors
      ensures Marks(sectors, spots + {spot}) && (repeated <==> spot in spots)
    {
      var key := spot.0;
      if key !in sectors {
        OpenKeepsMarks(sectors, spots, key);
        sectors := sectors[key := EMPTY];
      }
      assert Marked(sectors, spot) <==> spot in spots;
      hide Marks, Mark;
      repeated := TestBit(sectors[key][spot.1 / 8], spot.1 % 8);
      if repeated {
        assert spots + {spot} == spots;
      } else {
        MarkAddsSpot(sectors, spots, spot);
        sectors := Mark(sectors, spot);
      }
    }

    method Add(tile: Tile, ghost before: seq<Tile>)
      requires Read(before)
      modifies this
      ensures Read(before + [tile])
    {
      hide Marks, Totals, Firsts, Spots;
      var spot := SpotOf(PlaceOf(tile));
      assert spot.1 < 1024;
      hide SpotOf;
      tileRecords := tileRecords + 1;
      var repeated := MarkSpot(spot, Spots(before));
      MarksGrow(sectors, before, tile);
      if repeated {
        RepeatKeepsTotals(floors, before, tile);
        duplicates := duplicates + 1;
        return;
      }
      NewPlaceAddsOne(floors, before, tile);
      floors := floors[tile.z := (if tile.z in floors then floors[tile.z] else 0) + 1];
    }

    /** The number of tiles of the report: the floors' totals added up. */
    method Tiles(ghost tiles: seq<Tile>) returns (total: nat)
      requires Read(tiles)
      ensures total == |Firsts(tiles)|
    {
      total := 0;
      var rest := floors.Keys;
      NothingCounted(floors, tiles);
      while rest != {}
        invariant rest <= floors.Keys
        invariant total == |Counted(tiles, rest)|
        decreases rest
      {
        var z :| z in rest;
        CountFloor(tiles, rest, z);
        total := total + floors[z];
        rest := rest - {z};
      }
      assert Counted(tiles, {}) == Firsts(tiles);
    }
  }

  /** A census of a whole stream: right exactly when no two of its places share a spot. */
  method TakeCensus(stream: seq<Tile>) returns (tiles: nat, duplicates: nat)
    ensures tiles == |Firsts(stream)| && tiles + duplicates == |stream|
    ensures tiles == |Places(stream)| <==> Apart(stream)
  {
    hide Places, Firsts, Spots, Apart, Marks, Totals;
    var census := new Counter();
    for i := 0 to |stream|
      invariant census.Read(stream[..i])
    {
      census.Add(stream[i], stream[..i]);
      assert stream[..i + 1] == stream[..i] + [stream[i]];
    }
    assert stream[..|stream|] == stream;
    tiles := census.Tiles(stream);
    duplicates := census.duplicates;
    CountIsExact(stream);
  }

  // ---------------------------------------------------------------- the census and the sectors count the same tiles

  function Slot(p: Place): (WorldMap.SectorKey, nat) {
    (WorldMap.SectorKey(p.2, p.0 / SECTOR_SIZE, p.1 / SECTOR_SIZE), (p.1 % SECTOR_SIZE) * SECTOR_SIZE + p.0 % SECTOR_SIZE)
  }

  lemma SlotInjective(p: Place, q: Place)
    requires Slot(p) == Slot(q)
    ensures p == q
  {
    assert p.0 / 32 == q.0 / 32 && p.1 / 32 == q.1 / 32 && p.2 == q.2;
    assert p.0 % 32 == q.0 % 32 && p.1 % 32 == q.1 % 32;
  }

  ghost function Slots(places: set<Place>): set<(WorldMap.SectorKey, nat)> {
    set p | p in places :: Slot(p)
  }

  lemma {:induction false} SlotsSize(places: set<Place>)
    ensures |Slots(places)| == |places|
    decreases places
  {
    if places != {} {
      var p :| p in places;
      SlotsSize(places - {p});
      assert Slot(p) !in Slots(places - {p}) by {
        forall q | q in places - {p} ensures Slot(q) != Slot(p) {
          if Slot(q) == Slot(p) { SlotInjective(p, q); }
        }
      }
      assert Slots(places) == Slots(places - {p}) + {Slot(p)};
    }
  }

  lemma PutPairs(w: WorldMap.World, t: Tile)
    ensures WorldMap.Pairs(WorldMap.Put(w, t)) == WorldMap.Pairs(w) + {Slot(PlaceOf(t))}
  {
    forall p ensures p in WorldMap.Pairs(WorldMap.Put(w, t)) <==> p in WorldMap.Pairs(w) || p == Slot(PlaceOf(t)) {
      WorldMap.PairsMember(WorldMap.Put(w, t), p);
      WorldMap.PairsMember(w, p);
      if p.0 == WorldMap.KeyOf(t) { assert p == (p.0, p.1); }
    }
  }

  lemma {:induction false} WorldSlots(stream: seq<Tile>)
    ensures WorldMap.Pairs(WorldMap.LastWins(stream)) == Slots(Places(stream))
    decreases |stream|
  {
    if stream == [] {
      assert WorldMap.Pairs(map[]) == {};
    } else {
      var before, last := stream[..|stream| - 1], stream[|stream| - 1];
      WorldSlots(before);
      PutPairs(WorldMap.LastWins(before), last);
      PlacesGrow(before, last);
      assert before + [last] == stream;
      assert Slots(Places(before) + {PlaceOf(last)}) == Slots(Places(before)) + {Slot(PlaceOf(last))};
    }
  }

  /**
   * The sectors hold as many tiles as the stream has distinct places, and the census counts as many exactly when
   * these are apart.
   */
  lemma SectorsHoldThePlaces(stream: seq<Tile>)
    ensures |WorldMap.Pairs(WorldMap.LastWins(stream))| == |Places(stream)|
    ensures |WorldMap.Pairs(WorldMap.LastWins(stream))| == |Firsts(stream)| <==> Apart(stream)
  {
    WorldSlots(stream);
    SlotsSize(Places(stream));
    CountIsExact(stream);
  }

  /** Beyond 16 bits two places can share a spot, and the census calls the second a repetition. */
  lemma WidePlacesCollide(a: Tile, b: Tile)
    requires PlaceOf(a) == (0x1_0000, 0, 0) && PlaceOf(b) == (0, 32, 0)
    ensures SpotOf(PlaceOf(a)) == SpotOf(PlaceOf(b)) && !Apart([a, b])
  {
    assert PlaceOf(a) in Places([a, b]) && PlaceOf(b) in Places([a, b]);
  }
}
