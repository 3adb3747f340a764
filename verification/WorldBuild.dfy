/** Building the world: sectors leave the window as bytes, are read back and merged, and end as the last record of every tile. */
module WorldBuild {
  import opened Wrappers
  import opened Numbers
  import opened Otbm
  import opened WorldMap
  import opened Sectors
  import IdRanges
  import OtbmBounds
  import OtbmPayload
  import Walks

  type Files = map<SectorKey, seq<Byte>>

  // ---------------------------------------------------------------- when a sector can be written

  predicate Distinct(ts: seq<SectorTile>) { forall i, j :: 0 <= i < j < |ts| ==> Cell(ts[i]) != Cell(ts[j]) }

  ghost function IdsIn(cells: Cells): set<int> {
    (set c | c in cells && cells[c].ground > 0 :: cells[c].ground)
      + set c, i | c in cells && 0 <= i < |cells[c].items| :: cells[c].items[i].id
  }

  /** No stack is higher than 255 items, and there are fewer than 65536 different ids. */
  ghost predicate Writable(cells: Cells) {
    (forall c :: c in cells ==> |cells[c].items| <= 255) && |IdsIn(cells)| <= 0xffff
  }

  ghost predicate Unwritable(w: World) { exists k :: k in w && !Writable(w[k]) }

  /** Every tile lies inside the sector. */
  ghost predicate Local(cells: Cells) { forall c :: c in cells ==> cells[c].x < SECTOR_SIZE && cells[c].y < SECTOR_SIZE }

  lemma {:induction false} InsertStrict(ts: seq<SectorTile>, t: SectorTile)
    requires Strict(ts) && forall u :: u in ts ==> Cell(u) != Cell(t)
    ensures Strict(InsertTile(ts, t))
  {
    hide Cell;
    if ts != [] && Cell(t) > Cell(ts[0]) {
      assert ts == [ts[0]] + ts[1..];
      InsertStrict(ts[1..], t);
      InsertTileMembers(ts[1..], t);
      var rest := InsertTile(ts[1..], t);
      forall j | 0 <= j < |rest| ensures Cell(ts[0]) < Cell(rest[j]) { assert rest[j] in ts[1..] || rest[j] == t; }
    }
  }

  lemma {:induction false} ArrangedStrict(ts: seq<SectorTile>)
    requires Distinct(ts)
    ensures Strict(Arranged(ts))
  {
    hide Cell, InsertTile;
    if ts != [] {
      var front, last := ts[..|ts| - 1], ts[|ts| - 1];
      ArrangedStrict(front);
      ArrangedMembers(front);
      InsertStrict(Arranged(front), last);
    }
  }

  lemma {:induction false} StrictBad(ts: seq<SectorTile>, previous: int)
    requires Strict(ts) && (ts != [] ==> previous < Cell(ts[0]))
    requires forall t :: t in ts ==> t.x < SECTOR_SIZE && t.y < SECTOR_SIZE
    ensures FirstBad(ts, previous) == None <==> forall t :: t in ts ==> |t.items| <= 255
  {
    hide Cell;
    if ts != [] {
      assert ts == [ts[0]] + ts[1..];
      StrictBad(ts[1..], Cell(ts[0]));
    }
  }

  /** The id is the ground of the tile or one of its items. */
  ghost predicate Uses(t: SectorTile, id: int) {
    (t.ground > 0 && t.ground == id) || exists i :: 0 <= i < |t.items| && t.items[i].id == id
  }

  lemma {:induction false} IdsOfAre(ts: seq<SectorTile>, id: int)
    ensures id in IdsOf(ts) <==> exists t :: t in ts && Uses(t, id)
  {
    if ts != [] {
      var here := (if ts[0].ground > 0 then [ts[0].ground] else []) + ItemIds(ts[0].items);
      IdsOfAre(ts[1..], id);
      ItemIdsAre(ts[0].items, id);
      assert ts == [ts[0]] + ts[1..];
      assert id in IdsOf(ts) <==> id in here || id in IdsOf(ts[1..]);
      assert id in here <==> Uses(ts[0], id);
    }
  }

  lemma ItemIdsAre(items: seq<StackedItem>, id: int)
    ensures id in ItemIds(items) <==> exists i :: 0 <= i < |items| && items[i].id == id
  {
    forall i | 0 <= i < |items| ensures ItemIds(items)[i] == items[i].id {}
  }

  lemma IdsInAre(cells: Cells, id: int)
    ensures id in IdsIn(cells) <==> exists c :: c in cells && Uses(cells[c], id)
  {}

  lemma SameIds(ts: seq<SectorTile>, cells: Cells, id: int)
    requires Lists(ts, cells)
    ensures id in IdsOf(ts) <==> id in IdsIn(cells)
  {
    IdsOfAre(ts, id);
    IdsInAre(cells, id);
    hide IdsOf, IdsIn, Uses, Cell;
    if t :| t in ts && Uses(t, id) { assert cells[Cell(t)] == t; }
    if c :| c in cells && Uses(cells[c], id) { assert cells[c] in ts; }
  }

  lemma PaletteIncreases(ts: seq<SectorTile>)
    ensures IdRanges.Increasing(Palette(ts))
  {}

  /** The palette of a listing is the ids of the cells, increasing: the same for every listing. */
  lemma PaletteIs(ts: seq<SectorTile>, cells: Cells)
    requires Lists(ts, cells)
    ensures IdRanges.Increasing(Palette(ts)) && forall id :: id in Palette(ts) <==> id in IdsIn(cells)
    ensures |Palette(ts)| == |IdsIn(cells)|
  {
    PaletteIncreases(ts);
    hide Lists, IdsOf, IdsIn, Palette;
    forall id ensures id in Palette(ts) <==> id in IdsIn(cells) { SameIds(ts, cells, id); }
    var palette: seq<int> := Palette(ts);
    Walks.DistinctSize(palette);
    assert (set id | id in palette) == IdsIn(cells);
  }

  /** A listing of cells is refused exactly when the cells cannot be written. */
  lemma RefusedIff(ts: seq<SectorTile>, cells: Cells)
    requires Lists(ts, cells) && Distinct(ts) && Local(cells)
    ensures RefusalOf(ts) == None <==> Writable(cells)
  {
    PaletteIs(ts, cells);
    ArrangedStrict(ts);
    ArrangedLists(ts, cells);
    StrictBad(Arranged(ts), -1);
    hide Palette, Arranged, FirstBad, IdsIn, Cell;
  }

  lemma SameEmptiness<T>(a: seq<T>, b: seq<T>)
    requires forall t :: t in a <==> t in b
    ensures a == [] <==> b == []
  {
    if a != [] { assert a[0] in b; }
    if b != [] { assert b[0] in a; }
  }

  lemma {:induction false} StrictListsUnique(a: seq<SectorTile>, b: seq<SectorTile>)
    requires Strict(a) && Strict(b) && forall t :: t in a <==> t in b
    ensures a == b
    decreases |a|
  {
    hide Cell;
    SameEmptiness(a, b);
    if a != [] {
      assert a[0] in b && b != [] && b[0] in a;
      assert Cell(a[0]) <= Cell(b[0]) && Cell(b[0]) <= Cell(a[0]);
      assert a[0] == b[0] by {
        var i :| 0 <= i < |b| && b[i] == a[0];
      }
      assert a == [a[0]] + a[1..] && b == [b[0]] + b[1..];
      forall t ensures t in a[1..] <==> t in b[1..] {
        assert t in a <==> t in b;
        assert t in a[1..] ==> Cell(a[0]) < Cell(t);
        assert t in b[1..] ==> Cell(b[0]) < Cell(t);
      }
      StrictListsUnique(a[1..], b[1..]);
    }
  }

  lemma {:induction false} IncreasingUnique(a: seq<int>, b: seq<int>)
    requires IdRanges.Increasing(a) && IdRanges.Increasing(b) && forall v :: v in a <==> v in b
    ensures a == b
    decreases |a|
  {
    SameEmptiness(a, b);
    if a != [] {
      assert a[0] in b && b != [] && b[0] in a;
      assert a == [a[0]] + a[1..] && b == [b[0]] + b[1..];
      forall v ensures v in a[1..] <==> v in b[1..] {
        assert v in a <==> v in b;
      }
      IncreasingUnique(a[1..], b[1..]);
    }
  }

  /** The bytes of some cells do not depend on the order in which they are listed. */
  lemma EncodedOnce(k: SectorKey, cells: Cells, a: seq<SectorTile>, b: seq<SectorTile>)
    requires Lists(a, cells) && Distinct(a) && Lists(b, cells) && Distinct(b)
    ensures Encoded(Sector(k.sx, k.sy, k.z, a)) == Encoded(Sector(k.sx, k.sy, k.z, b))
  {
    PaletteIs(a, cells);
    PaletteIs(b, cells);
    ArrangedStrict(a);
    ArrangedStrict(b);
    ArrangedLists(a, cells);
    ArrangedLists(b, cells);
    hide Palette, Arranged, Cell, IdsIn, IdRanges.Increasing, Strict;
    IncreasingUnique(Palette(a), Palette(b));
    StrictListsUnique(Arranged(a), Arranged(b));
  }

  // ---------------------------------------------------------------- files

  predicate KeyFits(k: SectorKey) { k.sx < 0x1_0000 && k.sy < 0x1_0000 && k.z < 256 }

  ghost predicate Listing(ts: seq<SectorTile>, cells: Cells) {
    Lists(ts, cells) && Distinct(ts) && RefusalOf(ts) == None && forall t :: t in ts ==> Snug(t)
  }

  /** The bytes written for these cells, listed in some order. */
  ghost predicate IsFile(bytes: seq<Byte>, k: SectorKey, cells: Cells) {
    KeyFits(k) && exists ts :: Listing(ts, cells) && bytes == Encoded(Sector(k.sx, k.sy, k.z, ts))
  }

  /** There is a file for each sector, with its cells. */
  ghost predicate Holds(files: Files, sectors: World) {
    files.Keys == sectors.Keys && forall k :: k in files ==> IsFile(files[k], k, sectors[k])
  }

  /** A file decodes to exactly the cells it was written for. */
  lemma FileDecodes(bytes: seq<Byte>, k: SectorKey, cells: Cells)
    requires IsFile(bytes, k, cells)
    ensures var back := Decoded(bytes);
      && back.Some? && SectorKey(back.value.z, back.value.sx, back.value.sy) == k
      && Strict(back.value.tiles) && Lists(back.value.tiles, cells)
  {
    hide Snug, Lists, Encoded, Decoded, Strict, Distinct, RefusalOf;
    var ts :| Listing(ts, cells) && bytes == Encoded(Sector(k.sx, k.sy, k.z, ts));
    SpilledCellsComeBack(k, cells, ts);
  }

  lemma OneFile(a: seq<Byte>, b: seq<Byte>, k: SectorKey, cells: Cells)
    requires IsFile(a, k, cells) && IsFile(b, k, cells)
    ensures a == b
  {
    hide Snug, Lists, Encoded, Distinct, RefusalOf;
    var ts :| Listing(ts, cells) && a == Encoded(Sector(k.sx, k.sy, k.z, ts));
    var us :| Listing(us, cells) && b == Encoded(Sector(k.sx, k.sy, k.z, us));
    EncodedOnce(k, cells, ts, us);
  }

  /** The files of a world are determined by it alone: no window, no order of spilling shows in them. */
  lemma OneSetOfFiles(a: Files, b: Files, w: World)
    requires Holds(a, w) && Holds(b, w)
    ensures a == b
  {
    hide IsFile;
    forall k | k in w ensures a[k] == b[k] { OneFile(a[k], b[k], k, w[k]); }
  }

  /** What the world holds can be written without loss, and lies inside its sector. */
  ghost predicate Ready(w: World) { WellKept(w) && forall k :: k in w ==> Local(w[k]) }

  lemma PutLocal(w: World, t: Tile)
    requires forall k :: k in w ==> Local(w[k])
    ensures forall k :: k in Put(w, t) ==> Local(Put(w, t)[k])
  {}

  lemma WorldIsReady(stream: seq<Tile>)
    requires forall i :: 0 <= i < |stream| ==> InFormat(stream[i])
    ensures Ready(LastWins(stream))
  {
    WorldIsWellKept(stream);
    WorldIsLocal(stream);
  }

  lemma {:induction false} WorldIsLocal(stream: seq<Tile>)
    ensures forall k :: k in LastWins(stream) ==> Local(LastWins(stream)[k])
  {
    if stream != [] {
      hide Local, Put;
      WorldIsLocal(stream[..|stream| - 1]);
      PutLocal(LastWins(stream[..|stream| - 1]), stream[|stream| - 1]);
    }
  }

  lemma EncodedIsFile(k: SectorKey, ts: seq<SectorTile>, w: World)
    requires Ready(w) && k in w && Lists(ts, w[k]) && Distinct(ts) && RefusalOf(ts) == None
    ensures IsFile(Encoded(Sector(k.sx, k.sy, k.z, ts)), k, w[k])
  {
    hide Snug, Encoded, RefusalOf, Distinct, Cell;
    forall t | t in ts ensures Snug(t) { assert w[k][Cell(t)] == t; }
    assert Listing(ts, w[k]);
  }

  lemma FileAdded(files: Files, sectors: World, k: SectorKey, bytes: seq<Byte>, cells: Cells)
    requires Holds(files, sectors) && IsFile(bytes, k, cells)
    ensures Holds(files[k := bytes], sectors[k := cells])
  {
    hide IsFile;
  }

  lemma EmptyIsWritable()
    ensures Writable(map[])
  {
    assert IdsIn(map[]) == {};
  }

  /** Opening an empty sector makes no world harder to write. */
  lemma OpenedIsWritable(w: World, k: SectorKey)
    requires Unwritable(w[k := At(w, k)])
    ensures Unwritable(w)
  {
    var w1 := w[k := At(w, k)];
    var bad :| bad in w1 && !Writable(w1[bad]);
    EmptyIsWritable();
    assert bad in w && w1[bad] == w[bad];
  }

  lemma OpenedIsReady(w: World, k: SectorKey)
    requires Ready(w) && KeyFits(k)
    ensures Ready(w[k := At(w, k)])
  {
    hide Snug, Cell;
  }

  // ---------------------------------------------------------------- the builder

  /** What is spilled is what the world holds there. */
  lemma SpilledIs(open: World, sectors: World, world: World, key: SectorKey)
    requires Shows(open, sectors, world) && key in open
    ensures key in world && world[key] == Merged(At(sectors, key), open[key])
  {
    ShowsOne(open, sectors, world, key);
  }

  /** The oldest sector moves from the window to the files: the same world, and the cells held go down by the overlap. */
  lemma SpillKeeps(open: World, order: seq<SectorKey>, files: Files, sectors: World, world: World,
                   key: SectorKey, merged: Cells, bytes: seq<Byte>)
    requires Ordered(order, open) && Shows(open, sectors, world) && Holds(files, sectors)
    requires order != [] && order[0] == key && key in open
    requires merged == Merged(At(sectors, key), open[key]) && IsFile(bytes, key, merged)
    ensures Ordered(order[1..], open - {key}) && Shows(open - {key}, sectors[key := merged], world)
    ensures Holds(files[key := bytes], sectors[key := merged])
    ensures Held(open - {key}, sectors[key := merged]) + |At(sectors, key)| + |open[key]| == Held(open, sectors) + |merged|
  {
    OrderTail(order, open);
    SpillShows(open, sectors, world, key);
    SpillHeld(open, sectors, key, merged);
    FileAdded(files, sectors, key, bytes, merged);
    hide *;
  }

  /** A record put into its open sector is put into the world. */
  lemma RecordPut(open: World, order: seq<SectorKey>, sectors: World, before: seq<Tile>, tile: Tile)
    requires KeyOf(tile) in open && Ordered(order, open)
    requires Shows(open, sectors, LastWins(before)[KeyOf(tile) := At(LastWins(before), KeyOf(tile))])
    ensures var next := open[KeyOf(tile) := SetCell(open[KeyOf(tile)], tile)];
      && Ordered(order, next) && Shows(next, sectors, LastWins(before + [tile]))
      && Held(next, sectors) == Held(open, sectors) + if CellOf(tile) in open[KeyOf(tile)] then 0 else 1
  {
    var key := KeyOf(tile);
    var world := LastWins(before)[key := At(LastWins(before), key)];
    PutStep(open, sectors, world, tile);
    StillOrdered(order, open, key, SetCell(open[key], tile));
    hide Shows, Held, Ordered, SetCell, KeyOf;
    assert Put(world, tile) == Put(LastWins(before), tile);
    assert (before + [tile])[..|before|] == before;
  }

  lemma ListingSize(ts: seq<SectorTile>, cells: Cells)
    requires Strict(ts) && Lists(ts, cells)
    ensures |ts| == |cells|
  {
    var all := seq(|ts|, i requires 0 <= i < |ts| => Cell(ts[i]));
    hide Cell;
    Walks.DistinctSize(all);
    forall c ensures c in all <==> c in cells.Keys {
      if c in cells {
        var i :| 0 <= i < |ts| && ts[i] == cells[c];
        assert all[i] == c;
      }
      if c in all {
        var i :| 0 <= i < |all| && all[i] == c;
        assert ts[i] in ts;
      }
    }
    assert (set c | c in all) == cells.Keys;
  }

  class WorldBuilder {
    const capacity: nat
    /** The bytes of the spilled sectors, and the cells they hold. */
    var files: Files
    ghost var sectors: World
    /** Open sectors, and their keys from the least to the most recently touched. */
    var open: World
    var order: seq<SectorKey>
    var count: nat
    var duplicates: nat

    constructor (capacity: nat)
      ensures this.capacity == capacity && files == map[] && sectors == map[] && open == map[]
      ensures order == [] && count == 0 && duplicates == 0
    {
      this.capacity := capacity;
      files, sectors, open, order, count, duplicates := map[], map[], map[], [], 0, 0;
    }

    /** Window and files together show this world. */
    ghost predicate Valid(world: World)
      reads this
    {
      Ordered(order, open) && Shows(open, sectors, world) && Holds(files, sectors)
    }

    /** The builder has read exactly `tiles`, and its window is within capacity. */
    ghost predicate Read(tiles: seq<Tile>)
      reads this
    {
      Valid(LastWins(tiles)) && |order| <= capacity && count == |tiles| && duplicates + Held(open, sectors) == count
    }

    /** Merging the tiles read back under the pending ones counts each overlap as a duplicate. */
    method Merge(pending: Cells, before: seq<SectorTile>, ghost below: Cells) returns (merged: Cells)
      requires Strict(before) && Lists(before, below)
      modifies this`duplicates
      ensures merged == Merged(below, pending)
      ensures duplicates + |merged| == old(duplicates) + |pending| + |below|
    {
      ListingSize(before, below);
      hide Partly, Merged, Cell;
      MergeStarts(below, pending);
      merged := pending;
      ghost var rest := below.Keys;
      for i := 0 to |before|
        invariant rest <= below.Keys && |rest| == |before| - i
        invariant forall j :: i <= j < |before| ==> Cell(before[j]) in rest
        invariant merged == Partly(below, rest, pending)
        invariant duplicates + |merged| + |rest| == old(duplicates) + |pending| + |below|
      {
        var tile := before[i];
        var cell := Cell(tile);
        assert tile in before && below[cell] == tile;
        CellAdded(merged, cell, tile);
        MergeNext(below, pending, rest, cell);
        if cell in merged { duplicates := duplicates + 1; } else { merged := merged[cell := tile]; }
        rest := rest - {cell};
      }
      assert rest == {};
    }

    /** The tiles already written for the sector, if any. */
    method ReadBack(key: SectorKey) returns (before: seq<SectorTile>)
      requires Holds(files, sectors)
      ensures Strict(before) && Lists(before, At(sectors, key))
    {
      hide IsFile, Decoded, Lists, Strict;
      if key in files {
        FileDecodes(files[key], key, sectors[key]);
        var sector := DecodeSector(files[key]);
        before := sector.value.tiles;
      } else {
        NothingListed();
        before := [];
      }
    }

    /** Writes the oldest open sector, under it what was already written for the same key. */
    method SpillOldest(ghost world: World) returns (refusal: Option<Refusal>)
      requires Valid(world) && Ready(world) && |order| > 0
      modifies this`files, this`sectors, this`open, this`order, this`duplicates
      ensures refusal.Some? ==> Unwritable(world)
      ensures refusal.None? ==> Valid(world) && order == old(order)[1..] && open == old(open) - {old(order)[0]}
      ensures refusal.None? ==> duplicates + Held(open, sectors) == old(duplicates + Held(open, sectors))
    {
      OrderTail(order, open);
      var key := order[0];
      ghost var below := At(sectors, key);
      SpilledIs(open, sectors, world, key);
      hide Shows, Held, Ordered, At, Merged, Unwritable, IsFile, Lists, Strict, Ready, Holds;
      assert key in open;
      var before := ReadBack(key);
      var merged := Merge(open[key], before, below);
      var bytes := WriteCells(merged, world, key);
      if bytes.Err? { return Some(bytes.error); }
      Store(merged, bytes.value, world);
      refusal := None;
    }

    /** The oldest sector leaves the window and its file is set. */
    method Store(ghost merged: Cells, bytes: seq<Byte>, ghost world: World)
      requires Valid(world) && |order| > 0 && order[0] in open
      requires merged == Merged(At(sectors, order[0]), open[order[0]]) && IsFile(bytes, order[0], merged)
      modifies this`files, this`sectors, this`open, this`order
      ensures Valid(world) && order == old(order)[1..] && open == old(open) - {old(order)[0]}
      ensures Held(open, sectors) + old(|At(sectors, order[0])| + |open[order[0]]|) == old(Held(open, sectors)) + |merged|
    {
      hide Shows, Held, Ordered, At, Merged, IsFile, Holds;
      var key := order[0];
      SpillKeeps(open, order, files, sectors, world, key, merged, bytes);
      order := order[1..];
      open := open - {key};
      files := files[key := bytes];
      sectors := sectors[key := merged];
    }

    /** Spills the oldest sectors until at most `limit` stay open; nothing read is lost or counted twice. */
    method Flush(limit: nat, ghost world: World) returns (refusal: Option<Refusal>)
      requires Valid(world) && Ready(world)
      modifies this`files, this`sectors, this`open, this`order, this`duplicates
      ensures refusal.Some? ==> Unwritable(world)
      ensures refusal.None? ==> Valid(world) && |order| <= limit
      ensures refusal.None? ==> order == if |old(order)| <= limit then old(order) else old(order)[|old(order)| - limit..]
      ensures refusal.None? ==> duplicates + Held(open, sectors) == old(duplicates + Held(open, sectors))
    {
      hide Valid, Held, Ready, Unwritable;
      ghost var dropped := 0;
      while |order| > limit
        invariant dropped <= |old(order)| && order == old(order)[dropped..] && (dropped > 0 ==> |order| >= limit)
        invariant Valid(world)
        invariant duplicates + Held(open, sectors) == old(duplicates + Held(open, sectors))
        decreases |order|
      {
        refusal := SpillOldest(world);
        if refusal.Some? { return; }
        dropped := dropped + 1;
      }
      refusal := None;
    }

    /** Makes sure the sector is open, opening it, or moving it to the end every 64 records; spills if the window overflows. */
    method OpenSector(key: SectorKey, ghost world: World) returns (refusal: Option<Refusal>)
      requires Valid(world) && Ready(world) && KeyFits(key) && |order| <= capacity && capacity >= 2
      modifies this`files, this`sectors, this`open, this`order, this`duplicates
      ensures refusal.Some? ==> Unwritable(world)
      ensures refusal.None? ==> Valid(world[key := At(world, key)]) && |order| <= capacity && key in open
      ensures refusal.None? ==> duplicates + Held(open, sectors) == old(duplicates + Held(open, sectors))
    {
      hide Shows, Held, Holds, Ready, Unwritable;
      refusal := None;
      if key !in open {
        OpenStep(open, sectors, world, key);
        OrderGrows(order, open, key);
        OpenedIsReady(world, key);
        open := open[key := map[]];
        order := order + [key];
        if |order| > capacity {
          refusal := Flush(capacity / 2, world[key := At(world, key)]);
          if refusal.Some? {
            OpenedIsWritable(world, key);
            return;
          }
        }
        assert order[|order| - 1] == key;
      } else {
        Refreshed(open, sectors, world, key);
        if count % 64 == 0 {
          Touch(order, open, key);
          order := Without(order, key) + [key];
        }
      }
    }

    method Add(tile: Tile, ghost before: seq<Tile>) returns (refusal: Option<Refusal>)
      requires Read(before) && InFormat(tile) && (forall i :: 0 <= i < |before| ==> InFormat(before[i])) && capacity >= 2
      modifies this
      ensures refusal.Some? ==> Unwritable(LastWins(before))
      ensures refusal.None? ==> Read(before + [tile])
    {
      WorldIsReady(before);
      InFormatIsSnug(tile);
      hide Shows, Held, Ordered, Holds, Ready, Unwritable, InFormat, Snug, LastWins, SetCell, KeyOf, CellOf;
      var key := KeyOf(tile);
      refusal := OpenSector(key, LastWins(before));
      if refusal.None? { PutRecord(tile, before); }
    }

    /** Writes the record into its open sector, counting a repetition. */
    method PutRecord(tile: Tile, ghost before: seq<Tile>)
      requires KeyOf(tile) in open && Valid(LastWins(before)[KeyOf(tile) := At(LastWins(before), KeyOf(tile))])
      requires |order| <= capacity && count == |before| && duplicates + Held(open, sectors) == count
      modifies this`open, this`count, this`duplicates
      ensures Read(before + [tile])
    {
      hide Shows, Held, Ordered, Holds, LastWins, SetCell, KeyOf, CellOf;
      var key := KeyOf(tile);
      RecordPut(open, order, sectors, before, tile);
      if CellOf(tile) in open[key] { duplicates := duplicates + 1; }
      open := open[key := SetCell(open[key], tile)];
      count := count + 1;
    }
  }

  lemma NothingListed()
    ensures Strict([]) && Lists([], map[])
  {}

  /** The tiles of the cells, in whatever order. */
  method ListCells(cells: Cells, ghost world: World, ghost key: SectorKey) returns (ts: seq<SectorTile>)
    requires Ready(world) && key in world && world[key] == cells
    ensures Lists(ts, cells) && Distinct(ts)
  {
    hide Snug, Cell;
    ts := [];
    var rest := cells.Keys;
    while rest != {}
      invariant rest <= cells.Keys && Distinct(ts)
      invariant forall t :: t in ts ==> Cell(t) in cells && Cell(t) !in rest && cells[Cell(t)] == t
      invariant forall c :: c in cells && c !in rest ==> cells[c] in ts
      decreases rest
    {
      var c :| c in rest;
      ts := ts + [cells[c]];
      rest := rest - {c};
    }
  }

  /** The bytes of the cells, or the reason they cannot be written. */
  method WriteCells(cells: Cells, ghost world: World, key: SectorKey) returns (bytes: Result<seq<Byte>, Refusal>)
    requires Ready(world) && key in world && world[key] == cells
    ensures bytes.Ok? ==> IsFile(bytes.value, key, cells)
    ensures bytes.Err? ==> Unwritable(world)
  {
    hide Ready, IsFile, Unwritable, Encoded, RefusalOf, Lists, Distinct;
    var tiles := ListCells(cells, world, key);
    RefusedIn(tiles, world, key);
    bytes := EncodeSector(Sector(key.sx, key.sy, key.z, tiles));
    if bytes.Ok? { EncodedIsFile(key, tiles, world); }
  }

  lemma RefusedIn(ts: seq<SectorTile>, world: World, key: SectorKey)
    requires Ready(world) && key in world && Lists(ts, world[key]) && Distinct(ts)
    ensures RefusalOf(ts).Some? ==> Unwritable(world)
  {
    RefusedIff(ts, world[key]);
  }

  datatype Failure = BadFile(error: OtbmPayload.Error) | NotWritable(refusal: Refusal)

  /**
   * Reads a stream of tiles that may break off with an error. For every window, what remains of a whole stream is a file for
   * every sector with the last record of each of its tiles; it is refused only when, after some part of it, a sector could
   * not be written.
   */
  method BuildWorld(stream: seq<Tile>, broken: Option<OtbmPayload.Error>, capacity: nat)
    returns (result: Result<Files, Failure>, tiles: nat, duplicates: nat)
    requires capacity >= 2 && forall i :: 0 <= i < |stream| ==> InFormat(stream[i])
    ensures result.Ok? ==> broken == None && Holds(result.value, LastWins(stream))
    ensures result.Ok? ==> tiles == |Pairs(LastWins(stream))| && tiles + duplicates == |stream|
    ensures result.Err? && result.error.BadFile? ==> broken == Some(result.error.error)
    ensures result.Err? && result.error.NotWritable? ==> exists n :: 0 <= n <= |stream| && Unwritable(LastWins(stream[..n]))
  {
    hide Shows, Held, Pairs, Holds, InFormat, Unwritable;
    var builder := new WorldBuilder(capacity);
    NothingBuilt();
    assert stream[..0] == [];
    tiles, duplicates := 0, 0;
    for i := 0 to |stream|
      invariant builder.Read(stream[..i]) && builder.capacity == capacity
    {
      var refusal := builder.Add(stream[i], stream[..i]);
      if refusal.Some? { return Err(NotWritable(refusal.value)), 0, 0; }
      assert stream[..i + 1] == stream[..i] + [stream[i]];
    }
    assert stream[..|stream|] == stream;
    if broken.Some? { return Err(BadFile(broken.value)), 0, 0; }
    WorldIsReady(stream);
    var refusal := builder.Flush(0, LastWins(stream));
    if refusal.Some? { return Err(NotWritable(refusal.value)), 0, 0; }
    assert builder.open == map[];
    NothingOpen(builder.sectors, LastWins(stream));
    result, tiles, duplicates := Ok(builder.files), builder.count - builder.duplicates, builder.duplicates;
  }

  lemma NothingBuilt()
    ensures Held(map[], map[]) == 0 && Shows(map[], map[], LastWins([])) && Holds(map[], map[]) && Ordered([], map[])
  {
    NothingRead();
  }

  /** From the bytes of a map, whatever they are: the files of exactly the tiles the reader delivers, or why there are none. */
  method BuildFromFile(bytes: seq<Byte>, region: Region, capacity: nat)
    returns (result: Result<Files, Failure>, tiles: nat, duplicates: nat)
    requires capacity >= 2
    ensures var outcome := Otbm.ReadTiles(bytes, region);
      && (result.Ok? ==> outcome.error == None && Holds(result.value, LastWins(outcome.tiles)))
      && (result.Ok? ==> tiles == |Pairs(LastWins(outcome.tiles))| && tiles + duplicates == |outcome.tiles|)
      && (result.Err? && result.error.BadFile? ==> outcome.error == Some(result.error.error))
      && (result.Err? && result.error.NotWritable? ==>
            exists n :: 0 <= n <= |outcome.tiles| && Unwritable(LastWins(outcome.tiles[..n])))
  {
    hide Otbm.ReadTiles, Holds, Pairs, Unwritable, InFormat;
    var outcome := ReadOtbmTiles(bytes, region);
    OtbmBounds.DeliveredTiles(bytes, region);
    result, tiles, duplicates := BuildWorld(outcome.tiles, outcome.error, capacity);
  }
}
