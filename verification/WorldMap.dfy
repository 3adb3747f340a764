/** The whole world in sectors: what it holds, and what a window of open sectors over spilled ones shows. */
module WorldMap {
  import opened Wrappers
  import opened Numbers
  import opened Otbm

  datatype StackedItem = StackedItem(id: nat, count: Option<nat>)

  /** A tile in its sector's own coordinates; ground 0 means none. */
  datatype SectorTile = SectorTile(x: nat, y: nat, ground: nat, items: seq<StackedItem>, flags: nat, houseId: Option<nat>)

  datatype SectorKey = SectorKey(z: nat, sx: nat, sy: nat)

  /** A sector as its decoded form holds it: one tile per cell. */
  type Cells = map<nat, SectorTile>

  type World = map<SectorKey, Cells>

  function StackedFrom(items: seq<Item>): seq<StackedItem> {
    seq(|items|, i requires 0 <= i < |items| =>
      StackedItem(items[i].id, if items[i].count.Some? && items[i].count.value > 1 then items[i].count else None))
  }

  function ToSectorTile(t: Tile): SectorTile {
    SectorTile(t.x % SECTOR_SIZE, t.y % SECTOR_SIZE, if t.ground.Some? then t.ground.value else 0,
               StackedFrom(t.items), t.flags % 256, t.houseId)
  }

  function KeyOf(t: Tile): SectorKey { SectorKey(t.z, t.x / SECTOR_SIZE, t.y / SECTOR_SIZE) }

  function CellOf(t: Tile): nat { (t.y % SECTOR_SIZE) * SECTOR_SIZE + t.x % SECTOR_SIZE }

  function At(w: World, key: SectorKey): Cells { if key in w then w[key] else map[] }

  /** Spilled cells under pending ones. */
  function Merged(before: Cells, pending: Cells): Cells { before + pending }

  // ---------------------------------------------------------------- the plain meaning

  function SetCell(cells: Cells, t: Tile): Cells { cells[CellOf(t) := ToSectorTile(t)] }

  /** The world with one more record: it replaces whatever its cell held. */
  function Put(w: World, t: Tile): World {
    w[KeyOf(t) := SetCell(At(w, KeyOf(t)), t)]
  }

  function LastWins(tiles: seq<Tile>): World {
    if tiles == [] then map[] else Put(LastWins(tiles[..|tiles| - 1]), tiles[|tiles| - 1])
  }

  /** Every (sector, cell) pair that holds a tile. */
  ghost function Pairs(w: World): set<(SectorKey, nat)> {
    set k, c | k in w && c in w[k] :: (k, c)
  }

  // ---------------------------------------------------------------- counting

  ghost function Tagged(k: SectorKey, cells: set<nat>): set<(SectorKey, nat)> {
    set c | c in cells :: (k, c)
  }

  lemma {:induction false} TaggedSize(k: SectorKey, cells: set<nat>)
    ensures |Tagged(k, cells)| == |cells|
    decreases cells
  {
    if cells != {} {
      var x :| x in cells;
      TaggedSize(k, cells - {x});
      assert (k, x) !in Tagged(k, cells - {x});
      assert Tagged(k, cells) == Tagged(k, cells - {x}) + {(k, x)};
    }
  }

  lemma PairsMember(w: World, p: (SectorKey, nat))
    ensures p in Pairs(w) <==> p.0 in w && p.1 in w[p.0]
  {
    assert p == (p.0, p.1);
  }

  lemma TaggedMember(k: SectorKey, cells: set<nat>, p: (SectorKey, nat))
    ensures p in Tagged(k, cells) <==> p.0 == k && p.1 in cells
  {
    assert p == (p.0, p.1);
  }

  /** Taking a sector out takes exactly its cells out of the count. */
  lemma PairsWithout(w: World, k: SectorKey)
    ensures |Pairs(w)| == |Pairs(w - {k})| + |At(w, k)|
  {
    hide Pairs, Tagged;
    var mine, others := Tagged(k, At(w, k).Keys), Pairs(w - {k});
    TaggedSize(k, At(w, k).Keys);
    forall p ensures (p in Pairs(w) <==> p in others || p in mine) && !(p in others && p in mine) {
      PairsMember(w, p);
      PairsMember(w - {k}, p);
      TaggedMember(k, At(w, k).Keys, p);
    }
    hide At;
    assert others !! mine;
    assert Pairs(w) == others + mine;
  }

  lemma PairsUpdate(w: World, k: SectorKey, cells: Cells)
    ensures |Pairs(w[k := cells])| == |Pairs(w)| - |At(w, k)| + |cells|
  {
    PairsWithout(w, k);
    PairsWithout(w[k := cells], k);
    assert w[k := cells] - {k} == w - {k};
  }

  // ---------------------------------------------------------------- the window

  /** Open and spilled sectors together show exactly `world`: an open cell is newer than a spilled one. */
  ghost predicate Shows(open: World, sectors: World, world: World) {
    forall k :: ShowsAt(open, sectors, world, k)
  }

  ghost predicate ShowsAt(open: World, sectors: World, world: World, k: SectorKey) {
    (k in world <==> k in open || k in sectors) && At(world, k) == At(sectors, k) + At(open, k)
  }

  ghost function Held(open: World, sectors: World): nat { |Pairs(open)| + |Pairs(sectors)| }

  ghost predicate Ordered(order: seq<SectorKey>, open: World) {
    (forall i, j :: 0 <= i < j < |order| ==> order[i] != order[j]) && open.Keys == set k | k in order
  }

  /** `a` and `b` agree on every sector but `key`. */
  ghost predicate SameElsewhere(a: World, b: World, key: SectorKey) {
    forall k :: k != key ==> (k in a <==> k in b) && At(a, k) == At(b, k)
  }

  /** Only the sector `key` changes. */
  lemma ShowsChange(open: World, sectors: World, world: World, key: SectorKey, open1: World, sectors1: World, world1: World)
    requires Shows(open, sectors, world) && ShowsAt(open1, sectors1, world1, key)
    requires SameElsewhere(open, open1, key) && SameElsewhere(sectors, sectors1, key) && SameElsewhere(world, world1, key)
    ensures Shows(open1, sectors1, world1)
  {
    forall k ensures ShowsAt(open1, sectors1, world1, k) {
      if k != key { assert ShowsAt(open, sectors, world, k); }
    }
  }

  lemma UpdateElsewhere(w: World, key: SectorKey, cells: Cells)
    ensures SameElsewhere(w, w[key := cells], key) && SameElsewhere(w, w - {key}, key) && SameElsewhere(w, w, key)
  {}

  lemma ShowsOne(open: World, sectors: World, world: World, key: SectorKey)
    requires Shows(open, sectors, world)
    ensures ShowsAt(open, sectors, world, key)
  {}

  lemma SetCellAbove(below: Cells, above: Cells, t: Tile)
    ensures below + SetCell(above, t) == SetCell(below + above, t)
  {}

  lemma OrderTail(order: seq<SectorKey>, open: World)
    requires Ordered(order, open) && |order| > 0
    ensures order[0] in open && Ordered(order[1..], open - {order[0]})
  {
    assert forall k :: k in order ==> k == order[0] || k in order[1..];
  }

  /** Opening an empty sector at the end of the window adds no cell. */
  lemma OpenStep(open: World, sectors: World, world: World, key: SectorKey)
    requires Shows(open, sectors, world) && key !in open
    ensures Shows(open[key := map[]], sectors, world[key := At(world, key)])
    ensures Held(open[key := map[]], sectors) == Held(open, sectors)
  {
    hide Pairs, SameElsewhere, Shows;
    PairsUpdate(open, key, map[]);
    ShowsOne(open, sectors, world, key);
    assert At(sectors, key) + map[] == At(sectors, key);
    UpdateElsewhere(open, key, map[]);
    UpdateElsewhere(sectors, key, map[]);
    UpdateElsewhere(world, key, At(world, key));
    ShowsChange(open, sectors, world, key, open[key := map[]], sectors, world[key := At(world, key)]);
  }

  lemma OrderGrows(order: seq<SectorKey>, open: World, key: SectorKey)
    requires Ordered(order, open) && key !in open
    ensures Ordered(order + [key], open[key := map[]])
  {}

  /** Spilling a sector under its pending cells shows the same world, */
  lemma SpillShows(open: World, sectors: World, world: World, key: SectorKey)
    requires Shows(open, sectors, world) && key in open
    ensures Shows(open - {key}, sectors[key := Merged(At(sectors, key), open[key])], world)
  {
    hide SameElsewhere, Shows;
    var merged := Merged(At(sectors, key), open[key]);
    ShowsOne(open, sectors, world, key);
    assert merged + map[] == merged;
    UpdateElsewhere(open, key, merged);
    UpdateElsewhere(sectors, key, merged);
    UpdateElsewhere(world, key, merged);
    ShowsChange(open, sectors, world, key, open - {key}, sectors[key := merged], world);
  }

  /** and the cells held go down by the overlap. */
  lemma SpillHeld(open: World, sectors: World, key: SectorKey, merged: Cells)
    requires key in open
    ensures Held(open - {key}, sectors[key := merged]) + |At(sectors, key)| + |open[key]| == Held(open, sectors) + |merged|
  {
    hide Pairs;
    PairsWithout(open, key);
    PairsUpdate(sectors, key, merged);
  }

  /** Writing a record into its open sector is writing it into the world. */
  lemma PutStep(open: World, sectors: World, world: World, tile: Tile)
    requires Shows(open, sectors, world) && KeyOf(tile) in open
    ensures var key := KeyOf(tile);
            var next := open[key := SetCell(open[key], tile)];
            && Shows(next, sectors, Put(world, tile))
            && Held(next, sectors) == Held(open, sectors) + if CellOf(tile) in open[key] then 0 else 1
  {
    var key := KeyOf(tile);
    var cells := SetCell(open[key], tile);
    hide Pairs, SameElsewhere, Shows;
    PairsUpdate(open, key, cells);
    ShowsOne(open, sectors, world, key);
    SetCellAbove(At(sectors, key), open[key], tile);
    UpdateElsewhere(open, key, cells);
    UpdateElsewhere(sectors, key, cells);
    UpdateElsewhere(world, key, SetCell(At(world, key), tile));
    ShowsChange(open, sectors, world, key, open[key := cells], sectors, Put(world, tile));
  }

  lemma NothingOpen(sectors: World, world: World)
    ensures Held(map[], sectors) == |Pairs(sectors)|
    ensures Shows(map[], sectors, sectors)
    ensures Shows(map[], sectors, world) ==> world == sectors
  {
    assert Pairs(map[]) == {};
    forall k ensures ShowsAt(map[], sectors, sectors, k) {
      assert At(sectors, k) + map[] == At(sectors, k);
    }
    if Shows(map[], sectors, world) {
      forall k ensures (k in world <==> k in sectors) && At(world, k) == At(sectors, k) {
        assert ShowsAt(map[], sectors, world, k);
        assert At(sectors, k) + map[] == At(sectors, k);
      }
      assert forall k :: k in world ==> world[k] == At(world, k) == sectors[k];
    }
  }

  function Without(order: seq<SectorKey>, key: SectorKey): seq<SectorKey> {
    if order == [] then [] else (if order[0] == key then [] else [order[0]]) + Without(order[1..], key)
  }

  lemma {:induction false} WithoutKeepsOthers(order: seq<SectorKey>, key: SectorKey)
    requires forall i, j :: 0 <= i < j < |order| ==> order[i] != order[j]
    ensures var rest := Without(order, key);
            && (forall i, j :: 0 <= i < j < |rest| ==> rest[i] != rest[j])
            && (forall k :: k in rest <==> k in order && k != key)
            && |rest| == if key in order then |order| - 1 else |order|
  {
    if order != [] {
      WithoutKeepsOthers(order[1..], key);
      assert order[0] !in order[1..];
    }
  }

  /** Reinserting an open key moves it to the end of the window. */
  lemma Touch(order: seq<SectorKey>, open: World, key: SectorKey)
    requires Ordered(order, open) && key in open
    ensures Ordered(Without(order, key) + [key], open) && |Without(order, key) + [key]| == |order|
  {
    WithoutKeepsOthers(order, key);
  }

  /** Part of a merge: the cells in `rest` are still to come. */
  ghost function Partly(before: Cells, rest: set<nat>, pending: Cells): Cells { before - rest + pending }

  lemma MergeStarts(before: Cells, pending: Cells)
    ensures Partly(before, before.Keys, pending) == pending
    ensures Partly(before, {}, pending) == Merged(before, pending)
  {
    assert before - {} == before;
  }

  lemma MergeNext(before: Cells, pending: Cells, rest: set<nat>, cell: nat)
    requires cell in rest && rest <= before.Keys
    ensures var merged := Partly(before, rest, pending);
      Partly(before, rest - {cell}, pending) == if cell in merged then merged else merged[cell := before[cell]]
  {}

  lemma CellAdded(cells: Cells, c: nat, t: SectorTile)
    ensures |cells[c := t]| == if c in cells then |cells| else |cells| + 1
  {
    assert cells[c := t].Keys == cells.Keys + {c};
  }

  lemma NothingRead()
    ensures Held(map[], map[]) == 0 && Shows(map[], map[], LastWins([]))
  {
    NothingOpen(map[], map[]);
    assert Pairs(map[]) == {};
  }

  lemma Refreshed(open: World, sectors: World, world: World, key: SectorKey)
    requires Shows(open, sectors, world) && key in open
    ensures world[key := At(world, key)] == world
  {
    assert ShowsAt(open, sectors, world, key);
  }

  lemma StillOrdered(order: seq<SectorKey>, open: World, key: SectorKey, cells: Cells)
    requires Ordered(order, open) && key in open
    ensures Ordered(order, open[key := cells])
  {}
}
