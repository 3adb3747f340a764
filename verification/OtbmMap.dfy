/** A map as its author means it: reading its printed file gives exactly the tiles inside the region. */
module OtbmMap {
  import opened Wrappers
  import opened Numbers
  import opened OtbmPayload
  import opened Otbm
  import opened OtbmTree

  datatype ItemNode = ItemNode(id: nat, attributes: seq<Attribute>, contents: seq<ItemNode>)

  datatype TileNode = TileNode(
    dx: nat, dy: nat, houseId: Option<nat>, attributes: seq<Attribute>, items: seq<ItemNode>)

  datatype Area = Area(corner: Position, tiles: seq<TileNode>)

  datatype MapFile = MapFile(header: seq<Byte>, mapData: seq<Byte>, areas: seq<Area>)

  // ---------------------------------------------------------------- what fits the format

  predicate ValidItem(item: ItemNode)
    decreases item, 0
  {
    item.id < 0x1_0000 && ValidAttributes(item.attributes) && ValidItems(item.contents)
  }

  predicate ValidItems(items: seq<ItemNode>)
    decreases items
  {
    items == [] || (ValidItem(items[0]) && ValidItems(items[1..]))
  }

  predicate ValidTile(t: TileNode) {
    && t.dx < 0x100 && t.dy < 0x100
    && (t.houseId.Some? ==> t.houseId.value < 0x1_0000_0000)
    && ValidAttributes(t.attributes) && ValidItems(t.items)
  }

  predicate ValidArea(a: Area) {
    ValidPosition(a.corner) && forall i :: 0 <= i < |a.tiles| ==> ValidTile(a.tiles[i])
  }

  /** A node that holds nothing of the map grid, at any depth: towns, waypoints and the like. */
  predicate Inert(n: Node)
    decreases n, 0
  {
    n.kind != TILE_AREA && !IsTile(n.kind) && n.kind != ITEM && !Special(n.kind) && AllInert(n.children)
  }

  predicate AllInert(ns: seq<Node>)
    decreases ns
  {
    ns == [] || (Inert(ns[0]) && AllInert(ns[1..]))
  }

  /** `n` is `base` with inert nodes added at any depth, before, between and after its own. */
  predicate Extends(n: Node, base: Node)
    decreases n, 0
  {
    n.kind == base.kind && n.payload == base.payload && AllExtend(n.children, base.children)
  }

  predicate AllExtend(ns: seq<Node>, bases: seq<Node>)
    decreases ns
  {
    if ns == [] then bases == []
    else if Inert(ns[0]) && AllExtend(ns[1..], bases) then true
    else bases != [] && Extends(ns[0], bases[0]) && AllExtend(ns[1..], bases[1..])
  }

  predicate ValidFile(f: MapFile) {
    |f.header| >= 16 && forall i :: 0 <= i < |f.areas| ==> ValidArea(f.areas[i])
  }

  // ---------------------------------------------------------------- the printed form

  function ItemTree(item: ItemNode): Node
    decreases item, 0
  {
    Node(ITEM, U16(item.id) + AttributesBytes(item.attributes), ItemTrees(item.contents))
  }

  function ItemTrees(items: seq<ItemNode>): seq<Node>
    decreases items
  {
    if items == [] then [] else [ItemTree(items[0])] + ItemTrees(items[1..])
  }

  function TileTree(t: TileNode): Node {
    var house := if t.houseId.Some? then U32(t.houseId.value) else [];
    Node(if t.houseId.Some? then HOUSE_TILE else TILE,
         U8(t.dx) + U8(t.dy) + house + AttributesBytes(t.attributes), ItemTrees(t.items))
  }

  function TileTrees(ts: seq<TileNode>): seq<Node> {
    if ts == [] then [] else [TileTree(ts[0])] + TileTrees(ts[1..])
  }

  function AreaTree(a: Area): Node {
    Node(TILE_AREA, PositionBytes(a.corner), TileTrees(a.tiles))
  }

  function AreaTrees(areas: seq<Area>): seq<Node> {
    if areas == [] then [] else [AreaTree(areas[0])] + AreaTrees(areas[1..])
  }

  function FileTree(f: MapFile): Node {
    Node(ROOT, f.header, [Node(MAP_DATA, f.mapData, AreaTrees(f.areas))])
  }

  // ---------------------------------------------------------------- the meaning

  function ItemOf(item: ItemNode): Item {
    ItemFrom(item.id, Meaning(item.attributes, NO_ATTRIBUTES))
  }

  /** Direct items only: what is inside a container is not on the map. */
  function ItemsOf(items: seq<ItemNode>): seq<Item> {
    if items == [] then [] else [ItemOf(items[0])] + ItemsOf(items[1..])
  }

  function TileOf(corner: Position, t: TileNode): Tile {
    var a := Meaning(t.attributes, NO_ATTRIBUTES);
    Tile(corner.x + t.dx, corner.y + t.dy, corner.z, a.ground, ItemsOf(t.items), a.flags, t.houseId)
  }

  function AreaTiles(corner: Position, ts: seq<TileNode>): seq<Tile> {
    if ts == [] then [] else [TileOf(corner, ts[0])] + AreaTiles(corner, ts[1..])
  }

  /** Every tile of the map, in document order. */
  function AllTiles(areas: seq<Area>): seq<Tile> {
    if areas == [] then [] else AreaTiles(areas[0].corner, areas[0].tiles) + AllTiles(areas[1..])
  }

  predicate Inside(t: Tile, region: Region) {
    Within(t.x, region.x) && Within(t.y, region.y) && Within(t.z, region.z)
  }

  function Clip(ts: seq<Tile>, region: Region): seq<Tile> {
    if ts == [] then [] else (if Inside(ts[0], region) then [ts[0]] else []) + Clip(ts[1..], region)
  }

  lemma ConcatAssoc<T>(a: seq<T>, b: seq<T>, c: seq<T>)
    ensures (a + b) + c == a + (b + c)
  {}

  lemma {:induction false} ClipConcat(a: seq<Tile>, b: seq<Tile>, region: Region)
    ensures Clip(a + b, region) == Clip(a, region) + Clip(b, region)
  {
    hide Inside;
    if a == [] {
      assert a + b == b;
    } else {
      ClipConcat(a[1..], b, region);
      assert (a + b)[1..] == a[1..] + b && (a + b)[0] == a[0];
      ConcatAssoc(if Inside(a[0], region) then [a[0]] else [], Clip(a[1..], region), Clip(b, region));
    }
  }

  lemma {:induction false} ClippedAreInside(ts: seq<Tile>, region: Region)
    ensures forall t :: t in Clip(ts, region) ==> t in ts && Inside(t, region)
  {
    if ts != [] { ClippedAreInside(ts[1..], region); }
  }

  // ---------------------------------------------------------------- the walk computes the meaning

  lemma Under256(v: nat)
    requires v < 0x100
    ensures U8(v) == [v]
  {}

  /** Inside a container the stack only grows and shrinks: nothing is deposited. */
  lemma {:induction false} WalkContents(items: seq<ItemNode>, st: State, region: Region)
    requires ValidItems(items)
    requires st.stack != [] && st.stack[|st.stack| - 1].tile.None?
    ensures WalkAll(ItemTrees(items), st, region) == Walked(st)
    decreases items
  {
    if items != [] {
      WalkItem(items[0], st, region);
      assert Deposit(st.stack, ItemOf(items[0])) == st.stack;
      assert st == st.(stack := st.stack);
      assert ItemTrees(items)[1..] == ItemTrees(items[1..]);
      WalkContents(items[1..], st, region);
    }
  }

  lemma {:induction false} WalkItem(item: ItemNode, st: State, region: Region)
    requires ValidItem(item)
    ensures |Deposit(st.stack, ItemOf(item))| == |st.stack|
    ensures WalkNode(ItemTree(item), st, region) == Walked(st.(stack := Deposit(st.stack, ItemOf(item))))
    decreases item, 0
  {
    var n := ItemTree(item);
    TakeU16Inverts(item.id, AttributesBytes(item.attributes));
    AttributesRoundTrip(item.attributes, NO_ATTRIBUTES);
    var deposited := Deposit(st.stack, ItemOf(item));
    var inner := st.(stack := deposited + [Frame(ITEM, None)]);
    assert Open(ITEM, n.payload, st, region) == Enter(inner);
    WalkContents(item.contents, inner, region);
    assert inner.stack[..|inner.stack| - 1] == deposited;
  }

  predicate NoTiles(stack: seq<Frame>) {
    forall i :: 0 <= i < |stack| ==> stack[i].tile.None?
  }

  lemma OwnerIsTop(below: seq<Frame>, top: Frame)
    requires NoTiles(below) && top.tile.Some?
    ensures Owner(below + [top]) == |below|
  {
    var stack := below + [top];
    assert stack[|below|] == top;
    assert forall i :: 0 <= i < |below| ==> stack[i] == below[i];
  }

  /** The items of the only open tile are appended to it in order. */
  lemma {:induction false} WalkItems(items: seq<ItemNode>, below: seq<Frame>, top: Frame, st: State, region: Region)
    requires ValidItems(items) && NoTiles(below) && top.tile.Some? && st.stack == below + [top]
    ensures WalkAll(ItemTrees(items), st, region)
         == Walked(st.(stack := below + [top.(tile := Some(top.tile.value.(items := top.tile.value.items + ItemsOf(items))))]))
    decreases items
  {
    if items == [] {
      assert top.tile.value.items + [] == top.tile.value.items;
      assert top == top.(tile := Some(top.tile.value.(items := top.tile.value.items)));
    } else {
      var item := ItemOf(items[0]);
      var next := top.(tile := Some(top.tile.value.(items := top.tile.value.items + [item])));
      OwnerIsTop(below, top);
      assert Deposit(st.stack, item) == below + [next];
      WalkItem(items[0], st, region);
      assert ItemTrees(items)[1..] == ItemTrees(items[1..]);
      WalkItems(items[1..], below, next, st.(stack := below + [next]), region);
      ConcatAssoc(top.tile.value.items, [item], ItemsOf(items[1..]));
    }
  }

  function BareTile(corner: Position, t: TileNode): Tile {
    TileOf(corner, t).(items := [])
  }

  function HouseBytes(t: TileNode): seq<Byte> {
    if t.houseId.Some? then U32(t.houseId.value) else []
  }

  lemma TileBodyInverts(t: TileNode)
    requires ValidTile(t)
    ensures TileBody(TileTree(t).kind, HouseBytes(t) + AttributesBytes(t.attributes))
         == Ok((t.houseId, Meaning(t.attributes, NO_ATTRIBUTES)))
  {
    var attributes := AttributesBytes(t.attributes);
    AttributesRoundTrip(t.attributes, NO_ATTRIBUTES);
    if t.houseId.Some? {
      TakeU32Inverts(t.houseId.value, attributes);
    } else {
      assert HouseBytes(t) + attributes == attributes;
    }
  }

  lemma TilePayload(t: TileNode)
    requires ValidTile(t)
    ensures var payload := TileTree(t).payload;
            |payload| >= 2 && payload[0] == t.dx && payload[1] == t.dy
            && payload[2..] == HouseBytes(t) + AttributesBytes(t.attributes)
  {
    hide ParseAttributes, AttributesBytes, ValidAttributes, U32, ItemTrees;
    Under256(t.dx);
    Under256(t.dy);
    var tail := HouseBytes(t) + AttributesBytes(t.attributes);
    assert TileTree(t).payload == [t.dx, t.dy] + tail;
  }

  lemma OpenTileNode(t: TileNode, corner: Position, st: State, region: Region)
    requires ValidTile(t)
    ensures OpenTile(TileTree(t).kind, TileTree(t).payload, corner, st, region)
         == if Within(corner.x + t.dx, region.x) && Within(corner.y + t.dy, region.y)
            then Enter(st.(stack := st.stack + [Frame(TileTree(t).kind, Some(BareTile(corner, t)))])) else Prune
  {
    hide ParseAttributes;
    TilePayload(t);
    TileBodyInverts(t);
  }

  lemma ClipOne(t: Tile, region: Region)
    ensures Clip([t], region) == if Inside(t, region) then [t] else []
  {
    assert [t][1..] == [];
  }

  lemma WalkTile(t: TileNode, corner: Position, st: State, region: Region)
    requires ValidTile(t) && NoTiles(st.stack) && st.base == Some(corner) && Within(corner.z, region.z)
    ensures WalkNode(TileTree(t), st, region) == Walked(st.(out := st.out + Clip([TileOf(corner, t)], region)))
  {
    hide ParseAttributes, Meaning, ValidAttributes, ItemTrees, ItemsOf, OpenTile, OpenItem, OpenArea;
    var n := TileTree(t);
    var tile := TileOf(corner, t);
    OpenTileNode(t, corner, st, region);
    ClipOne(tile, region);
    if Inside(tile, region) {
      var top := Frame(n.kind, Some(BareTile(corner, t)));
      var inner := st.(stack := st.stack + [top]);
      assert Open(n.kind, n.payload, st, region) == Enter(inner);
      WalkItems(t.items, st.stack, top, inner, region);
      assert [] + tile.items == tile.items;
      var full := top.(tile := Some(tile));
      assert WalkAll(n.children, inner, region) == Walked(st.(stack := st.stack + [full]));
      assert (st.stack + [full])[..|st.stack|] == st.stack;
    } else {
      assert Open(n.kind, n.payload, st, region) == Prune;
      assert st.out + [] == st.out;
    }
  }

  lemma WalkCons(ns: seq<Node>, st: State, next: State, region: Region)
    requires ns != [] && WalkNode(ns[0], st, region) == Walked(next)
    ensures WalkAll(ns, st, region) == WalkAll(ns[1..], next, region)
  {}

  lemma {:induction false} WalkTiles(ts: seq<TileNode>, corner: Position, st: State, region: Region)
    requires NoTiles(st.stack) && st.base == Some(corner) && Within(corner.z, region.z)
    requires forall i :: 0 <= i < |ts| ==> ValidTile(ts[i])
    ensures WalkAll(TileTrees(ts), st, region) == Walked(st.(out := st.out + Clip(AreaTiles(corner, ts), region)))
    decreases |ts|
  {
    hide ParseAttributes;
    if ts == [] {
      assert st.out + [] == st.out;
    } else {
      var ns := TileTrees(ts);
      var head := Clip([TileOf(corner, ts[0])], region);
      var tail := Clip(AreaTiles(corner, ts[1..]), region);
      var next := st.(out := st.out + head);
      WalkTile(ts[0], corner, st, region);
      WalkCons(ns, st, next, region);
      assert ns[1..] == TileTrees(ts[1..]);
      WalkTiles(ts[1..], corner, next, region);
      ClipConcat([TileOf(corner, ts[0])], AreaTiles(corner, ts[1..]), region);
      ConcatAssoc(st.out, head, tail);
    }
  }

  /** A pruned area holds no tile of the region, because an offset is one byte. */
  lemma {:induction false} FarAreaIsEmpty(ts: seq<TileNode>, corner: Position, region: Region)
    requires forall i :: 0 <= i < |ts| ==> ValidTile(ts[i])
    requires !Touches(corner, region)
    ensures Clip(AreaTiles(corner, ts), region) == []
    decreases |ts|
  {
    if ts != [] {
      FarAreaIsEmpty(ts[1..], corner, region);
      assert !Inside(TileOf(corner, ts[0]), region);
    }
  }

  lemma WalkArea(a: Area, st: State, region: Region) returns (next: State)
    requires ValidArea(a) && NoTiles(st.stack)
    ensures WalkNode(AreaTree(a), st, region) == Walked(next)
    ensures next.stack == st.stack && next.out == st.out + Clip(AreaTiles(a.corner, a.tiles), region)
  {
    TakePositionInverts(a.corner, []);
    assert PositionBytes(a.corner) + [] == PositionBytes(a.corner);
    if Touches(a.corner, region) {
      var inner := State(st.stack + [Frame(TILE_AREA, None)], Some(a.corner), st.out);
      WalkTiles(a.tiles, a.corner, inner, region);
      next := inner.(stack := st.stack, out := st.out + Clip(AreaTiles(a.corner, a.tiles), region));
      assert inner.stack[..|inner.stack| - 1] == st.stack;
    } else {
      FarAreaIsEmpty(a.tiles, a.corner, region);
      next := st;
      assert st.out + [] == st.out;
    }
  }

  lemma {:induction false} WalkAreas(areas: seq<Area>, st: State, region: Region) returns (last: State)
    requires NoTiles(st.stack) && forall i :: 0 <= i < |areas| ==> ValidArea(areas[i])
    ensures WalkAll(AreaTrees(areas), st, region) == Walked(last)
    ensures last.stack == st.stack && last.out == st.out + Clip(AllTiles(areas), region)
    decreases |areas|
  {
    hide ParseAttributes;
    var ns := AreaTrees(areas);
    if areas == [] {
      last := st;
      assert st.out + [] == st.out;
    } else {
      assert ns[0] == AreaTree(areas[0]) && ns[1..] == AreaTrees(areas[1..]);
      var next := WalkArea(areas[0], st, region);
      WalkCons(ns, st, next, region);
      last := WalkAreas(areas[1..], next, region);
      var head, tail := AreaTiles(areas[0].corner, areas[0].tiles), AllTiles(areas[1..]);
      ClipConcat(head, tail, region);
      ConcatAssoc(st.out, Clip(head, region), Clip(tail, region));
    }
  }

  lemma {:induction false} WalkInert(n: Node, st: State, region: Region)
    requires Inert(n)
    ensures WalkNode(n, st, region) == Walked(st)
    decreases n, 0
  {
    var inner := st.(stack := st.stack + [Frame(n.kind, None)]);
    WalkInertAll(n.children, inner, region);
    assert inner.stack[..|st.stack|] == st.stack;
  }

  lemma {:induction false} WalkInertAll(ns: seq<Node>, st: State, region: Region)
    requires AllInert(ns)
    ensures WalkAll(ns, st, region) == Walked(st)
    decreases ns
  {
    if ns != [] {
      WalkInert(ns[0], st, region);
      WalkInertAll(ns[1..], st, region);
    }
  }

  /** Nodes that hold nothing of the grid change nothing the walk does, wherever they stand. */
  lemma {:induction false} WalkExtended(n: Node, base: Node, st: State, region: Region)
    requires Extends(n, base)
    ensures WalkNode(n, st, region) == WalkNode(base, st, region)
    decreases n, 0
  {
    hide Open;
    if IsTile(n.kind) && st.base.None? { return; }
    var opening := Open(n.kind, n.payload, st, region);
    if opening.Enter? { WalkAllExtended(n.children, base.children, opening.state, region); }
  }

  lemma {:induction false} WalkAllExtended(ns: seq<Node>, bases: seq<Node>, st: State, region: Region)
    requires AllExtend(ns, bases)
    ensures WalkAll(ns, st, region) == WalkAll(bases, st, region)
    decreases ns
  {
    if ns == [] {
    } else if Inert(ns[0]) && AllExtend(ns[1..], bases) {
      WalkInert(ns[0], st, region);
      WalkCons(ns, st, st, region);
      WalkAllExtended(ns[1..], bases, st, region);
    } else {
      WalkExtended(ns[0], bases[0], st, region);
      var w := WalkNode(ns[0], st, region);
      if w.Walked? {
        WalkCons(ns, st, w.state, region);
        WalkCons(bases, st, w.state, region);
        WalkAllExtended(ns[1..], bases[1..], w.state, region);
      }
    }
  }

  // ---------------------------------------------------------------- every type in a file is an ordinary byte

  lemma {:induction false} PlainItem(item: ItemNode)
    ensures PlainKinds(ItemTree(item))
    decreases item, 0
  {
    PlainItems(item.contents);
  }

  lemma {:induction false} PlainItems(items: seq<ItemNode>)
    ensures AllPlainKinds(ItemTrees(items))
    decreases items
  {
    if items != [] {
      PlainItem(items[0]);
      PlainItems(items[1..]);
      assert ItemTrees(items)[1..] == ItemTrees(items[1..]);
    }
  }

  lemma {:induction false} PlainTiles(ts: seq<TileNode>)
    ensures AllPlainKinds(TileTrees(ts))
    decreases |ts|
  {
    if ts != [] {
      PlainItems(ts[0].items);
      PlainTiles(ts[1..]);
      assert TileTrees(ts)[1..] == TileTrees(ts[1..]);
    }
  }

  lemma {:induction false} PlainAreas(areas: seq<Area>)
    ensures AllPlainKinds(AreaTrees(areas))
    decreases |areas|
  {
    if areas != [] {
      PlainTiles(areas[0].tiles);
      PlainAreas(areas[1..]);
      assert AreaTrees(areas)[1..] == AreaTrees(areas[1..]);
    }
  }

  lemma {:induction false} PlainInert(n: Node)
    requires Inert(n)
    ensures PlainKinds(n)
    decreases n, 0
  {
    PlainInertAll(n.children);
  }

  lemma {:induction false} PlainInertAll(ns: seq<Node>)
    requires AllInert(ns)
    ensures AllPlainKinds(ns)
    decreases ns
  {
    if ns != [] {
      PlainInert(ns[0]);
      PlainInertAll(ns[1..]);
    }
  }

  lemma {:induction false} PlainExtended(n: Node, base: Node)
    requires Extends(n, base) && PlainKinds(base)
    ensures PlainKinds(n)
    decreases n, 0
  {
    PlainAllExtended(n.children, base.children);
  }

  lemma {:induction false} PlainAllExtended(ns: seq<Node>, bases: seq<Node>)
    requires AllExtend(ns, bases) && AllPlainKinds(bases)
    ensures AllPlainKinds(ns)
    decreases ns
  {
    if ns == [] {
    } else if Inert(ns[0]) && AllExtend(ns[1..], bases) {
      PlainInert(ns[0]);
      PlainAllExtended(ns[1..], bases);
    } else {
      PlainExtended(ns[0], bases[0]);
      PlainAllExtended(ns[1..], bases[1..]);
    }
  }

  lemma PlainFile(f: MapFile)
    requires ValidFile(f)
    ensures PlainKinds(FileTree(f))
  {
    PlainAreas(f.areas);
    var data := Node(MAP_DATA, f.mapData, AreaTrees(f.areas));
    assert [data][1..] == [];
  }

  // ---------------------------------------------------------------- main results

  /**
   * Reading a printed map with a region yields, in document order, exactly the tiles inside it, whatever inert
   * nodes it holds besides.
   */
  lemma ReadPrintedMap(f: MapFile, root: Node, region: Region)
    requires ValidFile(f) && Extends(root, FileTree(f))
    ensures ReadTiles(FileBytes(root), region) == Outcome(Clip(AllTiles(f.areas), region), None)
  {
    hide ParseAttributes, Clip, AllTiles, AreaTrees;
    PlainFile(f);
    PlainExtended(root, FileTree(f));
    ReaderIsWalk(root, region);
    WalkExtended(root, FileTree(f), START, region);
    assert START.stack + [Frame(ROOT, None)] == [Frame(ROOT, None)];
    WalkMapData(f, region);
  }

  /** Walking the one child of the root delivers the clipped tiles and leaves nothing open. */
  lemma WalkMapData(f: MapFile, region: Region)
    requires ValidFile(f)
    ensures var data := Node(MAP_DATA, f.mapData, AreaTrees(f.areas));
      var walked := WalkAll([data], State([Frame(ROOT, None)], None, []), region);
      && walked.Walked? && walked.state.out == Clip(AllTiles(f.areas), region) && walked.state.stack == [Frame(ROOT, None)]
  {
    hide ParseAttributes;
    var data := Node(MAP_DATA, f.mapData, AreaTrees(f.areas));
    var outer := State([Frame(ROOT, None)], None, []);
    var inner := State([Frame(ROOT, None), Frame(MAP_DATA, None)], None, []);
    assert outer.stack + [Frame(MAP_DATA, None)] == inner.stack;
    var last := WalkAreas(f.areas, inner, region);
    assert [data][1..] == [];
    assert WalkNode(data, outer, region) == Walked(Close(last));
    assert [] + Clip(AllTiles(f.areas), region) == Clip(AllTiles(f.areas), region);
  }

  lemma {:induction false} ClipTwice(ts: seq<Tile>, wide: Region, narrow: Region)
    requires forall t :: t in ts && Inside(t, narrow) ==> Inside(t, wide)
    ensures Clip(Clip(ts, wide), narrow) == Clip(ts, narrow)
  {
    if ts != [] {
      ClipTwice(ts[1..], wide, narrow);
      ClipConcat(if Inside(ts[0], wide) then [ts[0]] else [], Clip(ts[1..], wide), narrow);
      assert [ts[0]][1..] == [];
    }
  }

  predicate Covers(wide: Region, narrow: Region) {
    && wide.x.low <= narrow.x.low && narrow.x.high <= wide.x.high
    && wide.y.low <= narrow.y.low && narrow.y.high <= wide.y.high
    && wide.z.low <= narrow.z.low && narrow.z.high <= wide.z.high
  }

  /** Pruning only saves work: a narrow read is the wide read, filtered afterwards. */
  lemma PruningIsFiltering(f: MapFile, root: Node, wide: Region, narrow: Region)
    requires ValidFile(f) && Extends(root, FileTree(f)) && Covers(wide, narrow)
    ensures ReadTiles(FileBytes(root), narrow) == Outcome(Clip(ReadTiles(FileBytes(root), wide).tiles, narrow), None)
  {
    ReadPrintedMap(f, root, wide);
    ReadPrintedMap(f, root, narrow);
    ClipTwice(AllTiles(f.areas), wide, narrow);
  }
}
