/** The bytes of one sector of the world: a palette of ids, then each tile with indices into it. */
module Sectors {
  import opened Wrappers
  import opened Numbers
  import opened OtbmPayload
  import opened WorldMap
  import IdRanges
  import Otbm

  const MAGIC: seq<Byte> := [0x44, 0x57, 0x53, 0x31]
  const CELLS := 1024

  datatype Sector = Sector(sx: nat, sy: nat, z: nat, tiles: seq<SectorTile>)

  datatype Refusal = PaletteTooLarge | TileOutside | TileRepeated | StackTooHigh

  function Cell(t: SectorTile): nat { t.y * SECTOR_SIZE + t.x }

  // ---------------------------------------------------------------- tiles by cell

  predicate Strict(ts: seq<SectorTile>) { forall i, j :: 0 <= i < j < |ts| ==> Cell(ts[i]) < Cell(ts[j]) }

  function InsertTile(ts: seq<SectorTile>, t: SectorTile): seq<SectorTile> {
    if ts == [] || Cell(t) < Cell(ts[0]) then [t] + ts else [ts[0]] + InsertTile(ts[1..], t)
  }

  /** Stable, by increasing cell. */
  function Arranged(ts: seq<SectorTile>): seq<SectorTile> {
    if ts == [] then [] else InsertTile(Arranged(ts[..|ts| - 1]), ts[|ts| - 1])
  }

  lemma {:induction false} InsertTileMembers(ts: seq<SectorTile>, t: SectorTile)
    ensures forall u :: u in InsertTile(ts, t) <==> u in ts || u == t
  {
    hide Cell;
    if ts != [] && Cell(t) >= Cell(ts[0]) {
      InsertTileMembers(ts[1..], t);
      assert ts == [ts[0]] + ts[1..];
    }
  }

  lemma {:induction false} ArrangedMembers(ts: seq<SectorTile>)
    ensures forall u :: u in Arranged(ts) <==> u in ts
  {
    hide InsertTile;
    if ts != [] {
      var front := ts[..|ts| - 1];
      ArrangedMembers(front);
      InsertTileMembers(Arranged(front), ts[|ts| - 1]);
      assert ts == front + [ts[|ts| - 1]];
    }
  }

  lemma {:induction false} InsertLast(ts: seq<SectorTile>, t: SectorTile)
    requires forall u :: u in ts ==> Cell(u) < Cell(t)
    ensures InsertTile(ts, t) == ts + [t]
  {
    if ts != [] { InsertLast(ts[1..], t); }
  }

  lemma StrictFront(ts: seq<SectorTile>)
    requires Strict(ts) && ts != []
    ensures Strict(ts[..|ts| - 1]) && forall u :: u in ts[..|ts| - 1] ==> Cell(u) < Cell(ts[|ts| - 1])
  {
    hide Cell;
    var front, n := ts[..|ts| - 1], |ts| - 1;
    forall u | u in front ensures Cell(u) < Cell(ts[n]) {
      var i :| 0 <= i < n && front[i] == u;
      assert ts[i] == u;
    }
  }

  lemma {:induction false} StrictIsArranged(ts: seq<SectorTile>)
    requires Strict(ts)
    ensures Arranged(ts) == ts
  {
    hide Strict, Cell, InsertTile;
    if ts != [] {
      var front, last := ts[..|ts| - 1], ts[|ts| - 1];
      StrictFront(ts);
      StrictIsArranged(front);
      InsertLast(front, last);
      assert ts == front + [last];
    }
  }

  // ---------------------------------------------------------------- the palette

  function ItemIds(items: seq<StackedItem>): seq<int> { seq(|items|, i requires 0 <= i < |items| => items[i].id) }

  function IdsOf(ts: seq<SectorTile>): (ids: seq<int>)
    ensures forall id :: id in ids ==> id >= 0
    ensures forall t :: t in ts ==> (t.ground > 0 ==> t.ground in ids) && forall item :: item in t.items ==> item.id in ids
  {
    if ts == [] then []
    else
      var here := (if ts[0].ground > 0 then [ts[0].ground] else []) + ItemIds(ts[0].items);
      assert forall k :: 0 <= k < |ts[0].items| ==> ItemIds(ts[0].items)[k] == ts[0].items[k].id;
      assert forall item :: item in ts[0].items ==> item.id in here;
      here + IdsOf(ts[1..])
  }

  function Palette(ts: seq<SectorTile>): (p: seq<nat>)
    ensures forall id :: id in p <==> id in IdsOf(ts)
  {
    var sorted := IdRanges.Sorted(IdsOf(ts));
    assert forall i :: 0 <= i < |sorted| ==> sorted[i] in IdsOf(ts);
    sorted
  }

  function IndexOf(palette: seq<nat>, id: nat): (i: nat)
    requires id in palette
    ensures i < |palette| && palette[i] == id
  {
    if palette[0] == id then 0 else 1 + IndexOf(palette[1..], id)
  }

  /** The palette as it is read back: ids are kept in 16 bits. */
  function Wrapped(palette: seq<nat>): (p: seq<nat>)
    ensures |p| == |palette|
  {
    seq(|palette|, i requires 0 <= i < |palette| => palette[i] % 0x1_0000)
  }

  function RefBytes(palette: seq<nat>, id: nat): seq<Byte>
    requires id in palette
  {
    if |palette| > 256 then U16(IndexOf(palette, id)) else U8(IndexOf(palette, id))
  }

  /** Whatever goes wrong while reading is one refusal. */
  function TakeRef(s: seq<Byte>, palette: seq<nat>): Taken<nat> {
    match if |palette| > 256 then TakeU16(s) else TakeByte(s)
    case Short => Short
    case Taken(i, rest) => if i < |palette| then Taken(palette[i], rest) else Short
  }

  function TakeByte(s: seq<Byte>): Taken<nat> {
    match TakeU8(s)
    case Short => Short
    case Taken(v, rest) => Taken(v as int, rest)
  }

  // ---------------------------------------------------------------- numbers that may be too large

  lemma ByteWraps(v: nat, rest: seq<Byte>)
    ensures TakeByte(U8(v) + rest) == Taken(v % 256, rest)
  {}

  lemma Remainder16(low: nat, high: nat, v: nat)
    requires low < 0x1_0000 && v == low + 0x1_0000 * high
    ensures v % 0x1_0000 == low
  {}

  lemma Remainder32(low: nat, high: nat, v: nat)
    requires low < 0x1_0000_0000 && v == low + 0x1_0000_0000 * high
    ensures v % 0x1_0000_0000 == low
  {}

  lemma WordOf(v: nat)
    ensures Word(U16(v)[0], U16(v)[1]) == v % 0x1_0000
  {
    var q := v / 256;
    assert v == Word(U16(v)[0], U16(v)[1]) + 0x1_0000 * (q / 256);
    Remainder16(Word(U16(v)[0], U16(v)[1]), q / 256, v);
  }

  lemma WordWraps(v: nat, rest: seq<Byte>)
    ensures TakeU16(U16(v) + rest) == Taken(v % 0x1_0000, rest)
  {
    WordOf(v);
    hide Word;
    assert (U16(v) + rest)[2..] == rest;
  }

  lemma LongWraps(v: nat, rest: seq<Byte>)
    ensures TakeU32(U32(v) + rest) == Taken(v % 0x1_0000_0000, rest)
  {
    var low, high := v % 0x1_0000, v / 0x1_0000;
    WordOf(low);
    WordOf(high);
    var s := U32(v) + rest;
    assert s[0] == U16(low)[0] && s[1] == U16(low)[1] && s[2] == U16(high)[0] && s[3] == U16(high)[1];
    hide U16, Word;
    assert s[4..] == rest;
    Remainder32(low + 0x1_0000 * (high % 0x1_0000), high / 0x1_0000, v);
  }

  lemma IndexInWidth(i: nat, size: nat)
    requires i < size < 0x1_0000
    ensures i % 0x1_0000 == i && (size <= 256 ==> i % 256 == i)
  {}

  lemma WrappedAt(palette: seq<nat>, i: nat)
    requires i < |palette|
    ensures Wrapped(palette)[i] == palette[i] % 0x1_0000
  {}

  lemma RefWraps(palette: seq<nat>, id: nat, rest: seq<Byte>)
    requires id in palette && |palette| < 0x1_0000
    ensures TakeRef(RefBytes(palette, id) + rest, Wrapped(palette)) == Taken(id % 0x1_0000, rest)
  {
    hide U16, U8, TakeU16, TakeByte, IndexOf, Wrapped;
    var i := IndexOf(palette, id);
    IndexInWidth(i, |palette|);
    WrappedAt(palette, i);
    WordWraps(i, rest);
    ByteWraps(i, rest);
  }

  // ---------------------------------------------------------------- one tile

  predicate Counted(item: StackedItem) { item.count.Some? && item.count.value > 1 }

  predicate AnyCounted(items: seq<StackedItem>) { exists item :: item in items && Counted(item) }

  function Bit(set_: bool, value: nat): nat { if set_ then value else 0 }

  /** Which of the optional parts a tile has: ground, counts, flags and house, a bit each. */
  function Parts(t: SectorTile): nat {
    Bit(t.ground > 0, 1) + Bit(AnyCounted(t.items), 2) + Bit(t.flags != 0, 4) + Bit(t.houseId.Some?, 8)
  }

  /** The cell in ten bits, then the parts that follow. */
  function Head(t: SectorTile): nat { Cell(t) + CELLS * Parts(t) }

  predicate BitAt(n: nat, k: nat)
    decreases k
  {
    if k == 0 then n % 2 == 1 else BitAt(n / 2, k - 1)
  }

  const GROUND := 0
  const COUNTS := 1
  const FLAGS := 2
  const HOUSE := 3

  predicate HasPart(head: nat, part: nat) { BitAt(head / CELLS, part) }

  lemma HeadTells(t: SectorTile)
    requires Cell(t) < CELLS
    ensures Head(t) < 0x1_0000 && Head(t) % CELLS == Cell(t)
    ensures HasPart(Head(t), GROUND) <==> t.ground > 0
    ensures HasPart(Head(t), COUNTS) <==> AnyCounted(t.items)
    ensures HasPart(Head(t), FLAGS) <==> t.flags != 0
    ensures HasPart(Head(t), HOUSE) <==> t.houseId.Some?
  {
    assert Parts(t) < 16 && Head(t) / CELLS == Parts(t);
    FourBits(t.ground > 0, AnyCounted(t.items), t.flags != 0, t.houseId.Some?);
  }

  lemma FourBits(a: bool, b: bool, c: bool, d: bool)
    ensures var n := Bit(a, 1) + Bit(b, 2) + Bit(c, 4) + Bit(d, 8);
      (BitAt(n, 0) <==> a) && (BitAt(n, 1) <==> b) && (BitAt(n, 2) <==> c) && (BitAt(n, 3) <==> d)
  {
    var n := Bit(a, 1) + Bit(b, 2) + Bit(c, 4) + Bit(d, 8);
    assert n / 2 == Bit(b, 1) + Bit(c, 2) + Bit(d, 4);
    assert n / 2 / 2 == Bit(c, 1) + Bit(d, 2);
    assert n / 2 / 2 / 2 == Bit(d, 1);
    assert BitAt(n, 1) == BitAt(n / 2, 0);
    assert BitAt(n, 2) == BitAt(n / 2, 1) == BitAt(n / 2 / 2, 0);
    assert BitAt(n, 3) == BitAt(n / 2, 2) == BitAt(n / 2 / 2, 1) == BitAt(n / 2 / 2 / 2, 0);
  }

  predicate AllIn(palette: seq<nat>, items: seq<StackedItem>) { forall item :: item in items ==> item.id in palette }

  function RefsBytes(palette: seq<nat>, items: seq<StackedItem>): seq<Byte>
    requires AllIn(palette, items)
  {
    if items == [] then [] else RefBytes(palette, items[0].id) + RefsBytes(palette, items[1..])
  }

  function TakeRefs(s: seq<Byte>, palette: seq<nat>, n: nat): Taken<seq<nat>> {
    if n == 0 then Taken([], s)
    else match TakeRef(s, palette)
      case Short => Short
      case Taken(id, more) =>
        match TakeRefs(more, palette, n - 1)
        case Short => Short
        case Taken(ids, rest) => Taken([id] + ids, rest)
  }

  function CountOf(item: StackedItem): nat { if Counted(item) then item.count.value else 0 }

  function CountsBytes(items: seq<StackedItem>): seq<Byte> {
    if items == [] then [] else U8(CountOf(items[0])) + CountsBytes(items[1..])
  }

  function TakeCounts(s: seq<Byte>, n: nat): Taken<seq<nat>> {
    if n == 0 then Taken([], s)
    else match TakeByte(s)
      case Short => Short
      case Taken(c, more) =>
        match TakeCounts(more, n - 1)
        case Short => Short
        case Taken(cs, rest) => Taken([c] + cs, rest)
  }

  function WrappedIds(items: seq<StackedItem>): (ids: seq<nat>)
    ensures |ids| == |items|
  {
    seq(|items|, i requires 0 <= i < |items| => items[i].id % 0x1_0000)
  }

  function WrappedCounts(items: seq<StackedItem>): (cs: seq<nat>)
    ensures |cs| == |items|
  {
    seq(|items|, i requires 0 <= i < |items| => CountOf(items[i]) % 256)
  }

  lemma RefsStep(s: seq<Byte>, palette: seq<nat>, n: nat, id: nat, more: seq<Byte>, ids: seq<nat>, rest: seq<Byte>)
    requires n > 0 && TakeRef(s, palette) == Taken(id, more) && TakeRefs(more, palette, n - 1) == Taken(ids, rest)
    ensures TakeRefs(s, palette, n) == Taken([id] + ids, rest)
  {}

  lemma RefsBytesSplit(palette: seq<nat>, items: seq<StackedItem>, rest: seq<Byte>)
    requires items != [] && AllIn(palette, items)
    ensures items[0].id in palette && AllIn(palette, items[1..])
    ensures RefsBytes(palette, items) + rest == RefBytes(palette, items[0].id) + (RefsBytes(palette, items[1..]) + rest)
  {
    assert items[0] in items;
    assert AllIn(palette, items[1..]);
    hide RefBytes, AllIn;
    var head, tail := RefBytes(palette, items[0].id), RefsBytes(palette, items[1..]);
    assert head + tail + rest == head + (tail + rest);
  }

  lemma WrappedIdsSplit(items: seq<StackedItem>)
    requires items != []
    ensures WrappedIds(items) == [items[0].id % 0x1_0000] + WrappedIds(items[1..])
  {}

  lemma {:induction false} RefsWrap(palette: seq<nat>, items: seq<StackedItem>, rest: seq<Byte>)
    requires AllIn(palette, items) && |palette| < 0x1_0000
    ensures TakeRefs(RefsBytes(palette, items) + rest, Wrapped(palette), |items|) == Taken(WrappedIds(items), rest)
  {
    if items == [] {
      assert RefsBytes(palette, items) + rest == rest;
    } else {
      hide *;
      RefsBytesSplit(palette, items, rest);
      WrappedIdsSplit(items);
      var more := RefsBytes(palette, items[1..]) + rest;
      RefsWrap(palette, items[1..], rest);
      RefWraps(palette, items[0].id, more);
      RefsStep(RefsBytes(palette, items) + rest, Wrapped(palette), |items|, items[0].id % 0x1_0000, more,
               WrappedIds(items[1..]), rest);
    }
  }

  lemma CountsStep(s: seq<Byte>, n: nat, c: nat, more: seq<Byte>, cs: seq<nat>, rest: seq<Byte>)
    requires n > 0 && TakeByte(s) == Taken(c, more) && TakeCounts(more, n - 1) == Taken(cs, rest)
    ensures TakeCounts(s, n) == Taken([c] + cs, rest)
  {}

  lemma CountsBytesSplit(items: seq<StackedItem>, rest: seq<Byte>)
    requires items != []
    ensures CountsBytes(items) + rest == U8(CountOf(items[0])) + (CountsBytes(items[1..]) + rest)
    ensures WrappedCounts(items) == [CountOf(items[0]) % 256] + WrappedCounts(items[1..])
  {
    hide U8, CountOf;
    var head, tail := U8(CountOf(items[0])), CountsBytes(items[1..]);
    assert head + tail + rest == head + (tail + rest);
  }

  lemma {:induction false} CountsWrap(items: seq<StackedItem>, rest: seq<Byte>)
    ensures TakeCounts(CountsBytes(items) + rest, |items|) == Taken(WrappedCounts(items), rest)
  {
    if items == [] {
      assert CountsBytes(items) + rest == rest;
    } else {
      hide *;
      CountsBytesSplit(items, rest);
      var more := CountsBytes(items[1..]) + rest;
      CountsWrap(items[1..], rest);
      ByteWraps(CountOf(items[0]), more);
      CountsStep(CountsBytes(items) + rest, |items|, CountOf(items[0]) % 256, more, WrappedCounts(items[1..]), rest);
    }
  }

  /** Every id of the tile is in the palette. */
  predicate Indexed(palette: seq<nat>, t: SectorTile) {
    (t.ground > 0 ==> t.ground in palette) && AllIn(palette, t.items)
  }

  /** The bytes of a tile, and what comes after them. */
  function TileThen(palette: seq<nat>, t: SectorTile, rest: seq<Byte>): seq<Byte>
    requires Indexed(palette, t)
  {
    U16(Head(t)) + StackThen(palette, t, FlagsBytes(t) + (HouseBytes(t) + rest))
  }

  function StackThen(palette: seq<nat>, t: SectorTile, rest: seq<Byte>): seq<Byte>
    requires Indexed(palette, t)
  {
    GroundBytes(palette, t) + (U8(|t.items|) + (RefsBytes(palette, t.items) + (CountsPart(t) + rest)))
  }

  function GroundBytes(palette: seq<nat>, t: SectorTile): seq<Byte>
    requires t.ground > 0 ==> t.ground in palette
  {
    if t.ground > 0 then RefBytes(palette, t.ground) else []
  }

  function CountsPart(t: SectorTile): seq<Byte> { if AnyCounted(t.items) then CountsBytes(t.items) else [] }

  function FlagsBytes(t: SectorTile): seq<Byte> { if t.flags != 0 then U8(t.flags) else [] }

  function HouseBytes(t: SectorTile): seq<Byte> { if t.houseId.Some? then U32(t.houseId.value) else [] }

  function Stacked(ids: seq<nat>, counts: seq<nat>): seq<StackedItem> {
    seq(|ids|, k requires 0 <= k < |ids| => StackedItem(ids[k], if k < |counts| && counts[k] > 1 then Some(counts[k]) else None))
  }

  function TakeGround(head: nat, s: seq<Byte>, palette: seq<nat>): Taken<nat> {
    if HasPart(head, GROUND) then TakeRef(s, palette) else Taken(0, s)
  }

  function TakeCountsIf(head: nat, s: seq<Byte>, n: nat): Taken<seq<nat>> {
    if HasPart(head, COUNTS) then TakeCounts(s, n) else Taken([], s)
  }

  function TakeFlags(head: nat, s: seq<Byte>): Taken<nat> { if HasPart(head, FLAGS) then TakeByte(s) else Taken(0, s) }

  function TakeHouse(head: nat, s: seq<Byte>): Taken<Option<nat>> {
    if !HasPart(head, HOUSE) then Taken(None, s)
    else match TakeU32(s)
      case Short => Short
      case Taken(id, rest) => Taken(Some(id), rest)
  }

  /** The stack of a tile: ground, ids and counts. */
  datatype Stack = Stack(ground: nat, items: seq<StackedItem>)

  function TakeStack(head: nat, s: seq<Byte>, palette: seq<nat>): Taken<Stack> {
    match TakeGround(head, s, palette)
    case Short => Short
    case Taken(ground, s1) =>
      match TakeByte(s1)
      case Short => Short
      case Taken(n, s2) =>
        match TakeRefs(s2, palette, n)
        case Short => Short
        case Taken(ids, s3) =>
          match TakeCountsIf(head, s3, n)
          case Short => Short
          case Taken(counts, s4) => Taken(Stack(ground, Stacked(ids, counts)), s4)
  }

  function TakeTile(s: seq<Byte>, palette: seq<nat>): Taken<SectorTile> {
    match TakeU16(s)
    case Short => Short
    case Taken(head, s1) =>
      match TakeStack(head, s1, palette)
      case Short => Short
      case Taken(stack, s2) =>
        match TakeFlags(head, s2)
        case Short => Short
        case Taken(flags, s3) =>
          match TakeHouse(head, s3)
          case Short => Short
          case Taken(house, rest) =>
            var cell := head % CELLS;
            Taken(SectorTile(cell % SECTOR_SIZE, cell / SECTOR_SIZE, stack.ground, stack.items, flags, house), rest)
  }

  // ---------------------------------------------------------------- what comes back

  function KeptCount(item: StackedItem): Option<nat> {
    if CountOf(item) % 256 > 1 then Some(CountOf(item) % 256) else None
  }

  function KeptItems(items: seq<StackedItem>): seq<StackedItem> {
    seq(|items|, i requires 0 <= i < |items| => StackedItem(items[i].id % 0x1_0000, KeptCount(items[i])))
  }

  /** The tile as its bytes tell it: every number in its width, counts only above one. */
  function KeptTile(t: SectorTile): SectorTile {
    SectorTile(t.x, t.y, t.ground % 0x1_0000, KeptItems(t.items), t.flags % 256, KeptHouse(t))
  }

  predicate Fitting(t: SectorTile) { t.x < SECTOR_SIZE && t.y < SECTOR_SIZE && |t.items| <= 255 }

  lemma StackedBack(items: seq<StackedItem>)
    ensures Stacked(WrappedIds(items), if AnyCounted(items) then WrappedCounts(items) else []) == KeptItems(items)
  {
    if !AnyCounted(items) {
      forall i | 0 <= i < |items| ensures KeptCount(items[i]) == None { assert items[i] in items; }
    }
  }

  /** The head has a bit for each part the tile has. */
  predicate Tells(head: nat, t: SectorTile) {
    && (HasPart(head, GROUND) <==> t.ground > 0) && (HasPart(head, COUNTS) <==> AnyCounted(t.items))
    && (HasPart(head, FLAGS) <==> t.flags != 0) && (HasPart(head, HOUSE) <==> t.houseId.Some?)
  }

  lemma GroundBack(head: nat, palette: seq<nat>, t: SectorTile, rest: seq<Byte>)
    requires Tells(head, t) && |palette| < 0x1_0000 && (t.ground > 0 ==> t.ground in palette)
    ensures TakeGround(head, GroundBytes(palette, t) + rest, Wrapped(palette)) == Taken(t.ground % 0x1_0000, rest)
  {
    hide HasPart, RefBytes, TakeRef, Wrapped;
    if t.ground > 0 { RefWraps(palette, t.ground, rest); } else { assert [] + rest == rest; }
  }

  lemma CountsBack(head: nat, t: SectorTile, rest: seq<Byte>)
    requires Tells(head, t)
    ensures TakeCountsIf(head, CountsPart(t) + rest, |t.items|)
         == Taken(if AnyCounted(t.items) then WrappedCounts(t.items) else [], rest)
  {
    hide HasPart, CountsBytes, TakeCounts, AnyCounted, WrappedCounts;
    if AnyCounted(t.items) { CountsWrap(t.items, rest); } else { assert [] + rest == rest; }
  }

  lemma FlagsBack(head: nat, t: SectorTile, rest: seq<Byte>)
    requires Tells(head, t)
    ensures TakeFlags(head, FlagsBytes(t) + rest) == Taken(t.flags % 256, rest)
  {
    hide HasPart, U8, TakeByte;
    if t.flags != 0 { ByteWraps(t.flags, rest); } else { assert [] + rest == rest; }
  }

  function KeptHouse(t: SectorTile): Option<nat> {
    if t.houseId.Some? then Some(t.houseId.value % 0x1_0000_0000) else None
  }

  lemma HouseBack(head: nat, t: SectorTile, rest: seq<Byte>)
    requires Tells(head, t)
    ensures TakeHouse(head, HouseBytes(t) + rest) == Taken(KeptHouse(t), rest)
  {
    hide HasPart, U32, TakeU32;
    if t.houseId.Some? { LongWraps(t.houseId.value, rest); } else { assert [] + rest == rest; }
  }

  /** Reading a stack is reading its parts one after the other. */
  lemma PartsMakeStack(s: seq<Byte>, palette: seq<nat>, head: nat, ground: nat, s1: seq<Byte>, n: nat, s2: seq<Byte>,
                       ids: seq<nat>, s3: seq<Byte>, counts: seq<nat>, rest: seq<Byte>)
    requires TakeGround(head, s, palette) == Taken(ground, s1) && TakeByte(s1) == Taken(n, s2)
    requires TakeRefs(s2, palette, n) == Taken(ids, s3) && TakeCountsIf(head, s3, n) == Taken(counts, rest)
    ensures TakeStack(head, s, palette) == Taken(Stack(ground, Stacked(ids, counts)), rest)
  {
    hide TakeGround, TakeByte, TakeRefs, TakeCountsIf, Stacked;
  }

  lemma StackThenIs(palette: seq<nat>, t: SectorTile, rest: seq<Byte>)
    requires Indexed(palette, t)
    ensures (t.ground > 0 ==> t.ground in palette) && AllIn(palette, t.items)
    ensures StackThen(palette, t, rest)
         == GroundBytes(palette, t) + (U8(|t.items|) + (RefsBytes(palette, t.items) + (CountsPart(t) + rest)))
  {}

  lemma CountFits(t: SectorTile)
    requires Fitting(t)
    ensures |t.items| % 256 == |t.items|
  {}

  lemma CellTells(t: SectorTile)
    requires Fitting(t)
    ensures Cell(t) < CELLS && Cell(t) % SECTOR_SIZE == t.x && Cell(t) / SECTOR_SIZE == t.y
  {}

  /** Reading a tile is reading its parts one after the other. */
  lemma PartsMakeTile(s: seq<Byte>, palette: seq<nat>, head: nat, s1: seq<Byte>, stack: Stack, s2: seq<Byte>,
                      flags: nat, s3: seq<Byte>, house: Option<nat>, rest: seq<Byte>)
    requires TakeU16(s) == Taken(head, s1) && TakeStack(head, s1, palette) == Taken(stack, s2)
    requires TakeFlags(head, s2) == Taken(flags, s3) && TakeHouse(head, s3) == Taken(house, rest)
    ensures TakeTile(s, palette)
         == Taken(SectorTile(head % CELLS % SECTOR_SIZE, head % CELLS / SECTOR_SIZE, stack.ground, stack.items, flags,
                             house), rest)
  {
    hide TakeU16, TakeStack, TakeFlags, TakeHouse;
  }

  lemma TileWraps(palette: seq<nat>, t: SectorTile, rest: seq<Byte>)
    requires Fitting(t) && |palette| < 0x1_0000
    requires Indexed(palette, t)
    ensures TakeTile(TileThen(palette, t, rest), Wrapped(palette)) == Taken(KeptTile(t), rest)
  {
    hide *;
    var head := Head(t);
    var s3 := HouseBytes(t) + rest;
    var s2 := FlagsBytes(t) + s3;
    var s1 := StackThen(palette, t, s2);
    TileThenIs(palette, t, rest);
    HeadIsRight(t);
    WordWraps(head, s1);
    StackThenIs(palette, t, s2);
    StackedBack(t.items);
    var c3 := CountsPart(t) + s2;
    var c2 := RefsBytes(palette, t.items) + c3;
    var c1 := U8(|t.items|) + c2;
    GroundBack(head, palette, t, c1);
    ByteWraps(|t.items|, c2);
    CountFits(t);
    RefsWrap(palette, t.items, c3);
    CountsBack(head, t, s2);
    PartsMakeStack(s1, Wrapped(palette), head, t.ground % 0x1_0000, c1, |t.items|, c2, WrappedIds(t.items), c3,
                   if AnyCounted(t.items) then WrappedCounts(t.items) else [], s2);
    FlagsBack(head, t, s3);
    HouseBack(head, t, rest);
    PartsMakeTile(U16(head) + s1, Wrapped(palette), head, s1, Stack(t.ground % 0x1_0000, KeptItems(t.items)), s2,
                  t.flags % 256, s3, KeptHouse(t), rest);
    KeptTileIs(t, head);
  }

  lemma TileThenIs(palette: seq<nat>, t: SectorTile, rest: seq<Byte>)
    requires Indexed(palette, t)
    ensures TileThen(palette, t, rest) == U16(Head(t)) + StackThen(palette, t, FlagsBytes(t) + (HouseBytes(t) + rest))
  {}

  lemma HeadIsRight(t: SectorTile)
    requires Fitting(t)
    ensures Head(t) < 0x1_0000 && Tells(Head(t), t)
    ensures Head(t) % CELLS % SECTOR_SIZE == t.x && Head(t) % CELLS / SECTOR_SIZE == t.y
  {
    hide Head, Cell, HasPart;
    CellTells(t);
    HeadTells(t);
  }

  lemma KeptTileIs(t: SectorTile, head: nat)
    requires head % CELLS % SECTOR_SIZE == t.x && head % CELLS / SECTOR_SIZE == t.y
    ensures KeptTile(t) == SectorTile(head % CELLS % SECTOR_SIZE, head % CELLS / SECTOR_SIZE,
                                      t.ground % 0x1_0000, KeptItems(t.items), t.flags % 256, KeptHouse(t))
  {
    hide KeptItems, KeptHouse;
  }

  // ---------------------------------------------------------------- the whole sector

  predicate AllIndexed(palette: seq<nat>, ts: seq<SectorTile>) { forall t :: t in ts ==> Indexed(palette, t) }

  predicate AllFitting(ts: seq<SectorTile>) { forall t :: t in ts ==> Fitting(t) }

  function TilesThen(palette: seq<nat>, ts: seq<SectorTile>, rest: seq<Byte>): seq<Byte>
    requires AllIndexed(palette, ts)
  {
    if ts == [] then rest else TileThen(palette, ts[0], TilesThen(palette, ts[1..], rest))
  }

  function TakeTiles(s: seq<Byte>, palette: seq<nat>, n: nat): Taken<seq<SectorTile>>
    decreases n
  {
    if n == 0 then Taken([], s)
    else match TakeTile(s, palette)
      case Short => Short
      case Taken(t, more) =>
        match TakeTiles(more, palette, n - 1)
        case Short => Short
        case Taken(ts, rest) => Taken([t] + ts, rest)
  }

  function IdsThen(ids: seq<nat>, rest: seq<Byte>): seq<Byte> {
    if ids == [] then rest else U16(ids[0]) + IdsThen(ids[1..], rest)
  }

  function TakeIds(s: seq<Byte>, n: nat): Taken<seq<nat>> {
    if n == 0 then Taken([], s)
    else match TakeU16(s)
      case Short => Short
      case Taken(id, more) =>
        match TakeIds(more, n - 1)
        case Short => Short
        case Taken(ids, rest) => Taken([id] + ids, rest)
  }

  /** Why the sector cannot be written, if it cannot. */
  function RefusalOf(ts: seq<SectorTile>): Option<Refusal> {
    if |Palette(ts)| > 0xffff then Some(PaletteTooLarge) else FirstBad(Arranged(ts), -1)
  }

  function FirstBad(ts: seq<SectorTile>, previous: int): Option<Refusal> {
    if ts == [] then None
    else if ts[0].x >= SECTOR_SIZE || ts[0].y >= SECTOR_SIZE then Some(TileOutside)
    else if Cell(ts[0]) == previous then Some(TileRepeated)
    else if |ts[0].items| > 255 then Some(StackTooHigh)
    else FirstBad(ts[1..], Cell(ts[0]))
  }

  lemma ArrangedIsIndexed(ts: seq<SectorTile>)
    ensures AllIndexed(Palette(ts), Arranged(ts))
  {
    ArrangedMembers(ts);
    hide Arranged;
  }

  /** The bytes of the sector: its header, its palette, its tiles by cell. */
  function Encoded(s: Sector): seq<Byte> {
    var palette, ts := Palette(s.tiles), Arranged(s.tiles);
    ArrangedIsIndexed(s.tiles);
    MAGIC + (U16(s.sx) + (U16(s.sy) + (U8(s.z) + BodyBytes(palette, ts))))
  }

  /** What the bytes after the header say. */
  function TakeBody(s: seq<Byte>): Option<seq<SectorTile>> {
    match TakeU16(s)
    case Short => None
    case Taken(size, s1) =>
      match TakeIds(s1, size)
      case Short => None
      case Taken(palette, s2) =>
        match TakeU16(s2)
        case Short => None
        case Taken(count, s3) =>
          match TakeTiles(s3, palette, count)
          case Short => None
          case Taken(ts, rest) => if rest == [] then Some(ts) else None
  }

  function Decoded(bytes: seq<Byte>): Option<Sector> {
    if |bytes| < 4 || bytes[..4] != MAGIC then None
    else match TakeU16(bytes[4..])
      case Short => None
      case Taken(sx, s1) =>
        match TakeU16(s1)
        case Short => None
        case Taken(sy, s2) =>
          match TakeByte(s2)
          case Short => None
          case Taken(z, s3) =>
            var ts := TakeBody(s3);
            if ts.None? then None else Some(Sector(sx, sy, z, ts.value))
  }

  lemma {:induction false} IdsWrap(ids: seq<nat>, rest: seq<Byte>)
    ensures TakeIds(IdsThen(ids, rest), |ids|) == Taken(Wrapped(ids), rest)
  {
    if ids != [] {
      hide U16, TakeU16;
      IdsWrap(ids[1..], rest);
      WordWraps(ids[0], IdsThen(ids[1..], rest));
      assert Wrapped(ids) == [ids[0] % 0x1_0000] + Wrapped(ids[1..]);
    } else {
      assert Wrapped(ids) == [];
    }
  }

  function KeptTiles(ts: seq<SectorTile>): (r: seq<SectorTile>)
    ensures |r| == |ts|
  {
    seq(|ts|, i requires 0 <= i < |ts| => KeptTile(ts[i]))
  }

  lemma {:induction false} TilesWrap(palette: seq<nat>, ts: seq<SectorTile>, rest: seq<Byte>)
    requires |palette| < 0x1_0000 && AllIndexed(palette, ts) && AllFitting(ts)
    ensures TakeTiles(TilesThen(palette, ts, rest), Wrapped(palette), |ts|) == Taken(KeptTiles(ts), rest)
  {
    hide Indexed, Fitting, TileThen, TakeTile, Wrapped, KeptTile;
    if ts != [] {
      var more := TilesThen(palette, ts[1..], rest);
      TilesWrap(palette, ts[1..], rest);
      assert ts[0] in ts;
      TileWraps(palette, ts[0], more);
      assert KeptTiles(ts) == [KeptTile(ts[0])] + KeptTiles(ts[1..]);
    } else {
      assert KeptTiles(ts) == [];
    }
  }

  /** A sector that can be written has at most one tile per cell, each within its bounds. */
  lemma {:induction false} NoneBad(ts: seq<SectorTile>, previous: int)
    requires FirstBad(ts, previous) == None
    ensures AllFitting(ts)
  {
    if ts != [] {
      NoneBad(ts[1..], Cell(ts[0]));
      assert ts == [ts[0]] + ts[1..];
    }
  }

  predicate Sorted(ts: seq<SectorTile>) { forall i, j :: 0 <= i < j < |ts| ==> Cell(ts[i]) <= Cell(ts[j]) }

  lemma {:induction false} InsertSorts(ts: seq<SectorTile>, t: SectorTile)
    requires Sorted(ts)
    ensures Sorted(InsertTile(ts, t))
  {
    hide Cell;
    if ts != [] && Cell(t) >= Cell(ts[0]) {
      InsertSorts(ts[1..], t);
      var rest := InsertTile(ts[1..], t);
      InsertTileMembers(ts[1..], t);
      forall j | 0 <= j < |rest| ensures Cell(ts[0]) <= Cell(rest[j]) {
        assert rest[j] in rest;
      }
    }
  }

  lemma {:induction false} ArrangedSorts(ts: seq<SectorTile>)
    ensures Sorted(Arranged(ts))
  {
    if ts != [] {
      ArrangedSorts(ts[..|ts| - 1]);
      InsertSorts(Arranged(ts[..|ts| - 1]), ts[|ts| - 1]);
    }
  }

  lemma {:induction false} NoneRepeated(ts: seq<SectorTile>, previous: int)
    requires FirstBad(ts, previous) == None && Sorted(ts) && (ts != [] ==> previous <= Cell(ts[0]))
    ensures Strict(ts) && (ts != [] ==> previous < Cell(ts[0]))
  {
    hide Cell;
    if ts != [] {
      assert forall j :: 1 <= j < |ts| ==> ts[1..][j - 1] == ts[j];
      NoneRepeated(ts[1..], Cell(ts[0]));
      forall j | 0 < j < |ts| ensures Cell(ts[0]) < Cell(ts[j]) {
        assert ts[1..][j - 1] == ts[j] && ts[1..][0] == ts[1];
      }
    }
  }

  lemma {:induction false} StrictFits(ts: seq<SectorTile>, k: nat)
    requires Strict(ts) && k < |ts|
    ensures Cell(ts[k]) >= k
  {
    hide Cell;
    if k > 0 { StrictFits(ts, k - 1); }
  }

  lemma FewCells(ts: seq<SectorTile>)
    requires Strict(ts) && AllFitting(ts)
    ensures |ts| <= CELLS
  {
    if ts != [] {
      var last := ts[|ts| - 1];
      assert last in ts && Fitting(last);
      StrictFits(ts, |ts| - 1);
      CellTells(last);
    }
  }

  lemma WritableIsStrict(ts: seq<SectorTile>)
    requires RefusalOf(ts) == None
    ensures Strict(Arranged(ts)) && |Arranged(ts)| <= CELLS && AllFitting(Arranged(ts))
  {
    assert FirstBad(Arranged(ts), -1) == None;
    hide *;
    ArrangedSorts(ts);
    NoneBad(Arranged(ts), -1);
    NoneRepeated(Arranged(ts), -1);
    FewCells(Arranged(ts));
  }

  // ---------------------------------------------------------------- results

  /** The sector as its bytes tell it. */
  function Kept(s: Sector): Sector {
    Sector(s.sx % 0x1_0000, s.sy % 0x1_0000, s.z % 256, KeptTiles(Arranged(s.tiles)))
  }

  function BodyBytes(palette: seq<nat>, ts: seq<SectorTile>): seq<Byte>
    requires AllIndexed(palette, ts)
  {
    U16(|palette|) + IdsThen(palette, U16(|ts|) + TilesThen(palette, ts, []))
  }

  lemma PartsMakeBody(s: seq<Byte>, size: nat, s1: seq<Byte>, palette: seq<nat>, s2: seq<Byte>, count: nat,
                      s3: seq<Byte>, ts: seq<SectorTile>)
    requires TakeU16(s) == Taken(size, s1) && TakeIds(s1, size) == Taken(palette, s2)
    requires TakeU16(s2) == Taken(count, s3) && TakeTiles(s3, palette, count) == Taken(ts, [])
    ensures TakeBody(s) == Some(ts)
  {}

  lemma BodyBytesAre(palette: seq<nat>, ts: seq<SectorTile>)
    requires AllIndexed(palette, ts)
    ensures BodyBytes(palette, ts) == U16(|palette|) + IdsThen(palette, U16(|ts|) + TilesThen(palette, ts, []))
  {}

  lemma BodyRoundTrip(palette: seq<nat>, ts: seq<SectorTile>)
    requires |palette| < 0x1_0000 && |ts| < 0x1_0000 && AllIndexed(palette, ts) && AllFitting(ts)
    ensures TakeBody(BodyBytes(palette, ts)) == Some(KeptTiles(ts))
  {
    hide *;
    BodyBytesAre(palette, ts);
    var s3 := TilesThen(palette, ts, []);
    var s2 := U16(|ts|) + s3;
    var s1 := IdsThen(palette, s2);
    WordWraps(|palette|, s1);
    IdsWrap(palette, s2);
    WordWraps(|ts|, s3);
    TilesWrap(palette, ts, []);
    PartsMakeBody(U16(|palette|) + s1, |palette|, s1, Wrapped(palette), s2, |ts|, s3, KeptTiles(ts));
  }

  /** Reading what was written gives the sector back, by cell and every number in its width. */
  lemma RoundTrip(s: Sector)
    requires RefusalOf(s.tiles) == None
    ensures Decoded(Encoded(s)) == Some(Kept(s))
  {
    ArrangedIsIndexed(s.tiles);
    WritableIsStrict(s.tiles);
    var palette, ts := Palette(s.tiles), Arranged(s.tiles);
    assert |palette| < 0x1_0000;
    hide Palette, Arranged, AllIndexed, AllFitting, Strict, U16, U8, TakeU16, TakeByte, BodyBytes, TakeBody, KeptTiles, RefusalOf;
    BodyRoundTrip(palette, ts);
    var s4 := BodyBytes(palette, ts);
    var s3 := U8(s.z) + s4;
    var s2 := U16(s.sy) + s3;
    var s1 := U16(s.sx) + s2;
    assert (MAGIC + s1)[..4] == MAGIC && (MAGIC + s1)[4..] == s1;
    WordWraps(s.sx, s2);
    WordWraps(s.sy, s3);
    ByteWraps(s.z, s4);
  }

  predicate SnugItem(item: StackedItem) { item.id < 0x1_0000 && (item.count.Some? ==> 1 < item.count.value < 256) }

  /** Every number of the tile fits its width, and counts are absent or above one. */
  predicate Snug(t: SectorTile) {
    && t.ground < 0x1_0000 && t.flags < 256 && (t.houseId.Some? ==> t.houseId.value < 0x1_0000_0000)
    && forall i :: 0 <= i < |t.items| ==> SnugItem(t.items[i])
  }

  predicate Storable(s: Sector) {
    s.sx < 0x1_0000 && s.sy < 0x1_0000 && s.z < 256 && Strict(s.tiles) && AllSnug(s.tiles)
  }

  predicate AllSnug(ts: seq<SectorTile>) { forall i :: 0 <= i < |ts| ==> Snug(ts[i]) }

  lemma SnugItemIsKept(item: StackedItem)
    ensures StackedItem(item.id % 0x1_0000, KeptCount(item)) == item <==> SnugItem(item)
  {}

  lemma SnugIsKept(t: SectorTile)
    ensures KeptTile(t) == t <==> Snug(t)
  {
    forall i | 0 <= i < |t.items| ensures KeptItems(t.items)[i] == t.items[i] <==> SnugItem(t.items[i]) {
      SnugItemIsKept(t.items[i]);
    }
    hide SnugItem, KeptCount;
    assert KeptItems(t.items) == t.items <==> forall i :: 0 <= i < |t.items| ==> SnugItem(t.items[i]);
  }

  lemma KeptTilesStrict(ts: seq<SectorTile>, r: seq<SectorTile>)
    requires KeptTiles(r) == ts && Strict(r)
    ensures Strict(ts)
  {
    forall i | 0 <= i < |r| ensures Cell(ts[i]) == Cell(r[i]) { assert ts[i] == KeptTile(r[i]); }
    hide Cell;
  }

  lemma KeptTilesSame(ts: seq<SectorTile>)
    ensures KeptTiles(ts) == ts <==> AllSnug(ts)
  {
    forall i | 0 <= i < |ts| ensures KeptTiles(ts)[i] == ts[i] <==> Snug(ts[i]) { SnugIsKept(ts[i]); }
    hide KeptTile, Snug;
    if AllSnug(ts) { assert KeptTiles(ts) == ts; }
  }

  lemma ArrangedTilesKept(ts: seq<SectorTile>)
    requires RefusalOf(ts) == None
    ensures KeptTiles(Arranged(ts)) == ts <==> Strict(ts) && AllSnug(ts)
  {
    hide *;
    WritableIsStrict(ts);
    KeptTilesSame(ts);
    if Strict(ts) { StrictIsArranged(ts); }
    if KeptTiles(Arranged(ts)) == ts {
      KeptTilesStrict(ts, Arranged(ts));
      StrictIsArranged(ts);
    }
  }

  /** The bytes hold the sector exactly when its tiles are by cell and every number fits its width. */
  lemma KeptIffStorable(s: Sector)
    requires RefusalOf(s.tiles) == None
    ensures Kept(s) == s <==> Storable(s)
  {
    ArrangedTilesKept(s.tiles);
    SameSector(s, KeptTiles(Arranged(s.tiles)));
    hide Arranged, AllSnug, KeptTiles, RefusalOf, Strict;
  }

  lemma SameSector(s: Sector, ts: seq<SectorTile>)
    ensures Sector(s.sx % 0x1_0000, s.sy % 0x1_0000, s.z % 256, ts) == s
       <==> s.sx < 0x1_0000 && s.sy < 0x1_0000 && s.z < 256 && ts == s.tiles
  {}

  // ---------------------------------------------------------------- writing and reading

  method EncodeTile(palette: seq<nat>, t: SectorTile, out: seq<Byte>, ghost rest: seq<Byte>) returns (longer: seq<Byte>)
    requires Indexed(palette, t)
    ensures longer + rest == out + TileThen(palette, t, rest)
  {
    hide *;
    TileThenParts(palette, t, rest);
    longer := out + U16(Head(t));
    longer := longer + GroundBytes(palette, t);
    longer := longer + U8(|t.items|);
    longer := EncodeRefs(palette, t.items, longer);
    longer := EncodeCounts(t, longer);
    longer := longer + FlagsBytes(t);
    longer := longer + HouseBytes(t);
    Regroup(out, U16(Head(t)), GroundBytes(palette, t), U8(|t.items|), RefsBytes(palette, t.items), CountsPart(t),
            FlagsBytes(t), HouseBytes(t), rest);
  }

  lemma TileThenParts(palette: seq<nat>, t: SectorTile, rest: seq<Byte>)
    requires Indexed(palette, t)
    ensures (t.ground > 0 ==> t.ground in palette) && AllIn(palette, t.items)
    ensures TileThen(palette, t, rest) == U16(Head(t)) + (GroundBytes(palette, t) + (U8(|t.items|) + (RefsBytes(palette, t.items)
      + (CountsPart(t) + (FlagsBytes(t) + (HouseBytes(t) + rest))))))
  {}

  lemma Assoc(a: seq<Byte>, b: seq<Byte>, c: seq<Byte>)
    ensures a + b + c == a + (b + c)
  {}

  lemma Regroup(out: seq<Byte>, a: seq<Byte>, b: seq<Byte>, c: seq<Byte>, d: seq<Byte>, e: seq<Byte>, f: seq<Byte>,
                g: seq<Byte>, rest: seq<Byte>)
    ensures out + a + b + c + d + e + f + g + rest == out + (a + (b + (c + (d + (e + (f + (g + rest)))))))
  {
    Assoc(out + a + b + c + d + e + f, g, rest);
    Assoc(out + a + b + c + d + e, f, g + rest);
    Assoc(out + a + b + c + d, e, f + (g + rest));
    Assoc(out + a + b + c, d, e + (f + (g + rest)));
    Assoc(out + a + b, c, d + (e + (f + (g + rest))));
    Assoc(out + a, b, c + (d + (e + (f + (g + rest)))));
    Assoc(out, a, b + (c + (d + (e + (f + (g + rest))))));
  }

  method EncodeRefs(palette: seq<nat>, items: seq<StackedItem>, out: seq<Byte>) returns (longer: seq<Byte>)
    requires AllIn(palette, items)
    ensures longer == out + RefsBytes(palette, items)
  {
    longer := out;
    for i := 0 to |items|
      invariant AllIn(palette, items[i..]) && out + RefsBytes(palette, items) == longer + RefsBytes(palette, items[i..])
    {
      RefsBytesSplit(palette, items[i..], []);
      hide RefBytes, RefsBytes, AllIn;
      assert items[i..][1..] == items[i + 1..];
      ghost var head, tail := RefBytes(palette, items[i].id), RefsBytes(palette, items[i + 1..]);
      assert RefsBytes(palette, items[i..]) == head + tail by {
        assert RefsBytes(palette, items[i..]) + [] == RefsBytes(palette, items[i..]) && tail + [] == tail;
      }
      assert longer + (head + tail) == longer + head + tail;
      longer := longer + RefBytes(palette, items[i].id);
    }
    assert longer + [] == longer;
  }

  method EncodeCounts(t: SectorTile, out: seq<Byte>) returns (longer: seq<Byte>)
    ensures longer == out + CountsPart(t)
  {
    longer := out;
    if !AnyCounted(t.items) { return; }
    var items := t.items;
    for i := 0 to |items|
      invariant out + CountsBytes(items) == longer + CountsBytes(items[i..])
    {
      hide U8, CountOf;
      assert items[i..][1..] == items[i + 1..];
      ghost var head, tail := U8(CountOf(items[i])), CountsBytes(items[i + 1..]);
      assert longer + (head + tail) == longer + head + tail;
      longer := longer + U8(CountOf(items[i]));
    }
    assert longer + [] == longer;
  }

  method EncodeSector(s: Sector) returns (result: Result<seq<Byte>, Refusal>)
    ensures match RefusalOf(s.tiles)
      case Some(refusal) => result == Err(refusal)
      case None => result == Ok(Encoded(s))
  {
    hide Palette, Arranged, Indexed, U16, U8, TileThen;
    var palette := Palette(s.tiles);
    if |palette| > 0xffff { return Err(PaletteTooLarge); }
    var tiles := Arranged(s.tiles);
    ArrangedIsIndexed(s.tiles);
    ghost var body := U16(|tiles|) + TilesThen(palette, tiles, []);
    var out := MAGIC + U16(s.sx) + U16(s.sy) + U8(s.z) + U16(|palette|);
    ghost var start := out;
    for i := 0 to |palette|
      invariant out + IdsThen(palette[i..], body) == start + IdsThen(palette, body)
    {
      assert palette[i..][1..] == palette[i + 1..];
      ghost var id, more := U16(palette[i]), IdsThen(palette[i + 1..], body);
      assert out + (id + more) == out + id + more;
      out := out + U16(palette[i]);
    }
    assert out + body == start + IdsThen(palette, body);
    out := out + U16(|tiles|);
    assert out + TilesThen(palette, tiles, []) == start + IdsThen(palette, body);
    var refusal: Option<Refusal>;
    ghost var header := out;
    refusal, out := EncodeTiles(palette, tiles, out);
    if refusal.Some? { return Err(refusal.value); }
    result := Ok(out);
    HeaderJoins(s, palette, body);
  }

  lemma HeaderJoins(s: Sector, palette: seq<nat>, body: seq<Byte>)
    ensures MAGIC + U16(s.sx) + U16(s.sy) + U8(s.z) + U16(|palette|) + IdsThen(palette, body)
         == MAGIC + (U16(s.sx) + (U16(s.sy) + (U8(s.z) + (U16(|palette|) + IdsThen(palette, body)))))
  {
    hide U16, U8, IdsThen;
  }

  method EncodeTiles(palette: seq<nat>, tiles: seq<SectorTile>, out: seq<Byte>)
    returns (refusal: Option<Refusal>, longer: seq<Byte>)
    requires AllIndexed(palette, tiles)
    ensures refusal == FirstBad(tiles, -1)
    ensures refusal.None? ==> longer == out + TilesThen(palette, tiles, [])
  {
    hide Indexed, TileThen, Cell;
    longer := out;
    var previous: int := -1;
    for i := 0 to |tiles|
      invariant FirstBad(tiles, -1) == FirstBad(tiles[i..], previous)
      invariant AllIndexed(palette, tiles[i..])
      invariant longer + TilesThen(palette, tiles[i..], []) == out + TilesThen(palette, tiles, [])
    {
      var tile := tiles[i];
      assert tiles[i..][1..] == tiles[i + 1..] && tile in tiles[i..];
      if tile.x >= SECTOR_SIZE || tile.y >= SECTOR_SIZE { return Some(TileOutside), longer; }
      if Cell(tile) == previous { return Some(TileRepeated), longer; }
      previous := Cell(tile);
      if |tile.items| > 255 { return Some(StackTooHigh), longer; }
      longer := EncodeTile(palette, tile, longer, TilesThen(palette, tiles[i + 1..], []));
    }
    assert longer + [] == longer;
    refusal := None;
  }

  /** What a read gave and where it left the cursor, against what the bytes say. */
  ghost predicate Took<T(!new)>(said: Taken<T>, got: Option<T>, rest: seq<Byte>) {
    match said
    case Short => got == None
    case Taken(v, more) => got == Some(v) && rest == more
  }

  method ReadByte(p: Payload) returns (r: Option<nat>)
    requires p.Valid()
    modifies p
    ensures p.Valid() && Took(TakeByte(old(p.Rest())), r, p.Rest())
  {
    var b := p.ReadU8();
    r := if b.None? then None else Some(b.value as int);
  }

  method ReadRef(p: Payload, palette: seq<nat>) returns (r: Option<nat>)
    requires p.Valid()
    modifies p
    ensures p.Valid() && Took(TakeRef(old(p.Rest()), palette), r, p.Rest())
  {
    var i: Option<nat>;
    if |palette| > 256 { i := p.ReadU16(); } else { i := ReadByte(p); }
    if i.None? || i.value >= |palette| { return None; }
    r := Some(palette[i.value]);
  }

  /** What reading `n` more gives, after `done` was read. */
  ghost function Onto<T>(done: seq<T>, more: Taken<seq<T>>): Taken<seq<T>> {
    match more
    case Short => Short
    case Taken(v, rest) => Taken(done + v, rest)
  }

  lemma OntoNothing<T>(more: Taken<seq<T>>)
    ensures Onto([], more) == more
  {
    if more.Taken? { assert [] + more.value == more.value; }
  }

  lemma OntoNext<T>(done: seq<T>, v: T, more: Taken<seq<T>>)
    ensures Onto(done, Onto([v], more)) == Onto(done + [v], more)
  {
    if more.Taken? { assert done + ([v] + more.value) == done + [v] + more.value; }
  }

  method ReadRefs(p: Payload, palette: seq<nat>, n: nat) returns (r: Option<seq<nat>>)
    requires p.Valid()
    modifies p
    ensures p.Valid() && Took(TakeRefs(old(p.Rest()), palette, n), r, p.Rest())
  {
    hide TakeRef;
    var ids: seq<nat> := [];
    ghost var whole := TakeRefs(p.Rest(), palette, n);
    OntoNothing(whole);
    for k := 0 to n
      invariant p.Valid() && whole == Onto(ids, TakeRefs(p.Rest(), palette, n - k))
    {
      var id := ReadRef(p, palette);
      if id.None? { return None; }
      OntoNext(ids, id.value, TakeRefs(p.Rest(), palette, n - k - 1));
      ids := ids + [id.value];
    }
    assert ids + [] == ids;
    r := Some(ids);
  }

  method ReadCounts(p: Payload, n: nat) returns (r: Option<seq<nat>>)
    requires p.Valid()
    modifies p
    ensures p.Valid() && Took(TakeCounts(old(p.Rest()), n), r, p.Rest())
  {
    hide TakeByte;
    var counts: seq<nat> := [];
    ghost var whole := TakeCounts(p.Rest(), n);
    OntoNothing(whole);
    for k := 0 to n
      invariant p.Valid() && whole == Onto(counts, TakeCounts(p.Rest(), n - k))
    {
      var c := ReadByte(p);
      if c.None? { return None; }
      OntoNext(counts, c.value, TakeCounts(p.Rest(), n - k - 1));
      counts := counts + [c.value];
    }
    assert counts + [] == counts;
    r := Some(counts);
  }

  method ReadIds(p: Payload, n: nat) returns (r: Option<seq<nat>>)
    requires p.Valid()
    modifies p
    ensures p.Valid() && Took(TakeIds(old(p.Rest()), n), r, p.Rest())
  {
    hide TakeU16;
    var ids: seq<nat> := [];
    ghost var whole := TakeIds(p.Rest(), n);
    OntoNothing(whole);
    for k := 0 to n
      invariant p.Valid() && whole == Onto(ids, TakeIds(p.Rest(), n - k))
    {
      var id := p.ReadU16();
      if id.None? { return None; }
      OntoNext(ids, id.value, TakeIds(p.Rest(), n - k - 1));
      ids := ids + [id.value];
    }
    assert ids + [] == ids;
    r := Some(ids);
  }

  method ReadStack(p: Payload, head: nat, palette: seq<nat>) returns (r: Option<Stack>)
    requires p.Valid()
    modifies p
    ensures p.Valid() && Took(TakeStack(head, old(p.Rest()), palette), r, p.Rest())
  {
    hide HasPart, TakeRef, TakeByte, TakeRefs, TakeCounts;
    var ground := Some(0);
    if HasPart(head, GROUND) { ground := ReadRef(p, palette); }
    if ground.None? { return None; }
    var n := ReadByte(p);
    if n.None? { return None; }
    var ids := ReadRefs(p, palette, n.value);
    if ids.None? { return None; }
    var counts := Some([]);
    if HasPart(head, COUNTS) { counts := ReadCounts(p, n.value); }
    if counts.None? { return None; }
    r := Some(Stack(ground.value, Stacked(ids.value, counts.value)));
  }

  method ReadTile(p: Payload, palette: seq<nat>) returns (r: Option<SectorTile>)
    requires p.Valid()
    modifies p
    ensures p.Valid() && Took(TakeTile(old(p.Rest()), palette), r, p.Rest())
  {
    hide HasPart, TakeU16, TakeU32, TakeByte, TakeStack;
    var head := p.ReadU16();
    if head.None? { return None; }
    var stack := ReadStack(p, head.value, palette);
    if stack.None? { return None; }
    var flags := Some(0);
    if HasPart(head.value, FLAGS) { flags := ReadByte(p); }
    if flags.None? { return None; }
    var house := None;
    if HasPart(head.value, HOUSE) {
      house := p.ReadU32();
      if house.None? { return None; }
    }
    var cell := head.value % CELLS;
    r := Some(SectorTile(cell % SECTOR_SIZE, cell / SECTOR_SIZE, stack.value.ground, stack.value.items, flags.value, house));
  }

  method ReadTiles(p: Payload, palette: seq<nat>, n: nat) returns (r: Option<seq<SectorTile>>)
    requires p.Valid()
    modifies p
    ensures p.Valid() && Took(TakeTiles(old(p.Rest()), palette, n), r, p.Rest())
  {
    hide TakeTile;
    var tiles: seq<SectorTile> := [];
    ghost var whole := TakeTiles(p.Rest(), palette, n);
    OntoNothing(whole);
    for k := 0 to n
      invariant p.Valid() && whole == Onto(tiles, TakeTiles(p.Rest(), palette, n - k))
    {
      var t := ReadTile(p, palette);
      if t.None? { return None; }
      OntoNext(tiles, t.value, TakeTiles(p.Rest(), palette, n - k - 1));
      tiles := tiles + [t.value];
    }
    assert tiles + [] == tiles;
    r := Some(tiles);
  }

  method DecodeSector(bytes: seq<Byte>) returns (sector: Option<Sector>)
    ensures sector == Decoded(bytes)
  {
    hide TakeU16, TakeByte, TakeIds, TakeTiles;
    if |bytes| < 4 || bytes[..4] != MAGIC { return None; }
    var p := new Payload(bytes[4..]);
    var sx := p.ReadU16();
    if sx.None? { return None; }
    var sy := p.ReadU16();
    if sy.None? { return None; }
    var z := ReadByte(p);
    if z.None? { return None; }
    var size := p.ReadU16();
    if size.None? { return None; }
    var palette := ReadIds(p, size.value);
    if palette.None? { return None; }
    var count := p.ReadU16();
    if count.None? { return None; }
    var tiles := ReadTiles(p, palette.value, count.value);
    if tiles.None? || !p.Done() { return None; }
    sector := Some(Sector(sx.value, sy.value, z.value, tiles.value));
  }

  // ---------------------------------------------------------------- sectors of the world

  /** The list has exactly the tiles of the cells, each where it belongs. */
  ghost predicate Lists(ts: seq<SectorTile>, cells: Cells) {
    && (forall t :: t in ts ==> Cell(t) in cells && cells[Cell(t)] == t)
    && forall c :: c in cells ==> cells[c] in ts && Cell(cells[c]) == c
  }

  /**
   * What the world builder spills for a sector and reads back later is the very same cells, in whatever order they
   * were listed.
   */
  lemma SpilledCellsComeBack(key: SectorKey, cells: Cells, ts: seq<SectorTile>)
    requires Lists(ts, cells) && (forall t :: t in ts ==> Snug(t)) && RefusalOf(ts) == None
    requires key.sx < 0x1_0000 && key.sy < 0x1_0000 && key.z < 256
    ensures var back := Decoded(Encoded(Sector(key.sx, key.sy, key.z, ts)));
      && back.Some? && SectorKey(back.value.z, back.value.sx, back.value.sy) == key
      && Strict(back.value.tiles) && Lists(back.value.tiles, cells)
  {
    hide *;
    var s := Sector(key.sx, key.sy, key.z, ts);
    RoundTrip(s);
    KeptIs(s);
    WritableIsStrict(ts);
    ArrangedLists(ts, cells);
    SnugTilesAreKept(ts);
  }

  lemma KeptIs(s: Sector)
    requires s.sx < 0x1_0000 && s.sy < 0x1_0000 && s.z < 256
    ensures Kept(s) == Sector(s.sx, s.sy, s.z, KeptTiles(Arranged(s.tiles)))
  {
    hide KeptTiles, Arranged;
  }

  lemma ArrangedLists(ts: seq<SectorTile>, cells: Cells)
    requires Lists(ts, cells)
    ensures Lists(Arranged(ts), cells)
  {
    ArrangedMembers(ts);
    hide Arranged, Cell;
  }

  lemma SnugTilesAreKept(ts: seq<SectorTile>)
    requires forall t :: t in ts ==> Snug(t)
    ensures KeptTiles(Arranged(ts)) == Arranged(ts)
  {
    ArrangedMembers(ts);
    KeptTilesSame(Arranged(ts));
    hide Arranged, Snug, KeptTiles;
    assert AllSnug(Arranged(ts));
  }

  /** Coordinates, ids, counts and houses as the map format writes them. */
  predicate InFormat(t: Otbm.Tile) {
    && t.x < 0x20_0000 && t.y < 0x20_0000 && t.z < 256
    && (t.ground.Some? ==> t.ground.value < 0x1_0000) && (t.houseId.Some? ==> t.houseId.value < 0x1_0000_0000)
    && forall i :: 0 <= i < |t.items| ==> t.items[i].id < 0x1_0000 && (t.items[i].count.Some? ==> t.items[i].count.value < 256)
  }

  ghost predicate WellKept(w: World) {
    forall k :: k in w ==>
      && k.sx < 0x1_0000 && k.sy < 0x1_0000 && k.z < 256
      && forall c :: c in w[k] ==> Snug(w[k][c]) && Cell(w[k][c]) == c
  }

  lemma InFormatIsSnug(t: Otbm.Tile)
    requires InFormat(t)
    ensures Snug(ToSectorTile(t)) && Cell(ToSectorTile(t)) == CellOf(t)
    ensures KeyOf(t).sx < 0x1_0000 && KeyOf(t).sy < 0x1_0000 && KeyOf(t).z < 256
  {
    var items := ToSectorTile(t).items;
    forall i | 0 <= i < |items| ensures SnugItem(items[i]) {}
  }

  lemma PutWellKept(w: World, t: Otbm.Tile)
    requires WellKept(w) && InFormat(t)
    ensures WellKept(Put(w, t))
  {
    InFormatIsSnug(t);
    hide Snug, Cell, InFormat, ToSectorTile, CellOf, KeyOf;
  }

  /** Every sector of a world read from the format can be written without loss. */
  lemma {:induction false} WorldIsWellKept(stream: seq<Otbm.Tile>)
    requires forall i :: 0 <= i < |stream| ==> InFormat(stream[i])
    ensures WellKept(LastWins(stream))
  {
    if stream != [] {
      var n := |stream| - 1;
      hide WellKept, InFormat, Put;
      WorldIsWellKept(stream[..n]);
      PutWellKept(LastWins(stream[..n]), stream[n]);
    }
  }

  /** A sector of the world, written and read, has the last record of each of its tiles. */
  lemma WorldSectorsComeBack(stream: seq<Otbm.Tile>, k: SectorKey, ts: seq<SectorTile>)
    requires forall i :: 0 <= i < |stream| ==> InFormat(stream[i])
    requires k in LastWins(stream) && Lists(ts, LastWins(stream)[k]) && RefusalOf(ts) == None
    ensures var back := Decoded(Encoded(Sector(k.sx, k.sy, k.z, ts)));
      back.Some? && SectorKey(back.value.z, back.value.sx, back.value.sy) == k && Lists(back.value.tiles, LastWins(stream)[k])
  {
    WorldIsWellKept(stream);
    hide Snug, Cell, RefusalOf, Encoded, Decoded, LastWins, InFormat;
    SpilledCellsComeBack(k, LastWins(stream)[k], ts);
  }
}
