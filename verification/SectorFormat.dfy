/** The sector format as a layout: the byte strings the sector reader accepts are exactly those laid out like this. */
module SectorFormat {
  import opened Wrappers
  import opened Numbers
  import opened OtbmPayload
  import opened WorldMap
  import opened Sectors

  /** A tile as it stands in the bytes: ids are places in the palette, and the head says which parts are there. */
  datatype RawTile = RawTile(head: nat, ground: nat, refs: seq<nat>, counts: seq<nat>, flags: nat, house: nat)

  datatype RawSector = RawSector(sx: nat, sy: nat, z: nat, palette: seq<nat>, tiles: seq<RawTile>)

  // ---------------------------------------------------------------- the layout, each part followed by `rest`

  function RefThen(size: nat, i: nat, rest: seq<Byte>): seq<Byte> {
    (if size > 256 then U16(i) else U8(i)) + rest
  }

  function RefsThen(size: nat, refs: seq<nat>, rest: seq<Byte>): seq<Byte> {
    if refs == [] then rest else RefThen(size, refs[0], RefsThen(size, refs[1..], rest))
  }

  function BytesThen(values: seq<nat>, rest: seq<Byte>): seq<Byte> {
    if values == [] then rest else U8(values[0]) + BytesThen(values[1..], rest)
  }

  function StackThen(size: nat, t: RawTile, rest: seq<Byte>): seq<Byte> {
    var counts := if HasPart(t.head, COUNTS) then BytesThen(t.counts, rest) else rest;
    var stack := U8(|t.refs|) + RefsThen(size, t.refs, counts);
    if HasPart(t.head, GROUND) then RefThen(size, t.ground, stack) else stack
  }

  function TileThen(size: nat, t: RawTile, rest: seq<Byte>): seq<Byte> {
    var house := if HasPart(t.head, HOUSE) then U32(t.house) + rest else rest;
    var flags := if HasPart(t.head, FLAGS) then U8(t.flags) + house else house;
    U16(t.head) + StackThen(size, t, flags)
  }

  function TilesThen(size: nat, ts: seq<RawTile>, rest: seq<Byte>): seq<Byte> {
    if ts == [] then rest else TileThen(size, ts[0], TilesThen(size, ts[1..], rest))
  }

  function LaidOut(r: RawSector): seq<Byte> {
    MAGIC + (U16(r.sx) + (U16(r.sy) + (U8(r.z) +
      (U16(|r.palette|) + IdsThen(r.palette, U16(|r.tiles|) + TilesThen(|r.palette|, r.tiles, []))))))
  }

  predicate AllUnder(values: seq<nat>, limit: nat) { forall i :: 0 <= i < |values| ==> values[i] < limit }

  /** Every number fits its place, and every reference is to an id of the palette. */
  predicate ValidTile(size: nat, t: RawTile) {
    && t.head < 0x1_0000 && |t.refs| < 0x100 && AllUnder(t.refs, size)
    && (HasPart(t.head, GROUND) ==> t.ground < size)
    && (HasPart(t.head, COUNTS) ==> |t.counts| == |t.refs| && AllUnder(t.counts, 0x100))
    && (HasPart(t.head, FLAGS) ==> t.flags < 0x100)
    && (HasPart(t.head, HOUSE) ==> t.house < 0x1_0000_0000)
  }

  predicate AllValid(size: nat, ts: seq<RawTile>) { forall i :: 0 <= i < |ts| ==> ValidTile(size, ts[i]) }

  predicate Valid(r: RawSector) {
    && r.sx < 0x1_0000 && r.sy < 0x1_0000 && r.z < 0x100
    && |r.palette| < 0x1_0000 && AllUnder(r.palette, 0x1_0000)
    && |r.tiles| < 0x1_0000 && AllValid(|r.palette|, r.tiles)
  }

  // ---------------------------------------------------------------- what it says

  function Named(palette: seq<nat>, refs: seq<nat>): seq<nat>
    requires AllUnder(refs, |palette|)
  {
    if refs == [] then [] else [palette[refs[0]]] + Named(palette, refs[1..])
  }

  function StackMeaning(palette: seq<nat>, t: RawTile): Stack
    requires ValidTile(|palette|, t)
  {
    Stack(if HasPart(t.head, GROUND) then palette[t.ground] else 0,
          Stacked(Named(palette, t.refs), if HasPart(t.head, COUNTS) then t.counts else []))
  }

  function TileMeaning(palette: seq<nat>, t: RawTile): SectorTile
    requires ValidTile(|palette|, t)
  {
    var cell := t.head % CELLS;
    var stack := StackMeaning(palette, t);
    SectorTile(cell % SECTOR_SIZE, cell / SECTOR_SIZE, stack.ground, stack.items,
               if HasPart(t.head, FLAGS) then t.flags else 0, if HasPart(t.head, HOUSE) then Some(t.house) else None)
  }

  function TilesMeaning(palette: seq<nat>, ts: seq<RawTile>): seq<SectorTile>
    requires AllValid(|palette|, ts)
  {
    if ts == [] then [] else [TileMeaning(palette, ts[0])] + TilesMeaning(palette, ts[1..])
  }

  function Meaning(r: RawSector): Sector
    requires Valid(r)
  {
    Sector(r.sx, r.sy, r.z, TilesMeaning(r.palette, r.tiles))
  }

  // ---------------------------------------------------------------- laid out, hence read

  lemma ByteReads(v: nat, rest: seq<Byte>)
    requires v < 0x100
    ensures TakeByte(U8(v) + rest) == Taken(v, rest)
  {
    TakeU8Inverts(v, rest);
  }

  lemma RefReads(palette: seq<nat>, i: nat, rest: seq<Byte>)
    requires i < |palette| < 0x1_0000
    ensures TakeRef(RefThen(|palette|, i, rest), palette) == Taken(palette[i], rest)
  {
    if |palette| > 256 { TakeU16Inverts(i, rest); } else { ByteReads(i, rest); }
  }

  lemma {:induction false} RefsRead(palette: seq<nat>, refs: seq<nat>, rest: seq<Byte>)
    requires |palette| < 0x1_0000 && AllUnder(refs, |palette|)
    ensures TakeRefs(RefsThen(|palette|, refs, rest), palette, |refs|) == Taken(Named(palette, refs), rest)
  {
    hide TakeRef, RefThen;
    if refs != [] {
      RefReads(palette, refs[0], RefsThen(|palette|, refs[1..], rest));
      RefsRead(palette, refs[1..], rest);
    }
  }

  lemma {:induction false} CountsRead(values: seq<nat>, rest: seq<Byte>)
    requires AllUnder(values, 0x100)
    ensures TakeCounts(BytesThen(values, rest), |values|) == Taken(values, rest)
  {
    hide TakeByte, U8;
    if values != [] {
      ByteReads(values[0], BytesThen(values[1..], rest));
      CountsRead(values[1..], rest);
      assert [values[0]] + values[1..] == values;
    }
  }

  lemma StackReads(palette: seq<nat>, t: RawTile, rest: seq<Byte>)
    requires |palette| < 0x1_0000 && ValidTile(|palette|, t)
    ensures TakeStack(t.head, StackThen(|palette|, t, rest), palette) == Taken(StackMeaning(palette, t), rest)
  {
    hide HasPart, TakeByte, TakeRef, TakeRefs, TakeCounts, RefThen, RefsThen, BytesThen, U8, Named, Stacked;
    var counts := if HasPart(t.head, COUNTS) then BytesThen(t.counts, rest) else rest;
    var stack := U8(|t.refs|) + RefsThen(|palette|, t.refs, counts);
    if HasPart(t.head, COUNTS) { CountsRead(t.counts, rest); }
    RefsRead(palette, t.refs, counts);
    ByteReads(|t.refs|, RefsThen(|palette|, t.refs, counts));
    if HasPart(t.head, GROUND) { RefReads(palette, t.ground, stack); }
  }

  lemma TileReads(palette: seq<nat>, t: RawTile, rest: seq<Byte>)
    requires |palette| < 0x1_0000 && ValidTile(|palette|, t)
    ensures TakeTile(TileThen(|palette|, t, rest), palette) == Taken(TileMeaning(palette, t), rest)
  {
    hide HasPart, TakeU16, TakeU32, TakeByte, TakeStack, StackThen, StackMeaning, U8, U16, U32;
    var house := if HasPart(t.head, HOUSE) then U32(t.house) + rest else rest;
    var flags := if HasPart(t.head, FLAGS) then U8(t.flags) + house else house;
    if HasPart(t.head, HOUSE) { TakeU32Inverts(t.house, rest); }
    if HasPart(t.head, FLAGS) { ByteReads(t.flags, house); }
    StackReads(palette, t, flags);
    TakeU16Inverts(t.head, StackThen(|palette|, t, flags));
  }

  lemma {:induction false} TilesRead(palette: seq<nat>, ts: seq<RawTile>, rest: seq<Byte>)
    requires |palette| < 0x1_0000 && AllValid(|palette|, ts)
    ensures TakeTiles(TilesThen(|palette|, ts, rest), palette, |ts|) == Taken(TilesMeaning(palette, ts), rest)
  {
    hide TakeTile, TileThen, TileMeaning, ValidTile;
    if ts != [] {
      TileReads(palette, ts[0], TilesThen(|palette|, ts[1..], rest));
      TilesRead(palette, ts[1..], rest);
    }
  }

  lemma {:induction false} IdsRead(ids: seq<nat>, rest: seq<Byte>)
    requires AllUnder(ids, 0x1_0000)
    ensures TakeIds(IdsThen(ids, rest), |ids|) == Taken(ids, rest)
  {
    hide TakeU16, U16;
    if ids != [] {
      TakeU16Inverts(ids[0], IdsThen(ids[1..], rest));
      IdsRead(ids[1..], rest);
      assert [ids[0]] + ids[1..] == ids;
    }
  }

  lemma LaidOutIsRead(r: RawSector)
    requires Valid(r)
    ensures Decoded(LaidOut(r)) == Some(Meaning(r))
  {
    hide TakeU16, TakeByte, TakeIds, TakeTiles, IdsThen, TilesThen, TilesMeaning, U8, U16, AllUnder, AllValid;
    var s4 := TilesThen(|r.palette|, r.tiles, []);
    var s3 := IdsThen(r.palette, U16(|r.tiles|) + s4);
    var s2 := U8(r.z) + (U16(|r.palette|) + s3);
    TilesRead(r.palette, r.tiles, []);
    TakeU16Inverts(|r.tiles|, s4);
    IdsRead(r.palette, U16(|r.tiles|) + s4);
    TakeU16Inverts(|r.palette|, s3);
    ByteReads(r.z, U16(|r.palette|) + s3);
    TakeU16Inverts(r.sy, s2);
    TakeU16Inverts(r.sx, U16(r.sy) + s2);
    var body := U16(r.sx) + (U16(r.sy) + s2);
    assert (MAGIC + body)[..4] == MAGIC && (MAGIC + body)[4..] == body;
  }

  // ---------------------------------------------------------------- read, hence laid out

  lemma ByteTaken(s: seq<Byte>)
    ensures match TakeByte(s) { case Short => true case Taken(v, rest) => v < 0x100 && s == U8(v) + rest }
  {
    if s != [] { assert s == [s[0]] + s[1..]; }
  }

  lemma RefTaken(s: seq<Byte>, palette: seq<nat>) returns (i: nat)
    requires TakeRef(s, palette).Taken?
    ensures i < |palette| && TakeRef(s, palette).value == palette[i] && s == RefThen(|palette|, i, TakeRef(s, palette).rest)
  {
    TakenU16(s);
    ByteTaken(s);
    hide U16, U8;
    i := if |palette| > 256 then TakeU16(s).value else TakeByte(s).value;
  }

  lemma {:induction false} RefsTaken(s: seq<Byte>, palette: seq<nat>, n: nat) returns (refs: seq<nat>)
    requires TakeRefs(s, palette, n).Taken?
    ensures |refs| == n && AllUnder(refs, |palette|) && TakeRefs(s, palette, n).value == Named(palette, refs)
    ensures s == RefsThen(|palette|, refs, TakeRefs(s, palette, n).rest)
    decreases n
  {
    hide TakeRef, RefThen;
    if n == 0 {
      refs := [];
    } else {
      var i := RefTaken(s, palette);
      var others := RefsTaken(TakeRef(s, palette).rest, palette, n - 1);
      refs := [i] + others;
      assert refs[1..] == others;
    }
  }

  lemma {:induction false} CountsTaken(s: seq<Byte>, n: nat)
    requires TakeCounts(s, n).Taken?
    ensures var t := TakeCounts(s, n); |t.value| == n && AllUnder(t.value, 0x100) && s == BytesThen(t.value, t.rest)
    decreases n
  {
    hide TakeByte, U8;
    if n > 0 {
      ByteTaken(s);
      var c, more := TakeByte(s).value, TakeByte(s).rest;
      CountsTaken(more, n - 1);
      assert ([c] + TakeCounts(more, n - 1).value)[1..] == TakeCounts(more, n - 1).value;
    }
  }

  lemma StackTaken(head: nat, s: seq<Byte>, palette: seq<nat>) returns (ground: nat, refs: seq<nat>, counts: seq<nat>)
    requires TakeStack(head, s, palette).Taken? && head < 0x1_0000
    ensures forall flags, house ::
      (HasPart(head, FLAGS) ==> flags < 0x100) && (HasPart(head, HOUSE) ==> house < 0x1_0000_0000) ==>
      var t := RawTile(head, ground, refs, counts, flags, house);
      && ValidTile(|palette|, t) && TakeStack(head, s, palette).value == StackMeaning(palette, t)
      && s == StackThen(|palette|, t, TakeStack(head, s, palette).rest)
  {
    hide HasPart, TakeByte, TakeRef, TakeRefs, TakeCounts, RefThen, RefsThen, BytesThen, U8, Named, Stacked;
    ground, counts := 0, [];
    if HasPart(head, GROUND) { ground := RefTaken(s, palette); }
    var s1 := TakeGround(head, s, palette).rest;
    ByteTaken(s1);
    var n, s2 := TakeByte(s1).value, TakeByte(s1).rest;
    refs := RefsTaken(s2, palette, n);
    var s3 := TakeRefs(s2, palette, n).rest;
    if HasPart(head, COUNTS) {
      CountsTaken(s3, n);
      counts := TakeCounts(s3, n).value;
    }
  }

  lemma TileTaken(s: seq<Byte>, palette: seq<nat>) returns (t: RawTile)
    requires TakeTile(s, palette).Taken?
    ensures ValidTile(|palette|, t) && TakeTile(s, palette).value == TileMeaning(palette, t)
    ensures s == TileThen(|palette|, t, TakeTile(s, palette).rest)
  {
    hide HasPart, TakeU16, TakeU32, TakeByte, TakeStack, StackThen, StackMeaning, ValidTile, U8, U16, U32;
    TakenU16(s);
    var head, s1 := TakeU16(s).value, TakeU16(s).rest;
    var ground, refs, counts := StackTaken(head, s1, palette);
    var s2 := TakeStack(head, s1, palette).rest;
    ByteTaken(s2);
    var flags := TakeFlags(head, s2).value;
    var s3 := TakeFlags(head, s2).rest;
    TakenU32(s3);
    var house := if HasPart(head, HOUSE) then TakeU32(s3).value else 0;
    t := RawTile(head, ground, refs, counts, flags, house);
  }

  lemma {:induction false} TilesTaken(s: seq<Byte>, palette: seq<nat>, n: nat) returns (ts: seq<RawTile>)
    requires TakeTiles(s, palette, n).Taken?
    ensures |ts| == n && AllValid(|palette|, ts) && TakeTiles(s, palette, n).value == TilesMeaning(palette, ts)
    ensures s == TilesThen(|palette|, ts, TakeTiles(s, palette, n).rest)
    decreases n
  {
    hide TakeTile, TileThen, TileMeaning, ValidTile;
    if n == 0 {
      ts := [];
    } else {
      var t := TileTaken(s, palette);
      var others := TilesTaken(TakeTile(s, palette).rest, palette, n - 1);
      ts := [t] + others;
      assert ts[1..] == others;
    }
  }

  lemma {:induction false} IdsTaken(s: seq<Byte>, n: nat)
    requires TakeIds(s, n).Taken?
    ensures var t := TakeIds(s, n); |t.value| == n && AllUnder(t.value, 0x1_0000) && s == IdsThen(t.value, t.rest)
    decreases n
  {
    hide TakeU16, U16;
    if n > 0 {
      TakenU16(s);
      var id, more := TakeU16(s).value, TakeU16(s).rest;
      IdsTaken(more, n - 1);
      assert ([id] + TakeIds(more, n - 1).value)[1..] == TakeIds(more, n - 1).value;
    }
  }

  lemma ReadIsLaidOut(bytes: seq<Byte>) returns (r: RawSector)
    requires Decoded(bytes).Some?
    ensures Valid(r) && bytes == LaidOut(r) && Decoded(bytes) == Some(Meaning(r))
  {
    hide TakeU16, TakeByte, TakeIds, TakeTiles, IdsThen, TilesThen, TilesMeaning, U8, U16, AllUnder, AllValid;
    var s0 := bytes[4..];
    assert bytes == MAGIC + s0;
    TakenU16(s0);
    var s1 := TakeU16(s0).rest;
    TakenU16(s1);
    var s2 := TakeU16(s1).rest;
    ByteTaken(s2);
    var s3 := TakeByte(s2).rest;
    TakenU16(s3);
    var size, s4 := TakeU16(s3).value, TakeU16(s3).rest;
    IdsTaken(s4, size);
    var palette, s5 := TakeIds(s4, size).value, TakeIds(s4, size).rest;
    TakenU16(s5);
    var ts := TilesTaken(TakeU16(s5).rest, palette, TakeU16(s5).value);
    r := RawSector(TakeU16(s0).value, TakeU16(s1).value, TakeByte(s2).value, palette, ts);
  }

  /** The reader accepts exactly the byte strings of the layout, with what they say; every other one it refuses. */
  lemma DecodedIffLaidOut(bytes: seq<Byte>, s: Sector)
    ensures Decoded(bytes) == Some(s) <==> exists r :: Valid(r) && bytes == LaidOut(r) && s == Meaning(r)
  {
    hide Valid, LaidOut, Meaning, Decoded;
    if Decoded(bytes) == Some(s) { var r := ReadIsLaidOut(bytes); }
    forall r | Valid(r) && bytes == LaidOut(r) && s == Meaning(r) ensures Decoded(bytes) == Some(s) { LaidOutIsRead(r); }
  }
}
