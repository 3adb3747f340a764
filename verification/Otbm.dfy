/** The iterative OTBM tile reader: one pass over the bytes with an explicit stack, skipping pruned nodes whole. */
module Otbm {
  import opened Wrappers
  import opened Numbers
  import opened OtbmPayload

  const ROOT: Byte := 0x00
  const MAP_DATA: Byte := 0x02
  const TILE_AREA: Byte := 0x04
  const TILE: Byte := 0x05
  const ITEM: Byte := 0x06
  const HOUSE_TILE: Byte := 0x0e

  datatype Item = Item(
    id: nat, count: Option<nat>, teleportTo: Option<Position>, houseDoorId: Option<nat>,
    actionId: Option<nat>, uniqueId: Option<nat>, text: Option<seq<Byte>>)

  datatype Tile = Tile(
    x: nat, y: nat, z: nat, ground: Option<nat>, items: seq<Item>, flags: nat, houseId: Option<nat>)

  /** Both ends included. */
  datatype Span = Span(low: int, high: int)

  datatype Region = Region(x: Span, y: Span, z: Span)

  predicate Within(v: int, span: Span) { span.low <= v <= span.high }

  /** An open node: what it was, and the tile being assembled when it is one. */
  datatype Frame = Frame(kind: Byte, tile: Option<Tile>)

  datatype State = State(stack: seq<Frame>, base: Option<Position>, out: seq<Tile>)

  /** The tiles delivered before the reader stopped, and why it stopped if not at the end of the file. */
  datatype Outcome = Outcome(tiles: seq<Tile>, error: Option<Error>)

  function ItemFrom(id: nat, a: Attributes): Item {
    Item(id, a.count, a.teleportTo, a.houseDoorId, a.actionId, a.uniqueId, a.text)
  }

  // ---------------------------------------------------------------- what one opening mark does

  datatype Opening = Fail(error: Error) | Prune | Enter(state: State)

  predicate Touches(p: Position, region: Region) {
    && Within(p.z, region.z)
    && p.x <= region.x.high && p.x + 255 >= region.x.low
    && p.y <= region.y.high && p.y + 255 >= region.y.low
  }

  function OpenArea(payload: seq<Byte>, st: State, region: Region): Opening {
    match TakePosition(payload)
    case Short => Fail(Truncated)
    case Taken(p, _) =>
      if !Touches(p, region) then Prune
      else Enter(State(st.stack + [Frame(TILE_AREA, None)], Some(p), st.out))
  }

  function TileBody(kind: Byte, rest: seq<Byte>): Result<(Option<nat>, Attributes), Error> {
    if kind == HOUSE_TILE then
      match TakeU32(rest)
      case Short => Err(Truncated)
      case Taken(house, more) =>
        match ParseAttributes(more, NO_ATTRIBUTES)
        case Err(e) => Err(e)
        case Ok(a) => Ok((Some(house), a))
    else
      match ParseAttributes(rest, NO_ATTRIBUTES)
      case Err(e) => Err(e)
      case Ok(a) => Ok((None, a))
  }

  function OpenTile(kind: Byte, payload: seq<Byte>, base: Position, st: State, region: Region): Opening {
    if |payload| < 2 then Fail(Truncated)
    else
      var x, y := base.x + payload[0], base.y + payload[1];
      if !(Within(x, region.x) && Within(y, region.y)) then Prune
      else match TileBody(kind, payload[2..])
        case Err(e) => Fail(e)
        case Ok(body) =>
          var tile := Tile(x, y, base.z, body.1.ground, [], body.1.flags, body.0);
          Enter(st.(stack := st.stack + [Frame(kind, Some(tile))]))
  }

  /** The position of the first open frame that holds a tile; the stack's length when there is none. */
  function Owner(stack: seq<Frame>): (i: nat)
    ensures i <= |stack|
    ensures i < |stack| ==> stack[i].tile.Some?
    ensures forall j :: 0 <= j < i ==> stack[j].tile.None?
  {
    if stack == [] || stack[0].tile.Some? then 0 else 1 + Owner(stack[1..])
  }

  /** Only an item whose parent is a tile is kept, and it goes to the outermost open tile. */
  function Deposit(stack: seq<Frame>, item: Item): seq<Frame> {
    var i := Owner(stack);
    if i < |stack| && stack[|stack| - 1].tile.Some? then
      var tile := stack[i].tile.value;
      stack[i := stack[i].(tile := Some(tile.(items := tile.items + [item])))]
    else stack
  }

  function OpenItem(payload: seq<Byte>, st: State): Opening {
    match TakeU16(payload)
    case Short => Fail(Truncated)
    case Taken(id, rest) =>
      match ParseAttributes(rest, NO_ATTRIBUTES)
      case Err(e) => Fail(e)
      case Ok(a) => Enter(st.(stack := Deposit(st.stack, ItemFrom(id, a)) + [Frame(ITEM, None)]))
  }

  predicate IsTile(kind: Byte) { kind == TILE || kind == HOUSE_TILE }

  function Open(kind: Byte, payload: seq<Byte>, st: State, region: Region): (o: Opening)
    requires IsTile(kind) ==> st.base.Some?
    ensures o.Enter? ==> |o.state.stack| == |st.stack| + 1 && o.state.out == st.out
  {
    if kind == TILE_AREA then OpenArea(payload, st, region)
    else if IsTile(kind) then OpenTile(kind, payload, st.base.value, st, region)
    else if kind == ITEM then OpenItem(payload, st)
    else Enter(st.(stack := st.stack + [Frame(kind, None)]))
  }

  /** Closing the innermost node delivers its tile, if it is one. */
  function Close(st: State): State
    requires st.stack != []
  {
    var top := st.stack[|st.stack| - 1];
    State(st.stack[..|st.stack| - 1], st.base, if top.tile.Some? then st.out + [top.tile.value] else st.out)
  }

  // ---------------------------------------------------------------- the byte machine

  function Drop(s: seq<Byte>, n: nat): seq<Byte> { if n <= |s| then s[n..] else [] }

  /** The input after the end mark that closes the node we are in, `depth` nested nodes down. */
  function SkipNode(s: seq<Byte>, depth: nat): (r: Option<seq<Byte>>)
    ensures r.Some? ==> |r.value| < |s|
    decreases |s|
  {
    if s == [] then None
    else if s[0] == ESCAPE then SkipNode(Drop(s, 2), depth)
    else if s[0] == NODE_START then SkipNode(s[1..], depth + 1)
    else if s[0] == NODE_END then if depth == 0 then Some(s[1..]) else SkipNode(s[1..], depth - 1)
    else SkipNode(s[1..], depth)
  }

  /** What the reader does from state `st` with `s` still to read. */
  function Run(s: seq<Byte>, st: State, region: Region): Outcome
    decreases |s|
  {
    if s == [] then Outcome(st.out, if st.stack == [] then None else Some(OpenAtEnd))
    else if s[0] == ESCAPE then Run(Drop(s, 2), st, region)
    else if s[0] == NODE_END then
      if st.stack == [] then Outcome(st.out, Some(StrayEnd)) else Run(s[1..], Close(st), region)
    else if s[0] != NODE_START then Run(s[1..], st, region)
    else if |s| == 1 then Outcome(st.out, Some(StartAtEnd))
    else if IsTile(s[1]) && st.base.None? then Outcome(st.out, Some(TileOutsideArea))
    else match Unescape(s[2..])
      case BadEscape => Outcome(st.out, Some(EscapeAtEnd))
      case Unescaped(payload, rest) =>
        match Open(s[1], payload, st, region)
        case Fail(e) => Outcome(st.out, Some(e))
        case Enter(next) => Run(rest, next, region)
        case Prune =>
          match SkipNode(s[2..], 0)
          case None => Outcome(st.out, Some(UnclosedNode))
          case Some(after) => Run(after, st, region)
  }

  const START := State([], None, [])

  /** The header the reader insists on: four zero bytes, the root mark, and sixteen payload bytes. */
  function HeaderError(s: seq<Byte>): Option<Error> {
    if |s| < 6 || s[0] != 0 || s[1] != 0 || s[2] != 0 || s[3] != 0 || s[4] != NODE_START || s[5] != ROOT then Some(NotOtbm)
    else match Unescape(s[6..])
      case BadEscape => Some(EscapeAtEnd)
      case Unescaped(payload, _) => if |payload| < 16 then Some(Truncated) else None
  }

  function ReadTiles(s: seq<Byte>, region: Region): Outcome {
    var e := HeaderError(s);
    if e.Some? then Outcome([], e) else Run(s[4..], START, region)
  }

  // ---------------------------------------------------------------- the loops of the source

  function Suffix(s: seq<Byte>, i: nat): seq<Byte> { Drop(s, i) }

  datatype Header = Header(version: nat, width: nat, height: nat, itemsMajorVersion: nat, itemsMinorVersion: nat)

  /** Every field fits the width it is written in. */
  predicate ValidHeader(h: Header) {
    && h.version < 0x1_0000_0000 && h.width < 0x1_0000 && h.height < 0x1_0000
    && h.itemsMajorVersion < 0x1_0000_0000 && h.itemsMinorVersion < 0x1_0000_0000
  }

  function HeaderBytes(h: Header): seq<Byte> {
    U32(h.version) + (U16(h.width) + (U16(h.height) + (U32(h.itemsMajorVersion) + U32(h.itemsMinorVersion))))
  }

  function ParseHeader(s: seq<Byte>): Option<Header> {
    match TakeU32(s)
    case Short => None
    case Taken(version, s1) =>
      match TakeU16(s1)
      case Short => None
      case Taken(width, s2) =>
        match TakeU16(s2)
        case Short => None
        case Taken(height, s3) =>
          match TakeU32(s3)
          case Short => None
          case Taken(major, s4) =>
            match TakeU32(s4)
            case Short => None
            case Taken(minor, _) => Some(Header(version, width, height, major, minor))
  }

  method ReadHeaderFields(data: seq<Byte>) returns (header: Option<Header>)
    ensures header == ParseHeader(data)
  {
    hide TakeU16, TakeU32;
    var payload := new Payload(data);
    var version := payload.ReadU32();
    if version.None? { return None; }
    var width := payload.ReadU16();
    if width.None? { return None; }
    var height := payload.ReadU16();
    if height.None? { return None; }
    var major := payload.ReadU32();
    if major.None? { return None; }
    var minor := payload.ReadU32();
    if minor.None? { return None; }
    header := Some(Header(version.value, width.value, height.value, major.value, minor.value));
  }

  lemma FiveParts(a: seq<Byte>, b: seq<Byte>, c: seq<Byte>, d: seq<Byte>, e: seq<Byte>, rest: seq<Byte>)
    ensures (a + (b + (c + (d + e)))) + rest == a + (b + (c + (d + (e + rest))))
  {}

  /** The fields are those whose print begins the payload, and there are none exactly when it is shorter than a header. */
  lemma HeaderParsed(s: seq<Byte>)
    ensures ParseHeader(s).None? <==> |s| < 16
    ensures ParseHeader(s).Some? ==> ValidHeader(ParseHeader(s).value) && HeaderBytes(ParseHeader(s).value) <= s
  {
    hide U16, U32;
    TakenU32(s);
    if |s| >= 4 {
      var s1 := s[4..];
      TakenU16(s1);
      if |s1| >= 2 {
        var s2 := s1[2..];
        TakenU16(s2);
        if |s2| >= 2 {
          var s3 := s2[2..];
          TakenU32(s3);
          if |s3| >= 4 {
            TakenU32(s3[4..]);
            hide TakeU16;
            if ParseHeader(s).Some? {
              var h := ParseHeader(s).value;
              FiveParts(U32(h.version), U16(h.width), U16(h.height), U32(h.itemsMajorVersion),
                        U32(h.itemsMinorVersion), s3[4..][4..]);
            }
          }
        }
      }
    }
  }

  /** Every header in range comes back from its print, whatever follows. */
  lemma HeaderRoundTrip(h: Header, rest: seq<Byte>)
    requires ValidHeader(h)
    ensures ParseHeader(HeaderBytes(h) + rest) == Some(h)
  {
    hide U16, U32, TakeU16, TakeU32;
    FiveParts(U32(h.version), U16(h.width), U16(h.height), U32(h.itemsMajorVersion), U32(h.itemsMinorVersion), rest);
    var s4 := U32(h.itemsMinorVersion) + rest;
    var s3 := U32(h.itemsMajorVersion) + s4;
    var s2 := U16(h.height) + s3;
    var s1 := U16(h.width) + s2;
    TakeU32Inverts(h.version, s1);
    TakeU16Inverts(h.width, s2);
    TakeU16Inverts(h.height, s3);
    TakeU32Inverts(h.itemsMajorVersion, s4);
    TakeU32Inverts(h.itemsMinorVersion, rest);
  }

  /** The header read is the one whose print begins the root's payload. */
  method ReadHeader(bytes: seq<Byte>) returns (r: Result<Header, Error>)
    ensures HeaderError(bytes) == if r.Err? then Some(r.error) else None
    ensures r.Ok? ==> |bytes| >= 6 && Unescape(bytes[6..]).Unescaped?
    ensures r.Ok? ==> ValidHeader(r.value) && HeaderBytes(r.value) <= Unescape(bytes[6..]).payload
  {
    if |bytes| < 6 || bytes[0] != 0 || bytes[1] != 0 || bytes[2] != 0 || bytes[3] != 0
      || bytes[4] != NODE_START || bytes[5] != ROOT
    {
      return Err(NotOtbm);
    }
    var data, _, bad := ReadPayload(bytes, 6);
    if bad.Some? { return Err(bad.value); }
    var header := ReadHeaderFields(data);
    HeaderParsed(data);
    r := if header.None? then Err(Truncated) else Ok(header.value);
  }

  method SkipFrom(bytes: seq<Byte>, at: nat) returns (after: Option<nat>)
    requires at <= |bytes|
    ensures after.None? <==> SkipNode(bytes[at..], 0).None?
    ensures after.Some? ==> at < after.value <= |bytes| && SkipNode(bytes[at..], 0) == Some(bytes[after.value..])
  {
    var depth: nat, i := 0, at;
    while i < |bytes|
      invariant at <= i
      invariant SkipNode(bytes[at..], 0) == SkipNode(Suffix(bytes, i), depth)
    {
      var b := bytes[i];
      assert i + 1 <= |bytes| && bytes[i..][1..] == bytes[i + 1..];
      assert i + 2 <= |bytes| ==> bytes[i..][2..] == bytes[i + 2..];
      if b == ESCAPE { i := i + 2; continue; }
      if b == NODE_START { depth := depth + 1; i := i + 1; continue; }
      if b == NODE_END {
        if depth == 0 { return Some(i + 1); }
        depth := depth - 1;
      }
      i := i + 1;
    }
    after := None;
  }

  method OpenNode(kind: Byte, data: seq<Byte>, st: State, region: Region) returns (o: Opening)
    requires IsTile(kind) ==> st.base.Some?
    ensures o == Open(kind, data, st, region)
  {
    hide ParseAttributes;
    var payload := new Payload(data);
    if kind == TILE_AREA {
      var p := payload.ReadPosition();
      if p.None? { return Fail(Truncated); }
      if !Touches(p.value, region) { return Prune; }
      return Enter(State(st.stack + [Frame(kind, None)], p, st.out));
    }
    if IsTile(kind) {
      var dx := payload.ReadU8();
      if dx.None? { return Fail(Truncated); }
      var dy := payload.ReadU8();
      if dy.None? { return Fail(Truncated); }
      var x, y := st.base.value.x + dx.value, st.base.value.y + dy.value;
      if !(Within(x, region.x) && Within(y, region.y)) { return Prune; }
      var house: Option<nat> := None;
      assert payload.Rest() == data[2..];
      if kind == HOUSE_TILE {
        house := payload.ReadU32();
        if house.None? { return Fail(Truncated); }
      }
      var attributes := ReadAttributes(payload);
      if attributes.Err? { return Fail(attributes.error); }
      var tile := Tile(x, y, st.base.value.z, attributes.value.ground, [], attributes.value.flags, house);
      return Enter(st.(stack := st.stack + [Frame(kind, Some(tile))]));
    }
    if kind == ITEM {
      var id := payload.ReadU16();
      if id.None? { return Fail(Truncated); }
      var attributes := ReadAttributes(payload);
      if attributes.Err? { return Fail(attributes.error); }
      return Enter(st.(stack := Deposit(st.stack, ItemFrom(id.value, attributes.value)) + [Frame(kind, None)]));
    }
    o := Enter(st.(stack := st.stack + [Frame(kind, None)]));
  }

  method ReadOtbmTiles(bytes: seq<Byte>, region: Region) returns (outcome: Outcome)
    ensures outcome == ReadTiles(bytes, region)
  {
    var header := ReadHeader(bytes);
    if header.Err? { return Outcome([], Some(header.error)); }
    var stack: seq<Frame>, base: Option<Position>, out: seq<Tile> := [], None, [];
    var i := 4;
    while i < |bytes|
      invariant 4 <= i
      invariant Run(bytes[4..], START, region) == Run(Suffix(bytes, i), State(stack, base, out), region)
    {
      var b := bytes[i];
      assert bytes[i..][1..] == bytes[i + 1..];
      assert i + 2 <= |bytes| ==> bytes[i..][2..] == bytes[i + 2..];
      if b == ESCAPE { i := i + 2; continue; }
      if b == NODE_END {
        if stack == [] { return Outcome(out, Some(StrayEnd)); }
        var closed := stack[|stack| - 1];
        stack := stack[..|stack| - 1];
        if closed.tile.Some? { out := out + [closed.tile.value]; }
        i := i + 1;
        continue;
      }
      if b != NODE_START { i := i + 1; continue; }
      if i + 1 == |bytes| { return Outcome(out, Some(StartAtEnd)); }
      var kind := bytes[i + 1];
      if IsTile(kind) && base.None? { return Outcome(out, Some(TileOutsideArea)); }
      var payload, end, broken := ReadPayload(bytes, i + 2);
      if broken.Some? { return Outcome(out, broken); }
      var opening := OpenNode(kind, payload, State(stack, base, out), region);
      match opening {
        case Fail(e) => return Outcome(out, Some(e));
        case Prune =>
          var after := SkipFrom(bytes, i + 2);
          if after.None? { return Outcome(out, Some(UnclosedNode)); }
          i := after.value;
        case Enter(next) =>
          stack, base := next.stack, next.base;
          i := end;
      }
    }
    outcome := Outcome(out, if stack == [] then None else Some(OpenAtEnd));
  }
}
