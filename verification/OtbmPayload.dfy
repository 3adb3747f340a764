/** Bytes of one OTBM node: escaping, the payload cursor and the attributes of tiles and items. */
module OtbmPayload {
  import opened Wrappers
  import opened Numbers

  const NODE_START: Byte := 0xfe
  const NODE_END: Byte := 0xff
  const ESCAPE: Byte := 0xfd

  datatype Error =
    | NotOtbm | Truncated | EscapeAtEnd | UnknownAttribute(kind: Byte)
    | UnclosedNode | StrayEnd | StartAtEnd | TileOutsideArea | OpenAtEnd

  datatype Position = Position(x: nat, y: nat, z: nat)

  // ---------------------------------------------------------------- escaping

  predicate Special(b: Byte) {
    b == ESCAPE || b == NODE_START || b == NODE_END
  }

  function EscapedByte(b: Byte): seq<Byte> {
    if Special(b) then [ESCAPE, b] else [b]
  }

  function Escaped(s: seq<Byte>): seq<Byte> {
    if s == [] then [] else EscapedByte(s[0]) + Escaped(s[1..])
  }

  lemma {:induction false} EscapedSnoc(s: seq<Byte>, b: Byte)
    ensures Escaped(s + [b]) == Escaped(s) + EscapedByte(b)
  {
    if s == [] {
      assert s + [b] == [b] && [b][1..] == [];
    } else {
      assert (s + [b])[1..] == s[1..] + [b];
      EscapedSnoc(s[1..], b);
    }
  }

  method EscapeOtbm(bytes: seq<Byte>) returns (out: seq<Byte>)
    ensures out == Escaped(bytes)
  {
    out := [];
    for i := 0 to |bytes|
      invariant out == Escaped(bytes[..i])
    {
      EscapedSnoc(bytes[..i], bytes[i]);
      assert bytes[..i + 1] == bytes[..i] + [bytes[i]];
      if Special(bytes[i]) { out := out + [ESCAPE]; }
      out := out + [bytes[i]];
    }
    assert bytes[..|bytes|] == bytes;
  }

  /** What reading a payload leaves: the unescaped bytes and the input from the closing mark on. */
  datatype Unescaped = BadEscape | Unescaped(payload: seq<Byte>, rest: seq<Byte>)

  function Prepend(head: seq<Byte>, u: Unescaped): Unescaped {
    match u
    case BadEscape => BadEscape
    case Unescaped(payload, rest) => Unescaped(head + payload, rest)
  }

  function Unescape(s: seq<Byte>): (u: Unescaped)
    ensures u.Unescaped? ==> |u.rest| <= |s|
    ensures u.Unescaped? && u.rest != [] ==> u.rest[0] == NODE_START || u.rest[0] == NODE_END
  {
    if s == [] then Unescaped([], [])
    else if s[0] == ESCAPE then
      if |s| == 1 then BadEscape else Prepend([s[1]], Unescape(s[2..]))
    else if s[0] == NODE_START || s[0] == NODE_END then Unescaped([], s)
    else Prepend([s[0]], Unescape(s[1..]))
  }

  predicate AtMark(s: seq<Byte>) {
    s != [] && (s[0] == NODE_START || s[0] == NODE_END)
  }

  /** The escaped form of one byte reads back as that byte. */
  lemma UnescapeOne(b: Byte, tail: seq<Byte>)
    ensures Unescape(EscapedByte(b) + tail) == Prepend([b], Unescape(tail))
  {
    var s := EscapedByte(b) + tail;
    if Special(b) {
      assert s == [ESCAPE, b] + tail;
      assert s[2..] == tail;
    } else {
      assert s == [b] + tail;
      assert s[1..] == tail;
    }
  }

  /** Whatever bytes a payload holds, reading back its escaped form returns exactly those bytes. */
  lemma {:induction false} UnescapeInvertsEscape(payload: seq<Byte>, rest: seq<Byte>)
    requires AtMark(rest)
    ensures Unescape(Escaped(payload) + rest) == Unescaped(payload, rest)
  {
    if payload == [] {
      assert Escaped(payload) + rest == rest;
    } else {
      var head, tail := EscapedByte(payload[0]), Escaped(payload[1..]) + rest;
      assert Escaped(payload) + rest == head + tail;
      UnescapeOne(payload[0], tail);
      UnescapeInvertsEscape(payload[1..], rest);
      assert [payload[0]] + payload[1..] == payload;
    }
  }

  method ReadPayload(bytes: seq<Byte>, at: nat) returns (payload: seq<Byte>, end: nat, error: Option<Error>)
    requires at <= |bytes|
    ensures error.Some? <==> Unescape(bytes[at..]).BadEscape?
    ensures error.Some? ==> error.value == EscapeAtEnd
    ensures error.None? ==> at <= end <= |bytes| && Unescape(bytes[at..]) == Unescaped(payload, bytes[end..])
  {
    payload, end, error := [], at, None;
    ghost var whole := Unescape(bytes[at..]);
    while end < |bytes|
      invariant at <= end <= |bytes|
      invariant whole == Prepend(payload, Unescape(bytes[end..]))
    {
      var b := bytes[end];
      if b == ESCAPE {
        if end + 1 == |bytes| { return payload, end, Some(EscapeAtEnd); }
        assert bytes[end..][2..] == bytes[end + 2..];
        PrependAssoc(payload, [bytes[end + 1]], Unescape(bytes[end + 2..]));
        payload := payload + [bytes[end + 1]];
        end := end + 2;
        continue;
      }
      if b == NODE_START || b == NODE_END { break; }
      assert bytes[end..][1..] == bytes[end + 1..];
      PrependAssoc(payload, [b], Unescape(bytes[end + 1..]));
      payload := payload + [b];
      end := end + 1;
    }
    assert payload + [] == payload;
  }

  lemma PrependAssoc(a: seq<Byte>, b: seq<Byte>, u: Unescaped)
    ensures Prepend(a, Prepend(b, u)) == Prepend(a + b, u)
  {
    if u.Unescaped? { assert a + (b + u.payload) == (a + b) + u.payload; }
  }

  // ---------------------------------------------------------------- little-endian numbers

  function U8(value: nat): seq<Byte> { [value % 256] }

  function U16(value: nat): seq<Byte> { [value % 256, value / 256 % 256] }

  function U32(value: nat): seq<Byte> { U16(value % 65536) + U16(value / 65536) }

  /** Reading a prefix of a payload: too short, or the value and what is left. */
  datatype Taken<+T> = Short | Taken(value: T, rest: seq<Byte>)

  function Word(low: nat, high: nat): nat { low + 256 * high }

  function TakeU8(s: seq<Byte>): Taken<Byte> {
    if |s| < 1 then Short else Taken(s[0], s[1..])
  }

  function TakeU16(s: seq<Byte>): Taken<nat> {
    if |s| < 2 then Short else Taken(Word(s[0], s[1]), s[2..])
  }

  function TakeU32(s: seq<Byte>): Taken<nat> {
    if |s| < 4 then Short else Taken(Word(s[0], s[1]) + 65536 * Word(s[2], s[3]), s[4..])
  }

  function TakeBytes(s: seq<Byte>, count: nat): Taken<seq<Byte>> {
    if |s| < count then Short else Taken(s[..count], s[count..])
  }

  function TakeString(s: seq<Byte>): Taken<seq<Byte>> {
    match TakeU16(s)
    case Short => Short
    case Taken(length, rest) => TakeBytes(rest, length)
  }

  function TakePosition(s: seq<Byte>): Taken<Position> {
    if |s| < 5 then Short
    else Taken(Position(Word(s[0], s[1]), Word(s[2], s[3]), s[4]), s[5..])
  }

  lemma WordInverts(value: nat)
    requires value < 0x1_0000
    ensures Word(U16(value)[0], U16(value)[1]) == value
  {
    assert value / 256 < 256;
  }

  /** A number read is the one whose print begins the payload. */
  lemma TakenU16(s: seq<Byte>)
    ensures match TakeU16(s) { case Short => |s| < 2 case Taken(v, rest) => v < 0x1_0000 && s == U16(v) + rest }
  {
    if |s| >= 2 { assert s == [s[0], s[1]] + s[2..]; }
  }

  lemma TakenU32(s: seq<Byte>)
    ensures match TakeU32(s) { case Short => |s| < 4 case Taken(v, rest) => v < 0x1_0000_0000 && s == U32(v) + rest }
  {
    if |s| >= 4 {
      var low, high := Word(s[0], s[1]), Word(s[2], s[3]);
      TakenU16(s);
      TakenU16(s[2..]);
      assert (low + 65536 * high) % 65536 == low && (low + 65536 * high) / 65536 == high;
      assert s == U16(low) + (U16(high) + s[4..]);
    }
  }

  lemma TakeU8Inverts(value: nat, rest: seq<Byte>)
    requires value < 0x100
    ensures TakeU8(U8(value) + rest) == Taken(value, rest)
  {}

  lemma TakeU16Inverts(value: nat, rest: seq<Byte>)
    requires value < 0x1_0000
    ensures TakeU16(U16(value) + rest) == Taken(value, rest)
  {
    WordInverts(value);
  }

  lemma TakeU32Inverts(value: nat, rest: seq<Byte>)
    requires value < 0x1_0000_0000
    ensures TakeU32(U32(value) + rest) == Taken(value, rest)
  {
    WordInverts(value % 65536);
    WordInverts(value / 65536);
    var s := U32(value) + rest;
    assert s[4..] == rest;
  }

  /** The cursor over unescaped bytes; a read past the end is the source's "truncated" exception. */
  class Payload {
    const data: seq<Byte>
    var at: nat

    ghost predicate Valid() reads this { at <= |data| }

    ghost function Rest(): seq<Byte> reads this requires Valid() { data[at..] }

    constructor (data: seq<Byte>)
      ensures Valid() && Rest() == data
    {
      this.data := data;
      at := 0;
    }

    function Done(): (d: bool) reads this
      requires Valid()
      ensures d <==> Rest() == []
    {
      at >= |data|
    }

    method ReadU8() returns (r: Option<Byte>)
      requires Valid()
      modifies this
      ensures Valid()
      ensures match TakeU8(old(Rest())) { case Short => r == None case Taken(v, rest) => r == Some(v) && Rest() == rest }
    {
      if at >= |data| { return None; }
      r := Some(data[at]);
      at := at + 1;
    }

    method ReadU16() returns (r: Option<nat>)
      requires Valid()
      modifies this
      ensures Valid()
      ensures match TakeU16(old(Rest())) { case Short => r == None case Taken(v, rest) => r == Some(v) && Rest() == rest }
    {
      var low := ReadU8();
      if low.None? { return None; }
      var high := ReadU8();
      if high.None? { return None; }
      r := Some(Word(low.value, high.value));
    }

    method ReadU32() returns (r: Option<nat>)
      requires Valid()
      modifies this
      ensures Valid()
      ensures match TakeU32(old(Rest())) { case Short => r == None case Taken(v, rest) => r == Some(v) && Rest() == rest }
    {
      var low := ReadU16();
      if low.None? { return None; }
      var high := ReadU16();
      if high.None? { return None; }
      r := Some(low.value + 65536 * high.value);
    }

    method Take(count: nat) returns (r: Option<seq<Byte>>)
      requires Valid()
      modifies this
      ensures Valid()
      ensures match TakeBytes(old(Rest()), count) {
                case Short => r == None
                case Taken(v, rest) => r == Some(v) && Rest() == rest
              }
    {
      if at + count > |data| { return None; }
      r := Some(data[at..at + count]);
      assert r.value == Rest()[..count];
      at := at + count;
    }

    method Skip(count: nat) returns (ok: bool)
      requires Valid()
      modifies this
      ensures Valid()
      ensures match TakeBytes(old(Rest()), count) { case Short => !ok case Taken(_, rest) => ok && Rest() == rest }
    {
      ok := at + count <= |data|;
      if ok { at := at + count; }
    }

    method ReadString() returns (r: Option<seq<Byte>>)
      requires Valid()
      modifies this
      ensures Valid()
      ensures match TakeString(old(Rest())) { case Short => r == None case Taken(v, rest) => r == Some(v) && Rest() == rest }
    {
      var length := ReadU16();
      if length.None? { return None; }
      r := Take(length.value);
    }

    method ReadPosition() returns (r: Option<Position>)
      requires Valid()
      modifies this
      ensures Valid()
      ensures match TakePosition(old(Rest())) { case Short => r == None case Taken(v, rest) => r == Some(v) && Rest() == rest }
    {
      var x := ReadU16();
      if x.None? { return None; }
      var y := ReadU16();
      if y.None? { return None; }
      var z := ReadU8();
      if z.None? { return None; }
      r := Some(Position(x.value, y.value, z.value));
    }
  }

  // ---------------------------------------------------------------- attributes

  datatype Attributes = Attributes(
    flags: nat, ground: Option<nat>, count: Option<nat>, teleportTo: Option<Position>,
    houseDoorId: Option<nat>, actionId: Option<nat>, uniqueId: Option<nat>, text: Option<seq<Byte>>)

  const NO_ATTRIBUTES := Attributes(0, None, None, None, None, None, None, None)

  const ATTR_TILE_FLAGS: Byte := 0x03
  const ATTR_ACTION_ID: Byte := 0x04
  const ATTR_UNIQUE_ID: Byte := 0x05
  const ATTR_TEXT: Byte := 0x06
  const ATTR_TELEPORT: Byte := 0x08
  const ATTR_ITEM: Byte := 0x09
  const ATTR_HOUSE_DOOR: Byte := 0x0e
  const ATTR_COUNT: Byte := 0x0f

  datatype Size = Text | Fixed(bytes: nat)

  /** The fixed size of every known attribute; a type outside the table has no size at all. */
  function AttributeSize(kind: Byte): Option<Size> {
    if kind in {0x01, 0x02, 0x06, 0x07, 0x0b, 0x0d, 0x13} then Some(Text)
    else if kind in {0x03, 0x10, 0x12, 0x14, 0x15} then Some(Fixed(4))
    else if kind in {0x04, 0x05, 0x09, 0x0a, 0x16} then Some(Fixed(2))
    else if kind in {0x0c, 0x0e, 0x0f, 0x11} then Some(Fixed(1))
    else if kind == 0x08 then Some(Fixed(5))
    else None
  }

  /** One attribute: the new value of the record and the remaining bytes, or the error. */
  function ParseAttribute(s: seq<Byte>, out: Attributes): (r: Result<(Attributes, seq<Byte>), Error>)
    requires s != []
    ensures r.Ok? ==> |r.value.1| < |s|
  {
    var kind, rest := s[0], s[1..];
    match AttributeSize(kind)
    case None => Err(UnknownAttribute(kind))
    case Some(size) =>
      if kind == ATTR_TEXT then
        match TakeString(rest) case Short => Err(Truncated) case Taken(v, more) => Ok((out.(text := Some(v)), more))
      else if size.Text? then
        match TakeString(rest) case Short => Err(Truncated) case Taken(_, more) => Ok((out, more))
      else if kind == ATTR_TILE_FLAGS then
        match TakeU32(rest) case Short => Err(Truncated) case Taken(v, more) => Ok((out.(flags := v), more))
      else if kind == ATTR_ITEM then
        match TakeU16(rest) case Short => Err(Truncated) case Taken(v, more) => Ok((out.(ground := Some(v)), more))
      else if kind == ATTR_COUNT then
        match TakeU8(rest) case Short => Err(Truncated) case Taken(v, more) => Ok((out.(count := Some(v)), more))
      else if kind == ATTR_TELEPORT then
        match TakePosition(rest) case Short => Err(Truncated) case Taken(v, more) => Ok((out.(teleportTo := Some(v)), more))
      else if kind == ATTR_HOUSE_DOOR then
        match TakeU8(rest) case Short => Err(Truncated) case Taken(v, more) => Ok((out.(houseDoorId := Some(v)), more))
      else if kind == ATTR_ACTION_ID then
        match TakeU16(rest) case Short => Err(Truncated) case Taken(v, more) => Ok((out.(actionId := Some(v)), more))
      else if kind == ATTR_UNIQUE_ID then
        match TakeU16(rest) case Short => Err(Truncated) case Taken(v, more) => Ok((out.(uniqueId := Some(v)), more))
      else
        match TakeBytes(rest, size.bytes) case Short => Err(Truncated) case Taken(_, more) => Ok((out, more))
  }

  function ParseAttributes(s: seq<Byte>, out: Attributes): Result<Attributes, Error>
    decreases |s|
  {
    if s == [] then Ok(out)
    else match ParseAttribute(s, out)
      case Err(e) => Err(e)
      case Ok(next) => ParseAttributes(next.1, next.0)
  }

  method ReadAttributes(payload: Payload) returns (r: Result<Attributes, Error>)
    requires payload.Valid()
    modifies payload
    ensures payload.Valid()
    ensures r == ParseAttributes(old(payload.Rest()), NO_ATTRIBUTES)
  {
    var out := NO_ATTRIBUTES;
    ghost var all := ParseAttributes(payload.Rest(), NO_ATTRIBUTES);
    while !payload.Done()
      invariant payload.Valid()
      invariant all == ParseAttributes(payload.Rest(), out)
      decreases |payload.Rest()|
    {
      var kind := payload.ReadU8();
      var size := AttributeSize(kind.value);
      if size.None? { return Err(UnknownAttribute(kind.value)); }
      if kind.value == ATTR_TEXT {
        var v := payload.ReadString();
        if v.None? { return Err(Truncated); }
        out := out.(text := v);
        continue;
      }
      if size.value.Text? {
        var length := payload.ReadU16();
        if length.None? { return Err(Truncated); }
        var ok := payload.Skip(length.value);
        if !ok { return Err(Truncated); }
        continue;
      }
      if kind.value == ATTR_TILE_FLAGS {
        var v := payload.ReadU32();
        if v.None? { return Err(Truncated); }
        out := out.(flags := v.value);
        continue;
      }
      if kind.value == ATTR_ITEM {
        var v := payload.ReadU16();
        if v.None? { return Err(Truncated); }
        out := out.(ground := v);
        continue;
      }
      if kind.value == ATTR_COUNT {
        var v := payload.ReadU8();
        if v.None? { return Err(Truncated); }
        out := out.(count := Some(v.value));
        continue;
      }
      if kind.value == ATTR_TELEPORT {
        var v := payload.ReadPosition();
        if v.None? { return Err(Truncated); }
        out := out.(teleportTo := v);
        continue;
      }
      if kind.value == ATTR_HOUSE_DOOR {
        var v := payload.ReadU8();
        if v.None? { return Err(Truncated); }
        out := out.(houseDoorId := Some(v.value));
        continue;
      }
      if kind.value == ATTR_ACTION_ID {
        var v := payload.ReadU16();
        if v.None? { return Err(Truncated); }
        out := out.(actionId := v);
        continue;
      }
      if kind.value == ATTR_UNIQUE_ID {
        var v := payload.ReadU16();
        if v.None? { return Err(Truncated); }
        out := out.(uniqueId := v);
        continue;
      }
      var ok := payload.Skip(size.value.bytes);
      if !ok { return Err(Truncated); }
    }
    r := Ok(out);
  }

  /** An attribute as a writer means it, before any byte exists. */
  datatype Attribute =
    | Flags(flags: nat) | Ground(ground: nat) | Count(count: nat) | Teleport(to: Position)
    | HouseDoor(door: nat) | ActionId(actionId: nat) | UniqueId(uniqueId: nat) | TextOf(text: seq<Byte>)
    | Other(kind: Byte, value: seq<Byte>)

  predicate ValidPosition(p: Position) {
    p.x < 0x1_0000 && p.y < 0x1_0000 && p.z < 0x100
  }

  predicate Interpreted(kind: Byte) {
    kind in {ATTR_TILE_FLAGS, ATTR_ACTION_ID, ATTR_UNIQUE_ID, ATTR_TEXT, ATTR_TELEPORT, ATTR_ITEM, ATTR_HOUSE_DOOR, ATTR_COUNT}
  }

  predicate ValidAttribute(a: Attribute) {
    match a
    case Flags(v) => v < 0x1_0000_0000
    case Ground(v) => v < 0x1_0000
    case Count(v) => v < 0x100
    case Teleport(p) => ValidPosition(p)
    case HouseDoor(v) => v < 0x100
    case ActionId(v) => v < 0x1_0000
    case UniqueId(v) => v < 0x1_0000
    case TextOf(v) => |v| < 0x1_0000
    case Other(kind, v) =>
      !Interpreted(kind) &&
      match AttributeSize(kind)
      case None => false
      case Some(Text) => |v| < 0x1_0000
      case Some(Fixed(n)) => |v| == n
  }

  predicate ValidAttributes(attributes: seq<Attribute>) {
    forall i :: 0 <= i < |attributes| ==> ValidAttribute(attributes[i])
  }

  function PositionBytes(p: Position): seq<Byte> { U16(p.x) + U16(p.y) + U8(p.z) }

  function AttributeBytes(a: Attribute): seq<Byte> {
    match a
    case Flags(v) => [ATTR_TILE_FLAGS] + U32(v)
    case Ground(v) => [ATTR_ITEM] + U16(v)
    case Count(v) => [ATTR_COUNT] + U8(v)
    case Teleport(p) => [ATTR_TELEPORT] + PositionBytes(p)
    case HouseDoor(v) => [ATTR_HOUSE_DOOR] + U8(v)
    case ActionId(v) => [ATTR_ACTION_ID] + U16(v)
    case UniqueId(v) => [ATTR_UNIQUE_ID] + U16(v)
    case TextOf(v) => [ATTR_TEXT] + (U16(|v|) + v)
    case Other(kind, v) => [kind] + (if AttributeSize(kind) == Some(Text) then U16(|v|) + v else v)
  }

  function AttributesBytes(attributes: seq<Attribute>): seq<Byte> {
    if attributes == [] then [] else AttributeBytes(attributes[0]) + AttributesBytes(attributes[1..])
  }

  /** The meaning of an attribute list: each field keeps the last value written to it. */
  function Meaning(attributes: seq<Attribute>, out: Attributes): Attributes {
    if attributes == [] then out
    else
      var next := match attributes[0]
        case Flags(v) => out.(flags := v)
        case Ground(v) => out.(ground := Some(v))
        case Count(v) => out.(count := Some(v))
        case Teleport(p) => out.(teleportTo := Some(p))
        case HouseDoor(v) => out.(houseDoorId := Some(v))
        case ActionId(v) => out.(actionId := Some(v))
        case UniqueId(v) => out.(uniqueId := Some(v))
        case TextOf(v) => out.(text := Some(v))
        case Other(_, _) => out;
      Meaning(attributes[1..], next)
  }

  lemma TakePositionInverts(p: Position, rest: seq<Byte>)
    requires ValidPosition(p)
    ensures TakePosition(PositionBytes(p) + rest) == Taken(p, rest)
  {
    var s := PositionBytes(p) + rest;
    WordInverts(p.x);
    WordInverts(p.y);
    assert U8(p.z) == [p.z as Byte];
    hide U16, U8, Word;
    assert s[0] == U16(p.x)[0] && s[1] == U16(p.x)[1] && s[2] == U16(p.y)[0] && s[3] == U16(p.y)[1] && s[4] == U8(p.z)[0];
    assert s[5..] == rest;
  }

  lemma TakeStringInverts(v: seq<Byte>, rest: seq<Byte>)
    requires |v| < 0x1_0000
    ensures TakeString((U16(|v|) + v) + rest) == Taken(v, rest)
  {
    assert (U16(|v|) + v) + rest == U16(|v|) + (v + rest);
    TakeU16Inverts(|v|, v + rest);
    assert (v + rest)[..|v|] == v && (v + rest)[|v|..] == rest;
  }

  lemma NumberInverts(a: Attribute, more: seq<Byte>, out: Attributes)
    requires ValidAttribute(a) && (a.Flags? || a.Ground? || a.Count? || a.HouseDoor? || a.ActionId? || a.UniqueId?)
    ensures ParseAttribute(AttributeBytes(a) + more, out) == Ok((Meaning([a], out), more))
  {
    hide U8, U16, U32, TakeU8, TakeU16, TakeU32, TakeString, TakePosition, PositionBytes;
    var s, body := AttributeBytes(a) + more, AttributeBytes(a)[1..];
    assert s[1..] == body + more && [a][1..] == [];
    match a
    case Flags(v) => assert body == U32(v); TakeU32Inverts(v, more);
    case Ground(v) => assert body == U16(v); TakeU16Inverts(v, more);
    case Count(v) => assert body == U8(v); TakeU8Inverts(v, more);
    case HouseDoor(v) => assert body == U8(v); TakeU8Inverts(v, more);
    case ActionId(v) => assert body == U16(v); TakeU16Inverts(v, more);
    case UniqueId(v) => assert body == U16(v); TakeU16Inverts(v, more);
  }

  lemma SkippedInverts(a: Attribute, more: seq<Byte>, out: Attributes)
    requires ValidAttribute(a) && a.Other?
    ensures ParseAttribute(AttributeBytes(a) + more, out) == Ok((Meaning([a], out), more))
  {
    hide U8, U16, U32, TakeU8, TakeU16, TakeU32, TakeString, TakePosition, PositionBytes;
    var s, body := AttributeBytes(a) + more, AttributeBytes(a)[1..];
    assert s[1..] == body + more && [a][1..] == [];
    if AttributeSize(a.kind) == Some(Text) {
      assert body == U16(|a.value|) + a.value;
      TakeStringInverts(a.value, more);
    } else {
      assert body == a.value;
      assert (a.value + more)[|a.value|..] == more;
    }
  }

  lemma AttributeInverts(a: Attribute, more: seq<Byte>, out: Attributes)
    requires ValidAttribute(a)
    ensures ParseAttribute(AttributeBytes(a) + more, out) == Ok((Meaning([a], out), more))
  {
    hide U8, U16, U32, TakeU8, TakeU16, TakeU32, TakeString, TakePosition, PositionBytes;
    if a.Other? {
      SkippedInverts(a, more, out);
    } else if a.Teleport? || a.TextOf? {
      var s, body := AttributeBytes(a) + more, AttributeBytes(a)[1..];
      assert s[1..] == body + more && [a][1..] == [];
      match a
      case Teleport(p) => assert body == PositionBytes(p); TakePositionInverts(p, more);
      case TextOf(v) => assert body == U16(|v|) + v; TakeStringInverts(v, more);
    } else {
      NumberInverts(a, more, out);
    }
  }

  /** Reading printed attributes gives their meaning, for every list that fits the format's widths. */
  lemma {:induction false} AttributesRoundTrip(attributes: seq<Attribute>, out: Attributes)
    requires ValidAttributes(attributes)
    ensures ParseAttributes(AttributesBytes(attributes), out) == Ok(Meaning(attributes, out))
    decreases |attributes|
  {
    if attributes != [] {
      AttributeInverts(attributes[0], AttributesBytes(attributes[1..]), out);
      assert [attributes[0]][1..] == [];
      AttributesRoundTrip(attributes[1..], Meaning([attributes[0]], out));
    }
  }
}
