/**
 * What the tile reader can deliver at all: whatever the bytes, every tile is inside the region and its numbers have
 * their width.
 */
module OtbmBounds {
  import opened Wrappers
  import opened Numbers
  import opened OtbmPayload
  import opened Otbm
  import OtbmMap
  import Sectors

  predicate Narrow(a: Attributes) {
    (a.ground.Some? ==> a.ground.value < 0x1_0000) && (a.count.Some? ==> a.count.value < 0x100)
  }

  lemma NumberIsNarrow(s: seq<Byte>)
    ensures TakeU16(s).Taken? ==> TakeU16(s).value < 0x1_0000
    ensures TakeU32(s).Taken? ==> TakeU32(s).value < 0x1_0000_0000
  {
    TakenU16(s);
    TakenU32(s);
  }

  lemma {:induction false} ParsedIsNarrow(s: seq<Byte>, out: Attributes)
    requires Narrow(out)
    ensures ParseAttributes(s, out).Ok? ==> Narrow(ParseAttributes(s, out).value)
    decreases |s|
  {
    if s != [] {
      NumberIsNarrow(s[1..]);
      var next := ParseAttribute(s, out);
      hide TakeU16, TakeU32, TakeString, TakePosition, TakeBytes;
      if next.Ok? { ParsedIsNarrow(next.value.1, next.value.0); }
    }
  }

  ghost predicate Good(t: Tile, region: Region) { OtbmMap.Inside(t, region) && Sectors.InFormat(t) }

  ghost predicate AllGood(ts: seq<Tile>, region: Region) { forall i :: 0 <= i < |ts| ==> Good(ts[i], region) }

  ghost predicate GoodStack(stack: seq<Frame>, region: Region) {
    forall i :: 0 <= i < |stack| && stack[i].tile.Some? ==> Good(stack[i].tile.value, region)
  }

  ghost predicate GoodBase(base: Option<Position>, region: Region) {
    base.Some? ==> base.value.x < 0x1_0000 && base.value.y < 0x1_0000 && base.value.z < 0x100 && Within(base.value.z, region.z)
  }

  ghost predicate GoodState(st: State, region: Region) {
    GoodStack(st.stack, region) && GoodBase(st.base, region) && AllGood(st.out, region)
  }

  lemma AreaKeeps(payload: seq<Byte>, st: State, region: Region)
    requires GoodState(st, region)
    ensures var o := OpenArea(payload, st, region); o.Enter? ==> GoodState(o.state, region)
  {}

  lemma TileKeeps(kind: Byte, payload: seq<Byte>, st: State, region: Region)
    requires GoodState(st, region) && st.base.Some?
    ensures var o := OpenTile(kind, payload, st.base.value, st, region); o.Enter? ==> GoodState(o.state, region)
  {
    if |payload| >= 2 {
      var rest := payload[2..];
      ParsedIsNarrow(rest, NO_ATTRIBUTES);
      NumberIsNarrow(rest);
      if kind == HOUSE_TILE && TakeU32(rest).Taken? { ParsedIsNarrow(TakeU32(rest).rest, NO_ATTRIBUTES); }
      hide TakeU32, ParseAttributes;
    }
  }

  /** An item in width joins the items of a good tile. */
  lemma ItemJoins(t: Tile, item: Item, region: Region)
    requires Good(t, region) && item.id < 0x1_0000 && (item.count.Some? ==> item.count.value < 0x100)
    ensures Good(t.(items := t.items + [item]), region)
  {}

  lemma DepositKeeps(stack: seq<Frame>, item: Item, region: Region)
    requires GoodStack(stack, region) && item.id < 0x1_0000 && (item.count.Some? ==> item.count.value < 0x100)
    ensures GoodStack(Deposit(stack, item), region)
  {
    hide Good;
    var i := Owner(stack);
    if i < |stack| { ItemJoins(stack[i].tile.value, item, region); }
  }

  lemma ItemKeeps(payload: seq<Byte>, st: State, region: Region)
    requires GoodState(st, region)
    ensures var o := OpenItem(payload, st); o.Enter? ==> GoodState(o.state, region)
  {
    hide Good, Deposit, TakeU16, ParseAttributes;
    var taken := TakeU16(payload);
    NumberIsNarrow(payload);
    if taken.Taken? {
      ParsedIsNarrow(taken.rest, NO_ATTRIBUTES);
      var a := ParseAttributes(taken.rest, NO_ATTRIBUTES);
      if a.Ok? { DepositKeeps(st.stack, ItemFrom(taken.value, a.value), region); }
    }
  }

  lemma OpenKeeps(kind: Byte, payload: seq<Byte>, st: State, region: Region)
    requires GoodState(st, region) && (IsTile(kind) ==> st.base.Some?)
    ensures var o := Open(kind, payload, st, region); o.Enter? ==> GoodState(o.state, region)
  {
    hide OpenArea, OpenTile, OpenItem, Good;
    AreaKeeps(payload, st, region);
    if IsTile(kind) { TileKeeps(kind, payload, st, region); }
    ItemKeeps(payload, st, region);
  }

  lemma CloseKeeps(st: State, region: Region)
    requires GoodState(st, region) && st.stack != []
    ensures GoodState(Close(st), region)
  {
    hide Good;
  }

  lemma {:induction false} RunDelivers(s: seq<Byte>, st: State, region: Region)
    requires GoodState(st, region)
    ensures AllGood(Run(s, st, region).tiles, region)
    decreases |s|
  {
    hide Open, Close, GoodStack, GoodBase, AllGood, Unescape, IsTile;
    if s == [] {
    } else if s[0] == ESCAPE {
      RunDelivers(Drop(s, 2), st, region);
    } else if s[0] == NODE_END {
      if st.stack != [] {
        CloseKeeps(st, region);
        RunDelivers(s[1..], Close(st), region);
      }
    } else if s[0] != NODE_START {
      RunDelivers(s[1..], st, region);
    } else if |s| > 1 && !(IsTile(s[1]) && st.base.None?) {
      var u := Unescape(s[2..]);
      if u.Unescaped? {
        OpenKeeps(s[1], u.payload, st, region);
        var o := Open(s[1], u.payload, st, region);
        if o.Enter? { RunDelivers(u.rest, o.state, region); }
        if o.Prune? {
          var after := SkipNode(s[2..], 0);
          if after.Some? { RunDelivers(after.value, st, region); }
        }
      }
    }
  }

  /**
   * For every byte string and region, well formed or not: the tiles delivered are inside the region, with every
   * number in its width.
   */
  lemma DeliveredTiles(bytes: seq<Byte>, region: Region)
    ensures forall t :: t in ReadTiles(bytes, region).tiles ==> OtbmMap.Inside(t, region) && Sectors.InFormat(t)
  {
    hide Run, Unescape, Good;
    assert GoodState(START, region);
    if HeaderError(bytes).None? { RunDelivers(bytes[4..], START, region); }
    forall t | t in ReadTiles(bytes, region).tiles ensures Good(t, region) {
      var i :| 0 <= i < |ReadTiles(bytes, region).tiles| && ReadTiles(bytes, region).tiles[i] == t;
    }
    UnfoldGood(ReadTiles(bytes, region).tiles, region);
  }

  lemma UnfoldGood(ts: seq<Tile>, region: Region)
    requires forall t :: t in ts ==> Good(t, region)
    ensures forall t :: t in ts ==> OtbmMap.Inside(t, region) && Sectors.InFormat(t)
  {}
}
