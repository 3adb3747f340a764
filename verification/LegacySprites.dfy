/** The atlas pages of the old sprite format: run-length sprites painted into the 32 by 32 slots of 64 by 64 pages. */
module LegacySprites {
  import opened Wrappers
  import opened Numbers

  datatype Color = Color(red: Byte, green: Byte, blue: Byte, alpha: Byte)

  const CLEAR := Color(0, 0, 0, 0)
  const SIDE := 32
  const PIXELS := 1024
  const COLUMNS := 64
  const PAGE_SIZE := 4096
  const ATLAS_WIDTH := 2048
  const ATLAS_PIXELS := 4194304

  datatype Error = BadHeader | BadSprite

  function U16At(s: seq<Byte>, at: nat): nat
    requires at + 2 <= |s|
  {
    s[at] as int + 256 * (s[at + 1] as int)
  }

  function U32At(s: seq<Byte>, at: nat): nat
    requires at + 4 <= |s|
  {
    U16At(s, at) + 0x1_0000 * U16At(s, at + 2)
  }

  // ---------------------------------------------------------------- what a sprite means

  function ColorBytes(hasAlpha: bool): nat { if hasAlpha then 4 else 3 }

  function ColorAt(s: seq<Byte>, at: nat, hasAlpha: bool): Color
    requires at + ColorBytes(hasAlpha) <= |s|
  {
    Color(s[at], s[at + 1], s[at + 2], if hasAlpha then s[at + 3] else 255)
  }

  function Blank(n: nat): seq<Option<Color>> { seq(n, _ => None) }

  /** The colours of a run, read from its bytes one after the other. */
  function Colors(s: seq<Byte>, at: nat, n: nat, hasAlpha: bool): (cs: seq<Option<Color>>)
    requires at + n * ColorBytes(hasAlpha) <= |s|
    ensures |cs| == n
    decreases n
  {
    if n == 0 then []
    else
      Stretch(n, ColorBytes(hasAlpha));
      [Some(ColorAt(s, at, hasAlpha))] + Colors(s, at + ColorBytes(hasAlpha), n - 1, hasAlpha)
  }

  lemma Stretch(n: nat, size: nat)
    requires n > 0
    ensures n * size == size + (n - 1) * size && (n - 1) * size >= 0
  {}

  /** The pixels of the runs between two positions: blanks, colours, blanks, colours, until the bytes or the room end. */
  function Expanded(s: seq<Byte>, from: nat, end: nat, room: nat, hasAlpha: bool): Option<seq<Option<Color>>>
    requires from <= end <= |s|
    decreases end - from
  {
    if from == end || room == 0 then Some([])
    else if from + 4 > end then None
    else
      var skip, count := U16At(s, from), U16At(s, from + 2);
      if skip + count > room || from + 4 + count * ColorBytes(hasAlpha) > end then None
      else
        var run := Blank(skip) + Colors(s, from + 4, count, hasAlpha);
        Before(run, Expanded(s, from + 4 + count * ColorBytes(hasAlpha), end, room - skip - count, hasAlpha))
  }

  function Before(run: seq<Option<Color>>, rest: Option<seq<Option<Color>>>): Option<seq<Option<Color>>> {
    if rest.None? then None else Some(run + rest.value)
  }

  datatype Sprite = Missing | Broken | Drawn(pixels: seq<Option<Color>>)

  function SpriteAt(s: seq<Byte>, offset: nat, hasAlpha: bool): (sprite: Sprite)
    ensures sprite.Missing? <==> offset == 0
  {
    if offset == 0 then Missing
    else if offset + 5 > |s| then Broken
    else
      var end := offset + 5 + U16At(s, offset + 3);
      if end > |s| then Broken
      else
        var pixels := Expanded(s, offset + 5, end, PIXELS, hasAlpha);
        if pixels.None? then Broken else Drawn(pixels.value)
  }

  // ---------------------------------------------------------------- where its pixels go

  /** The place of pixel `p` of a slot whose corner is (x, y). */
  function Place(x: nat, y: nat, p: nat): nat { (y + p / SIDE) * ATLAS_WIDTH + x + p % SIDE }

  predicate InSlot(x: nat, y: nat, i: nat) { x <= i % ATLAS_WIDTH < x + SIDE && y <= i / ATLAS_WIDTH < y + SIDE }

  function PixelAt(x: nat, y: nat, i: nat): nat
    requires InSlot(x, y, i)
  {
    (i / ATLAS_WIDTH - y) * SIDE + (i % ATLAS_WIDTH - x)
  }

  lemma PlaceInverts(x: nat, y: nat, p: nat)
    requires x + SIDE <= ATLAS_WIDTH && p < PIXELS
    ensures InSlot(x, y, Place(x, y, p)) && PixelAt(x, y, Place(x, y, p)) == p
  {
    var row, column := y + p / SIDE, x + p % SIDE;
    assert Place(x, y, p) == row * ATLAS_WIDTH + column && column < ATLAS_WIDTH;
  }

  lemma PixelAtInverts(x: nat, y: nat, i: nat)
    requires InSlot(x, y, i)
    ensures PixelAt(x, y, i) < PIXELS && Place(x, y, PixelAt(x, y, i)) == i
  {
    var row, column := i / ATLAS_WIDTH - y, i % ATLAS_WIDTH - x;
    assert PixelAt(x, y, i) == row * SIDE + column && column < SIDE;
    assert PixelAt(x, y, i) / SIDE == row && PixelAt(x, y, i) % SIDE == column;
  }

  function Shown(pixels: seq<Option<Color>>, p: nat): Option<Color> { if p < |pixels| then pixels[p] else None }

  /** One pixel of a page after painting `pixels` into a slot of it. */
  function Over(before: Color, x: nat, y: nat, pixels: seq<Option<Color>>, i: nat): Color {
    if InSlot(x, y, i) && Shown(pixels, PixelAt(x, y, i)).Some? then Shown(pixels, PixelAt(x, y, i)).value else before
  }

  function Blit(page: seq<Color>, x: nat, y: nat, pixels: seq<Option<Color>>): (after: seq<Color>)
    ensures |after| == |page|
  {
    seq(|page|, i requires 0 <= i < |page| => Over(page[i], x, y, pixels, i))
  }

  lemma BlitBlank(page: seq<Color>, x: nat, y: nat, pixels: seq<Option<Color>>, n: nat)
    ensures Blit(page, x, y, pixels + Blank(n)) == Blit(page, x, y, pixels)
  {
    forall i | 0 <= i < |page| ensures Over(page[i], x, y, pixels + Blank(n), i) == Over(page[i], x, y, pixels, i) {
      if InSlot(x, y, i) {
        var p := PixelAt(x, y, i);
        assert p < |pixels + Blank(n)| ==> (pixels + Blank(n))[p] == if p < |pixels| then pixels[p] else None;
      }
    }
  }

  lemma BlitOne(page: seq<Color>, x: nat, y: nat, pixels: seq<Option<Color>>, c: Color)
    requires x + SIDE <= ATLAS_WIDTH && |pixels| < PIXELS && Place(x, y, |pixels|) < |page|
    ensures Blit(page, x, y, pixels + [Some(c)]) == Blit(page, x, y, pixels)[Place(x, y, |pixels|) := c]
  {
    var n := |pixels|;
    PlaceInverts(x, y, n);
    hide Place, InSlot, PixelAt;
    forall i | 0 <= i < |page|
      ensures Over(page[i], x, y, pixels + [Some(c)], i) == if i == Place(x, y, n) then c else Over(page[i], x, y, pixels, i)
    {
      if InSlot(x, y, i) { PixelAtInverts(x, y, i); }
    }
  }

  lemma PlaceFits(x: nat, y: nat, p: nat, size: nat)
    requires x + SIDE <= ATLAS_WIDTH && (y + SIDE) * ATLAS_WIDTH <= size && p < PIXELS
    ensures Place(x, y, p) < size
  {
    assert p / SIDE < SIDE;
  }

  // ---------------------------------------------------------------- painting

  /** Paints the colours of one run from `pixel` on, in place. */
  method PaintRun(source: seq<Byte>, from: nat, count: nat, hasAlpha: bool, page: array<Color>, x: nat, y: nat, pixel: nat,
                  ghost before: seq<Color>, ghost done: seq<Option<Color>>)
    requires x + SIDE <= ATLAS_WIDTH && (y + SIDE) * ATLAS_WIDTH <= page.Length == |before|
    requires from + count * ColorBytes(hasAlpha) <= |source|
    requires |done| == pixel && pixel + count <= PIXELS
    requires page[..] == Blit(before, x, y, done)
    modifies page
    ensures page[..] == Blit(before, x, y, done + Colors(source, from, count, hasAlpha))
  {
    hide Blit, Place, ColorAt;
    var cursor: nat := from;
    ghost var painted := done;
    ghost var rest := Colors(source, from, count, hasAlpha);
    assert done + rest == painted + rest;
    for index := 0 to count
      invariant |painted| == pixel + index
      invariant cursor + (count - index) * ColorBytes(hasAlpha) <= |source|
      invariant done + Colors(source, from, count, hasAlpha) == painted + Colors(source, cursor, count - index, hasAlpha)
      invariant page[..] == Blit(before, x, y, painted)
    {
      Stretch(count - index, ColorBytes(hasAlpha));
      var c := ColorAt(source, cursor, hasAlpha);
      PlaceFits(x, y, pixel + index, page.Length);
      BlitOne(before, x, y, painted, c);
      ghost var more := Colors(source, cursor + ColorBytes(hasAlpha), count - index - 1, hasAlpha);
      assert painted + ([Some(c)] + more) == painted + [Some(c)] + more;
      page[Place(x, y, pixel + index)] := c;
      painted := painted + [Some(c)];
      cursor := cursor + ColorBytes(hasAlpha);
    }
    assert painted + Colors(source, cursor, 0, hasAlpha) == painted;
  }

  /** What the whole expansion is, once `done` was read from the front. */
  ghost function Left(done: seq<Option<Color>>, s: seq<Byte>, cursor: nat, end: nat, hasAlpha: bool): Option<seq<Option<Color>>>
    requires |done| <= PIXELS && cursor <= end <= |s|
  {
    var rest := Expanded(s, cursor, end, PIXELS - |done|, hasAlpha);
    if rest.None? then None else Some(done + rest.value)
  }

  lemma LeftStarts(s: seq<Byte>, from: nat, end: nat, hasAlpha: bool)
    requires from <= end <= |s|
    ensures Left([], s, from, end, hasAlpha) == Expanded(s, from, end, PIXELS, hasAlpha)
  {
    hide Expanded;
    var rest := Expanded(s, from, end, PIXELS, hasAlpha);
    if rest.Some? { assert [] + rest.value == rest.value; }
  }

  lemma LeftEnds(done: seq<Option<Color>>, s: seq<Byte>, cursor: nat, end: nat, hasAlpha: bool)
    requires |done| <= PIXELS && cursor <= end <= |s|
    ensures cursor == end || |done| == PIXELS ==> Left(done, s, cursor, end, hasAlpha) == Some(done)
    ensures cursor < end < cursor + 4 && |done| < PIXELS ==> Left(done, s, cursor, end, hasAlpha) == None
  {
    assert done + [] == done;
  }

  lemma LeftNext(s: seq<Byte>, cursor: nat, end: nat, done: seq<Option<Color>>, hasAlpha: bool)
    requires cursor < end <= |s| && |done| < PIXELS
    requires cursor + 4 <= end
    ensures var skip, count := U16At(s, cursor), U16At(s, cursor + 2);
      Left(done, s, cursor, end, hasAlpha) ==
        if |done| + skip + count > PIXELS || cursor + 4 + count * ColorBytes(hasAlpha) > end then None
        else Left(done + Blank(skip) + Colors(s, cursor + 4, count, hasAlpha), s,
                  cursor + 4 + count * ColorBytes(hasAlpha), end, hasAlpha)
  {
    var skip, count := U16At(s, cursor), U16At(s, cursor + 2);
    hide U16At, Colors;
    if |done| + skip + count <= PIXELS && cursor + 4 + count * ColorBytes(hasAlpha) <= end {
      var cs := Colors(s, cursor + 4, count, hasAlpha);
      var rest := Expanded(s, cursor + 4 + count * ColorBytes(hasAlpha), end, PIXELS - |done| - skip - count, hasAlpha);
      assert |done + Blank(skip) + cs| == |done| + skip + count;
      if rest.Some? { assert done + (Blank(skip) + cs + rest.value) == done + Blank(skip) + cs + rest.value; }
    }
  }

  /** The runs of one sprite painted into its slot; a broken sprite may leave part of the slot painted, and nothing else. */
  method PaintRuns(source: seq<Byte>, from: nat, end: nat, hasAlpha: bool, page: array<Color>, x: nat, y: nat)
    returns (ok: bool)
    requires from <= end <= |source|
    requires x + SIDE <= ATLAS_WIDTH && (y + SIDE) * ATLAS_WIDTH <= page.Length
    modifies page
    ensures var pixels := Expanded(source, from, end, PIXELS, hasAlpha);
      ok == pixels.Some? && (ok ==> page[..] == Blit(old(page[..]), x, y, pixels.value))
    ensures exists painted :: page[..] == Blit(old(page[..]), x, y, painted)
  {
    hide U16At, Colors, Blit, Left;
    ghost var before := page[..];
    ghost var done: seq<Option<Color>> := [];
    LeftStarts(source, from, end, hasAlpha);
    ghost var whole := Left(done, source, from, end, hasAlpha);
    var cursor, pixel := from, 0;
    BlitNothing(before, x, y);
    while cursor < end && pixel < PIXELS
      invariant cursor <= end && |done| == pixel <= PIXELS
      invariant whole == Left(done, source, cursor, end, hasAlpha)
      invariant page[..] == Blit(before, x, y, done)
      decreases end - cursor
    {
      LeftEnds(done, source, cursor, end, hasAlpha);
      if cursor + 4 > end { return false; }
      LeftNext(source, cursor, end, done, hasAlpha);
      var skip, count := U16At(source, cursor), U16At(source, cursor + 2);
      pixel := pixel + skip;
      cursor := cursor + 4;
      if pixel + count > PIXELS || cursor + count * ColorBytes(hasAlpha) > end { return false; }
      BlitBlank(before, x, y, done, skip);
      PaintRun(source, cursor, count, hasAlpha, page, x, y, pixel, before, done + Blank(skip));
      done := done + Blank(skip) + Colors(source, cursor, count, hasAlpha);
      pixel := pixel + count;
      cursor := cursor + count * ColorBytes(hasAlpha);
    }
    LeftEnds(done, source, cursor, end, hasAlpha);
    ok := true;
  }

  lemma BlitNothing(page: seq<Color>, x: nat, y: nat)
    ensures Blit(page, x, y, []) == page
  {}

  /** Paints the sprite found at an offset: `Ok(false)` when there is none, an error when its bytes are broken. */
  method PaintLegacySprite(source: seq<Byte>, offset: nat, page: array<Color>, x: nat, y: nat, hasAlpha: bool)
    returns (result: Result<bool, Error>)
    requires x + SIDE <= ATLAS_WIDTH && (y + SIDE) * ATLAS_WIDTH <= page.Length
    modifies page
    ensures match SpriteAt(source, offset, hasAlpha)
      case Missing => result == Ok(false) && page[..] == old(page[..])
      case Drawn(pixels) => result == Ok(true) && page[..] == Blit(old(page[..]), x, y, pixels)
      case Broken => result == Err(BadSprite)
    ensures exists painted :: page[..] == Blit(old(page[..]), x, y, painted)
  {
    BlitNothing(page[..], x, y);
    hide Blit, U16At;
    if offset == 0 { return Ok(false); }
    if offset + 5 > |source| { return Err(BadSprite); }
    var end := offset + 5 + U16At(source, offset + 3);
    if end > |source| { return Err(BadSprite); }
    var ok := PaintRuns(source, offset + 5, end, hasAlpha, page, x, y);
    result := if ok then Ok(true) else Err(BadSprite);
  }

  /** Painting a slot, well or badly, changes no pixel outside of it. */
  lemma BlitStaysInSlot(page: seq<Color>, x: nat, y: nat, pixels: seq<Option<Color>>, i: nat)
    requires i < |page| && !InSlot(x, y, i)
    ensures Blit(page, x, y, pixels)[i] == page[i]
  {}

  // ---------------------------------------------------------------- pages

  function SlotX(slot: nat): nat { slot % COLUMNS * SIDE }

  function SlotY(slot: nat): nat { slot / COLUMNS * SIDE }

  /** The slot a pixel of a page belongs to. */
  function SlotOf(i: nat): nat { i / ATLAS_WIDTH / SIDE * COLUMNS + i % ATLAS_WIDTH / SIDE }

  lemma SlotsPartition(slot: nat, i: nat)
    ensures InSlot(SlotX(slot), SlotY(slot), i) <==> SlotOf(i) == slot
    ensures SlotX(slot) + SIDE <= ATLAS_WIDTH
    ensures slot < PAGE_SIZE ==> (SlotY(slot) + SIDE) * ATLAS_WIDTH <= ATLAS_PIXELS
  {
    var row, column := i / ATLAS_WIDTH, i % ATLAS_WIDTH;
    assert slot == slot / COLUMNS * COLUMNS + slot % COLUMNS;
    Cells(column, slot % COLUMNS);
    Cells(row, slot / COLUMNS);
    assert column / SIDE < COLUMNS;
    SlotDigits(row / SIDE, column / SIDE, slot);
  }

  lemma Cells(a: nat, n: nat)
    ensures n * SIDE <= a < n * SIDE + SIDE <==> a / SIDE == n
  {}

  lemma SlotDigits(row: nat, column: nat, slot: nat)
    requires column < COLUMNS
    ensures row * COLUMNS + column == slot <==> row == slot / COLUMNS && column == slot % COLUMNS
  {}

  /** What a sprite shows at one of its pixels. */
  function Seen(sprite: Sprite, p: nat): Color {
    if sprite.Drawn? && Shown(sprite.pixels, p).Some? then Shown(sprite.pixels, p).value else CLEAR
  }

  /** The page whose slots hold the given sprites, the other slots clear. */
  function PageOf(sprites: seq<Sprite>): (page: seq<Color>)
    ensures |page| == ATLAS_PIXELS
  {
    seq(ATLAS_PIXELS, i requires 0 <= i < ATLAS_PIXELS => PagePixel(sprites, i))
  }

  function PagePixel(sprites: seq<Sprite>, i: nat): Color {
    var slot := SlotOf(i);
    SlotsPartition(slot, i);
    if slot < |sprites| then Seen(sprites[slot], PixelAt(SlotX(slot), SlotY(slot), i)) else CLEAR
  }

  /** The page after painting a sprite into a slot of it. */
  function PaintedInto(page: seq<Color>, slot: nat, sprite: Sprite): (after: seq<Color>)
    ensures |after| == |page|
  {
    if sprite.Drawn? then Blit(page, SlotX(slot), SlotY(slot), sprite.pixels) else page
  }

  lemma PageGrows(sprites: seq<Sprite>, sprite: Sprite)
    ensures PageOf(sprites + [sprite]) == PaintedInto(PageOf(sprites), |sprites|, sprite)
  {
    var n := |sprites|;
    forall i | 0 <= i < ATLAS_PIXELS
      ensures PagePixel(sprites + [sprite], i) == PaintedInto(PageOf(sprites), n, sprite)[i]
    {
      SlotsPartition(n, i);
    }
  }

  lemma EmptyPage(page: seq<Color>)
    requires |page| == ATLAS_PIXELS && forall i :: 0 <= i < |page| ==> page[i] == CLEAR
    ensures page == PageOf([])
  {}

  datatype Record = Record(id: nat, page: nat, x: nat, y: nat, available: bool)

  /** The sprites start at id 1: entry `id - 1` of the table of offsets is theirs. */
  function OffsetOf(source: seq<Byte>, id: nat): nat
    requires id > 0 && 8 + id * 4 <= |source|
  {
    U32At(source, 8 + (id - 1) * 4)
  }

  function SpriteOf(source: seq<Byte>, id: nat, hasAlpha: bool): Sprite
    requires id > 0 && 8 + id * 4 <= |source|
  {
    SpriteAt(source, OffsetOf(source, id), hasAlpha)
  }

  function SpritesFrom(source: seq<Byte>, first: nat, count: nat, hasAlpha: bool): (sprites: seq<Sprite>)
    requires first > 0 && 8 + (first + count - 1) * 4 <= |source|
    ensures |sprites| == count
  {
    seq(count, k requires 0 <= k < count => SpriteOf(source, first + k, hasAlpha))
  }

  function RecordOf(source: seq<Byte>, id: nat, hasAlpha: bool): Record
    requires id > 0 && 8 + id * 4 <= |source|
  {
    var slot := (id - 1) % PAGE_SIZE;
    Record(id, (id - 1) / PAGE_SIZE, SlotX(slot), SlotY(slot), OffsetOf(source, id) != 0)
  }

  function RecordsFrom(source: seq<Byte>, first: nat, count: nat, hasAlpha: bool): (records: seq<Record>)
    requires first > 0 && 8 + (first + count - 1) * 4 <= |source|
    ensures |records| == count
  {
    seq(count, k requires 0 <= k < count => RecordOf(source, first + k, hasAlpha))
  }

  function Available(records: seq<Record>): nat {
    if records == [] then 0 else Available(records[..|records| - 1]) + if records[|records| - 1].available then 1 else 0
  }

  /** Paints one page; an error at the first broken sprite. */
  method PaintPage(source: seq<Byte>, page: nat, count: nat, hasAlpha: bool)
    returns (result: Result<seq<Color>, Error>, records: seq<Record>, available: nat)
    requires count <= PAGE_SIZE && 8 + (page * PAGE_SIZE + count) * 4 <= |source|
    ensures var sprites := SpritesFrom(source, page * PAGE_SIZE + 1, count, hasAlpha);
      && (result.Err? <==> Broken in sprites)
      && (result.Ok? ==> result.value == PageOf(sprites))
    ensures result.Ok? ==> records == RecordsFrom(source, page * PAGE_SIZE + 1, count, hasAlpha)
    ensures result.Ok? ==> available == Available(records)
  {
    hide U16At, U32At, SpriteAt, PagePixel, Blit, SlotX, SlotY;
    var pixels := new Color[ATLAS_PIXELS](_ => CLEAR);
    EmptyPage(pixels[..]);
    var first := page * PAGE_SIZE + 1;
    ghost var sprites := SpritesFrom(source, first, count, hasAlpha);
    records, available := [], 0;
    for slot := 0 to count
      invariant pixels[..] == PageOf(sprites[..slot])
      invariant Broken !in sprites[..slot]
      invariant records == RecordsFrom(source, first, slot, hasAlpha) && available == Available(records)
    {
      var id := first + slot;
      var offset := OffsetOf(source, id);
      SlotsPartition(slot, 0);
      ghost var sprite := SpriteAt(source, offset, hasAlpha);
      assert sprites[slot] == SpriteOf(source, id, hasAlpha) == sprite;
      var painted := PaintLegacySprite(source, offset, pixels, SlotX(slot), SlotY(slot), hasAlpha);
      if painted.Err? {
        assert sprites[slot] in sprites;
        return Err(painted.error), records, available;
      }
      PageGrows(sprites[..slot], sprite);
      assert sprites[..slot + 1] == sprites[..slot] + [sprite];
      assert SlotInPage(page, slot, id);
      records := records + [Record(id, page, SlotX(slot), SlotY(slot), painted.value)];
      assert records[slot] == RecordOf(source, id, hasAlpha);
      available := if painted.value then available + 1 else available;
      assert records[..slot] == RecordsFrom(source, first, slot, hasAlpha);
    }
    assert sprites[..count] == sprites;
    result := Ok(pixels[..]);
  }

  predicate SlotInPage(page: nat, slot: nat, id: nat) { (id - 1) / PAGE_SIZE == page && (id - 1) % PAGE_SIZE == slot }

  // ---------------------------------------------------------------- the whole library

  datatype Library = Library(pages: seq<seq<Color>>, records: seq<Record>, available: nat)

  predicate HeaderIsSound(source: seq<Byte>) {
    |source| >= 8 && U32At(source, 4) != 0 && 8 + U32At(source, 4) * 4 <= |source|
  }

  function PageCount(count: nat): nat { (count + PAGE_SIZE - 1) / PAGE_SIZE }

  /** How many of the `count` sprites are on a page. */
  function OnPage(count: nat, page: nat): (n: nat)
    requires page < PageCount(count)
    ensures 0 < n <= PAGE_SIZE && page * PAGE_SIZE + n <= count
    ensures page + 1 == PageCount(count) ==> page * PAGE_SIZE + n == count
    ensures page + 1 < PageCount(count) ==> n == PAGE_SIZE
  {
    if count - page * PAGE_SIZE <= PAGE_SIZE then count - page * PAGE_SIZE else PAGE_SIZE
  }

  ghost predicate AnyBroken(source: seq<Byte>, first: nat, count: nat, hasAlpha: bool)
    requires first > 0 && 8 + (first + count - 1) * 4 <= |source|
  {
    Broken in SpritesFrom(source, first, count, hasAlpha)
  }

  /** The pages hold the sprites, page after page, and there is one record for each. */
  ghost predicate Holds(library: Library, source: seq<Byte>, hasAlpha: bool)
    requires HeaderIsSound(source)
  {
    var count := U32At(source, 4);
    && |library.pages| == PageCount(count)
    && (forall k :: 0 <= k < |library.pages| ==>
         library.pages[k] == PageOf(SpritesFrom(source, k * PAGE_SIZE + 1, OnPage(count, k), hasAlpha)))
    && library.records == RecordsFrom(source, 1, count, hasAlpha)
    && library.available == Available(library.records)
  }

  lemma {:induction false} AvailableAppend(a: seq<Record>, b: seq<Record>)
    ensures Available(a + b) == Available(a) + Available(b)
  {
    if b == [] {
      assert a + b == a;
    } else {
      var n := |b| - 1;
      AvailableAppend(a, b[..n]);
      assert (a + b)[..|a + b| - 1] == a + b[..n];
    }
  }

  lemma FromAppend(source: seq<Byte>, done: nat, n: nat, hasAlpha: bool)
    requires 8 + (done + n) * 4 <= |source|
    ensures RecordsFrom(source, 1, done + n, hasAlpha)
         == RecordsFrom(source, 1, done, hasAlpha) + RecordsFrom(source, done + 1, n, hasAlpha)
    ensures SpritesFrom(source, 1, done + n, hasAlpha)
         == SpritesFrom(source, 1, done, hasAlpha) + SpritesFrom(source, done + 1, n, hasAlpha)
  {
    hide RecordOf, SpriteOf;
  }

  method BuildLegacySpriteLibrary(source: seq<Byte>, hasAlpha: bool) returns (result: Result<Library, Error>)
    ensures !HeaderIsSound(source) ==> result == Err(BadHeader)
    ensures HeaderIsSound(source) ==>
      && (result.Err? <==> AnyBroken(source, 1, U32At(source, 4), hasAlpha))
      && (result.Ok? ==> Holds(result.value, source, hasAlpha))
  {
    hide U16At, U32At, PageOf, RecordsFrom, SpritesFrom, Available, PageCount, OnPage;
    if |source| < 8 { return Err(BadHeader); }
    var spriteCount := U32At(source, 4);
    if spriteCount == 0 || 8 + spriteCount * 4 > |source| { return Err(BadHeader); }
    Pages(spriteCount);
    NoSprites(source, hasAlpha);
    var pages, records, available: nat := [], [], 0;
    ghost var done: nat := 0;
    for page := 0 to PageCount(spriteCount)
      invariant |pages| == page && done <= spriteCount
      invariant done == if page == PageCount(spriteCount) then spriteCount else page * PAGE_SIZE
      invariant forall k :: 0 <= k < page ==>
          pages[k] == PageOf(SpritesFrom(source, k * PAGE_SIZE + 1, OnPage(spriteCount, k), hasAlpha))
      invariant !AnyBroken(source, 1, done, hasAlpha)
      invariant records == RecordsFrom(source, 1, done, hasAlpha) && available == Available(records)
    {
      var n := OnPage(spriteCount, page);
      FromAppend(source, done, n, hasAlpha);
      FromAppend(source, done + n, spriteCount - done - n, hasAlpha);
      var painted, more, count := PaintPage(source, page, n, hasAlpha);
      if painted.Err? { return Err(painted.error); }
      AvailableAppend(records, more);
      pages := pages + [painted.value];
      records := records + more;
      available := available + count;
      done := done + n;
    }
    result := Ok(Library(pages, records, available));
  }

  lemma Pages(count: nat)
    requires count > 0
    ensures PageCount(count) > 0
  {}

  lemma NoSprites(source: seq<Byte>, hasAlpha: bool)
    requires |source| >= 8
    ensures RecordsFrom(source, 1, 0, hasAlpha) == [] && Available([]) == 0 && SpritesFrom(source, 1, 0, hasAlpha) == []
  {}

  // ---------------------------------------------------------------- results

  /** Every sprite is where its record says, pixel by pixel, and available exactly when it has an offset. */
  lemma SpriteIsWhereRecorded(library: Library, source: seq<Byte>, hasAlpha: bool, id: nat, p: nat)
    requires HeaderIsSound(source) && Holds(library, source, hasAlpha)
    requires 1 <= id <= U32At(source, 4) && p < PIXELS
    ensures |library.records| == U32At(source, 4)
    ensures var r := library.records[id - 1];
      && r.id == id && (r.available <==> OffsetOf(source, id) != 0)
      && r.page < |library.pages| && r.x + SIDE <= ATLAS_WIDTH
      && Place(r.x, r.y, p) < |library.pages[r.page]|
      && library.pages[r.page][Place(r.x, r.y, p)] == Seen(SpriteOf(source, id, hasAlpha), p)
  {
    var count := U32At(source, 4);
    var page, slot := (id - 1) / PAGE_SIZE, (id - 1) % PAGE_SIZE;
    hide U32At, Place, SlotX, SlotY, PixelAt, SpriteAt;
    assert library.records[id - 1] == RecordOf(source, id, hasAlpha);
    SlotsPartition(slot, 0);
    var x, y := SlotX(slot), SlotY(slot);
    PlaceFits(x, y, p, ATLAS_PIXELS);
    var i := Place(x, y, p);
    SlotsPartition(slot, i);
    PlaceInverts(x, y, p);
    assert SlotOf(i) == slot;
    PageHasId(count, page, slot, id);
    var sprites := SpritesFrom(source, page * PAGE_SIZE + 1, OnPage(count, page), hasAlpha);
    assert library.pages[page] == PageOf(sprites);
    assert sprites[slot] == SpriteOf(source, id, hasAlpha);
    assert PageOf(sprites)[i] == PagePixel(sprites, i);
  }

  lemma PageHasId(count: nat, page: nat, slot: nat, id: nat)
    requires 1 <= id <= count && page == (id - 1) / PAGE_SIZE && slot == (id - 1) % PAGE_SIZE
    ensures page < PageCount(count) && slot < OnPage(count, page) && page * PAGE_SIZE + 1 + slot == id
  {}

  predicate Within(order: seq<nat>, n: nat) { forall k :: 0 <= k < |order| ==> order[k] < n }

  /** Painting sprites of a page into their slots in some order, perhaps some more than once. */
  function PaintedInOrder(page: seq<Color>, sprites: seq<Sprite>, order: seq<nat>): (after: seq<Color>)
    requires Within(order, |sprites|)
    ensures |after| == |page|
    decreases |order|
  {
    if order == [] then page
    else PaintedInOrder(PaintedInto(page, order[0], sprites[order[0]]), sprites, order[1..])
  }

  lemma {:induction false} PixelInOrder(page: seq<Color>, sprites: seq<Sprite>, order: seq<nat>, i: nat)
    requires Within(order, |sprites|)
    requires i < |page|
    ensures var slot := SlotOf(i);
      PaintedInOrder(page, sprites, order)[i] ==
        if slot in order && slot < |sprites| && sprites[slot].Drawn? && InSlot(SlotX(slot), SlotY(slot), i)
        then Over(page[i], SlotX(slot), SlotY(slot), sprites[slot].pixels, i) else page[i]
    decreases |order|
  {
    if order != [] {
      var slot := order[0];
      SlotsPartition(slot, i);
      SlotsPartition(SlotOf(i), i);
      hide SlotX, SlotY, InSlot, SlotOf, PixelAt;
      PixelInOrder(PaintedInto(page, slot, sprites[slot]), sprites, order[1..], i);
    }
  }

  /** The finished page is the same for every order of painting that reaches every slot. */
  lemma OrderDoesNotMatter(sprites: seq<Sprite>, order: seq<nat>)
    requires Within(order, |sprites|) && forall slot: nat :: slot < |sprites| ==> slot in order
    ensures PaintedInOrder(PageOf([]), sprites, order) == PageOf(sprites)
  {
    var page := PaintedInOrder(PageOf([]), sprites, order);
    forall i | 0 <= i < ATLAS_PIXELS ensures page[i] == PagePixel(sprites, i) {
      SlotsPartition(SlotOf(i), i);
      hide SlotX, SlotY, InSlot, SlotOf, PixelAt;
      PixelInOrder(PageOf([]), sprites, order, i);
    }
  }
}
