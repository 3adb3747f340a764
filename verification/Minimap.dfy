/** The world's minimap: six levels of blocks, each level joining two by two pixels of the one below. */
module Minimap {
  import opened Wrappers
  import opened Numbers

  const BLOCK := 256
  const HALF := 128
  const LEVELS := 6

  datatype BlockKey = BlockKey(z: nat, column: nat, row: nat)

  /** What a level shows: one colour per pixel, 0 for none. */
  type Picture = map<BlockKey, seq<int>>

  function Index(x: nat, y: nat): nat { y * BLOCK + x }

  predicate Sized(picture: Picture) {
    forall k :: k in picture ==> |picture[k]| == BLOCK * BLOCK
  }

  function PixelAt(picture: Picture, z: nat, x: nat, y: nat): int
    requires Sized(picture)
  {
    var key := BlockKey(z, x / BLOCK, y / BLOCK);
    if key in picture then picture[key][Index(x % BLOCK, y % BLOCK)] else 0
  }

  // ---------------------------------------------------------------- the colour of a tile, painted sector by sector

  datatype Tile = Tile(x: nat, y: nat, ground: nat, items: seq<nat>)

  /** The colour of the topmost object that has one, else the ground's. */
  function TileColour(ground: nat, items: seq<nat>, colourOf: nat -> Option<int>): int {
    if items == [] then
      if ground > 0 && colourOf(ground).Some? then colourOf(ground).value else 0
    else
      var top := colourOf(items[|items| - 1]);
      if top.Some? && top.value > 0 then top.value else TileColour(ground, items[..|items| - 1], colourOf)
  }

  datatype Sector = Sector(z: nat, sx: nat, sy: nat, tiles: seq<Tile>)

  predicate ValidSector(s: Sector) {
    forall i :: 0 <= i < |s.tiles| ==> s.tiles[i].x < SECTOR_SIZE && s.tiles[i].y < SECTOR_SIZE
  }

  datatype Dot = Dot(z: nat, x: nat, y: nat, colour: int)

  function DotOf(s: Sector, t: Tile, colourOf: nat -> Option<int>): Dot {
    Dot(s.z, s.sx * SECTOR_SIZE + t.x, s.sy * SECTOR_SIZE + t.y, TileColour(t.ground, t.items, colourOf))
  }

  function Dots(s: Sector, count: nat, colourOf: nat -> Option<int>): seq<Dot>
    requires count <= |s.tiles|
  {
    if count == 0 then [] else Dots(s, count - 1, colourOf) + [DotOf(s, s.tiles[count - 1], colourOf)]
  }

  function AllDots(sectors: seq<Sector>, colourOf: nat -> Option<int>): seq<Dot> {
    if sectors == [] then []
    else AllDots(sectors[..|sectors| - 1], colourOf) + Dots(sectors[|sectors| - 1], |sectors[|sectors| - 1].tiles|, colourOf)
  }

  /** The base colour of a place: the last dot with a colour painted there, as one byte. */
  function BaseColour(dots: seq<Dot>, z: nat, x: nat, y: nat): int {
    if dots == [] then 0
    else
      var last := dots[|dots| - 1];
      if last.z == z && last.x == x && last.y == y && last.colour != 0 then last.colour % 256
      else BaseColour(dots[..|dots| - 1], z, x, y)
  }

  // ---------------------------------------------------------------- the direct definition of a level

  function FirstOf(a: int, b: int, c: int, d: int): int {
    if a != 0 then a else if b != 0 then b else if c != 0 then c else d
  }

  /** The base places under a pixel, in quadtree order. */
  function Square(level: nat, x: nat, y: nat): seq<(nat, nat)> {
    if level == 0 then [(x, y)]
    else
      Square(level - 1, 2 * x, 2 * y) + Square(level - 1, 2 * x + 1, 2 * y)
      + Square(level - 1, 2 * x, 2 * y + 1) + Square(level - 1, 2 * x + 1, 2 * y + 1)
  }

  function FirstColour(dots: seq<Dot>, z: nat, places: seq<(nat, nat)>): int {
    if places == [] then 0
    else
      var c := BaseColour(dots, z, places[0].0, places[0].1);
      if c != 0 then c else FirstColour(dots, z, places[1..])
  }

  /** The picture of a level: every pixel is the first colour of its square of base places. */
  ghost predicate Shows(picture: Picture, dots: seq<Dot>, level: nat) {
    Sized(picture) && forall z, x, y :: PixelAt(picture, z, x, y) == FirstColour(dots, z, Square(level, x, y))
  }

  lemma HalfOf(v: nat, n: nat)
    requires n > 0
    ensures v / Power2(n) == (v / Power2(n - 1)) / 2
  {
    DivideTwice(v, Power2(n - 1));
  }

  lemma DivideTwice(v: nat, d: nat)
    requires d > 0
    ensures v / (2 * d) == (v / d) / 2
  {
    var q, r := v / d, v % d;
    var h, b := q / 2, q % 2;
    assert v == q * d + r;
    assert q * d == (2 * h + b) * d == h * (2 * d) + b * d;
    assert b * d <= d;
    QuotientIs(v, 2 * d, h, b * d + r);
  }

  lemma MulMonotone(a: nat, b: nat, d: nat)
    requires a <= b
    ensures a * d <= b * d
  {
    assert b * d == a * d + (b - a) * d;
  }

  lemma QuotientIs(v: nat, d: nat, q: nat, r: nat)
    requires v == q * d + r && r < d
    ensures v / d == q
  {
    var q1, r1 := v / d, v % d;
    assert v == q1 * d + r1;
    assert (q1 + 1) * d == q1 * d + d && (q + 1) * d == q * d + d;
    if q1 < q {
      MulMonotone(q1 + 1, q, d);
    } else if q < q1 {
      MulMonotone(q + 1, q1, d);
    }
  }

  lemma Halved(p: int, x: nat)
    ensures p / 2 == x <==> p == 2 * x || p == 2 * x + 1
  {}

  /** A coordinate `n` levels up. */
  function Scaled(v: nat, n: nat): int { v / Power2(n) }

  lemma ScaledZero(v: nat)
    ensures Scaled(v, 0) == v
  {}

  lemma ScaledHalves(v: nat, n: nat)
    requires n > 0
    ensures Scaled(v, n) == Scaled(v, n - 1) / 2
  {
    HalfOf(v, n);
  }

  lemma FourSquares(level: nat, x: nat, y: nat, place: (nat, nat))
    ensures place in Square(level + 1, x, y) <==>
      || place in Square(level, 2 * x, 2 * y) || place in Square(level, 2 * x + 1, 2 * y)
      || place in Square(level, 2 * x, 2 * y + 1) || place in Square(level, 2 * x + 1, 2 * y + 1)
  {}

  /** A place is in the square of a pixel when it is in one of the four squares below. */
  lemma SquareStep(level: nat, x: nat, y: nat, place: (nat, nat), p: int, q: int)
    requires place in Square(level, 2 * x, 2 * y) <==> p == 2 * x && q == 2 * y
    requires place in Square(level, 2 * x + 1, 2 * y) <==> p == 2 * x + 1 && q == 2 * y
    requires place in Square(level, 2 * x, 2 * y + 1) <==> p == 2 * x && q == 2 * y + 1
    requires place in Square(level, 2 * x + 1, 2 * y + 1) <==> p == 2 * x + 1 && q == 2 * y + 1
    ensures place in Square(level + 1, x, y) <==> p / 2 == x && q / 2 == y
  {
    FourSquares(level, x, y, place);
    hide Square;
    Halved(p, x);
    Halved(q, y);
  }

  lemma {:induction false} SquareIsScaled(level: nat, x: nat, y: nat, u: nat, v: nat)
    ensures (u, v) in Square(level, x, y) <==> Scaled(u, level) == x && Scaled(v, level) == y
  {
    hide Scaled;
    if level == 0 {
      ScaledZero(u);
      ScaledZero(v);
    } else {
      hide Square;
      ScaledHalves(u, level);
      ScaledHalves(v, level);
      SquareIsScaled(level - 1, 2 * x, 2 * y, u, v);
      SquareIsScaled(level - 1, 2 * x + 1, 2 * y, u, v);
      SquareIsScaled(level - 1, 2 * x, 2 * y + 1, u, v);
      SquareIsScaled(level - 1, 2 * x + 1, 2 * y + 1, u, v);
      SquareStep(level - 1, x, y, (u, v), Scaled(u, level - 1), Scaled(v, level - 1));
    }
  }

  /** The square of a pixel is exactly the places whose coordinates scale down to it. */
  lemma SquareIs(level: nat, x: nat, y: nat, u: nat, v: nat)
    ensures (u, v) in Square(level, x, y) <==> u / Power2(level) == x && v / Power2(level) == y
  {
    SquareIsScaled(level, x, y, u, v);
    hide Square;
  }

  lemma {:induction false} FirstColourConcat(dots: seq<Dot>, z: nat, a: seq<(nat, nat)>, b: seq<(nat, nat)>)
    ensures FirstColour(dots, z, a + b)
         == if FirstColour(dots, z, a) != 0 then FirstColour(dots, z, a) else FirstColour(dots, z, b)
  {
    if a == [] {
      assert a + b == b;
    } else {
      assert (a + b)[1..] == a[1..] + b;
      FirstColourConcat(dots, z, a[1..], b);
    }
  }

  /** Joining four pixels takes the first colour of the four squares in a row. */
  lemma JoinSquares(dots: seq<Dot>, z: nat, level: nat, x: nat, y: nat)
    ensures FirstColour(dots, z, Square(level + 1, x, y))
         == FirstOf(FirstColour(dots, z, Square(level, 2 * x, 2 * y)), FirstColour(dots, z, Square(level, 2 * x + 1, 2 * y)),
                    FirstColour(dots, z, Square(level, 2 * x, 2 * y + 1)),
                    FirstColour(dots, z, Square(level, 2 * x + 1, 2 * y + 1)))
  {
    var a, b := Square(level, 2 * x, 2 * y), Square(level, 2 * x + 1, 2 * y);
    var c, d := Square(level, 2 * x, 2 * y + 1), Square(level, 2 * x + 1, 2 * y + 1);
    FirstColourConcat(dots, z, a, b);
    FirstColourConcat(dots, z, a + b, c);
    FirstColourConcat(dots, z, a + b + c, d);
  }

  lemma {:induction false} FirstColourEmpty(dots: seq<Dot>, z: nat, places: seq<(nat, nat)>)
    ensures FirstColour(dots, z, places) == 0 <==> forall p :: p in places ==> BaseColour(dots, z, p.0, p.1) == 0
  {
    if places != [] { FirstColourEmpty(dots, z, places[1..]); }
  }

  /** A pixel is empty exactly when every base place of its square is. */
  lemma EmptyIffSquareEmpty(picture: Picture, dots: seq<Dot>, level: nat, z: nat, x: nat, y: nat)
    requires Shows(picture, dots, level)
    ensures PixelAt(picture, z, x, y) == 0 <==>
            forall u: nat, v: nat :: u / Power2(level) == x && v / Power2(level) == y ==> BaseColour(dots, z, u, v) == 0
  {
    var places := Square(level, x, y);
    FirstColourEmpty(dots, z, places);
    forall u: nat, v: nat ensures (u, v) in places <==> u / Power2(level) == x && v / Power2(level) == y {
      SquareIs(level, x, y, u, v);
    }
    if forall u: nat, v: nat :: u / Power2(level) == x && v / Power2(level) == y ==> BaseColour(dots, z, u, v) == 0 {
      forall p | p in places ensures BaseColour(dots, z, p.0, p.1) == 0 { assert p == (p.0, p.1); }
    } else {
      var u: nat, v: nat :| u / Power2(level) == x && v / Power2(level) == y && BaseColour(dots, z, u, v) != 0;
      assert (u, v) in places;
    }
  }

  // ---------------------------------------------------------------- blocks in memory

  /** A level in memory: one buffer per block, no buffer shared. */
  ghost predicate Distinct(level: map<BlockKey, array<int>>) {
    && (forall k :: k in level ==> level[k].Length == BLOCK * BLOCK)
    && forall a, b :: a in level && b in level && a != b ==> level[a] != level[b]
  }

  ghost function Contents(level: map<BlockKey, array<int>>): (picture: Picture)
    requires Distinct(level)
    reads level.Values
    ensures Sized(picture) && picture.Keys == level.Keys
  {
    map k | k in level :: level[k][..]
  }

  /** The first colour of the two by two pixels of a block that end up at (x, y) of its quadrant. */
  function Joined(p: seq<int>, x: nat, y: nat): int
    requires |p| == BLOCK * BLOCK && x < HALF && y < HALF
  {
    var i := y * 2 * BLOCK + x * 2;
    FirstOf(p[i], p[i + 1], p[i + BLOCK], p[i + BLOCK + 1])
  }

  /** The parent's pixel (x, y) once the block is joined into the quadrant whose corner is (ox, oy). */
  function Quadrant(p: seq<int>, ox: nat, oy: nat, before: int, x: nat, y: nat): int
    requires |p| == BLOCK * BLOCK
  {
    if ox <= x < ox + HALF && oy <= y < oy + HALF && Joined(p, x - ox, y - oy) != 0 then Joined(p, x - ox, y - oy) else before
  }

  lemma IndexInjective(x: nat, y: nat, u: nat, v: nat)
    requires x < BLOCK && u < BLOCK && Index(x, y) == Index(u, v)
    ensures x == u && y == v
  {}

  method JoinBlock(p: array<int>, parent: array<int>, ox: nat, oy: nat)
    requires p.Length == BLOCK * BLOCK && parent.Length == BLOCK * BLOCK && p != parent
    requires ox <= HALF && oy <= HALF
    modifies parent
    ensures forall x, y :: 0 <= x < BLOCK && 0 <= y < BLOCK ==>
              parent[Index(x, y)] == Quadrant(p[..], ox, oy, old(parent[Index(x, y)]), x, y)
  {
    for y := 0 to HALF
      invariant forall u, v :: 0 <= u < BLOCK && 0 <= v < BLOCK ==>
        parent[Index(u, v)] == if v < oy + y then Quadrant(p[..], ox, oy, old(parent[Index(u, v)]), u, v)
                               else old(parent[Index(u, v)])
    {
      for x := 0 to HALF
        invariant forall u, v :: 0 <= u < BLOCK && 0 <= v < BLOCK ==>
          parent[Index(u, v)] == if v < oy + y || (v == oy + y && u < ox + x)
                                 then Quadrant(p[..], ox, oy, old(parent[Index(u, v)]), u, v) else old(parent[Index(u, v)])
      {
        var i := y * 2 * BLOCK + x * 2;
        var colour := FirstOf(p[i], p[i + 1], p[i + BLOCK], p[i + BLOCK + 1]);
        assert colour == Joined(p[..], x, y);
        if colour != 0 {
          forall u, v | 0 <= u < BLOCK && 0 <= v < BLOCK && Index(u, v) == Index(ox + x, oy + y)
            ensures u == ox + x && v == oy + y
          {
            IndexInjective(u, v, ox + x, oy + y);
          }
          parent[(oy + y) * BLOCK + ox + x] := colour;
        }
      }
    }
  }

  // ---------------------------------------------------------------- one level up

  function FourAt(picture: Picture, z: nat, x: nat, y: nat): int
    requires Sized(picture)
  {
    FirstOf(PixelAt(picture, z, 2 * x, 2 * y), PixelAt(picture, z, 2 * x + 1, 2 * y),
            PixelAt(picture, z, 2 * x, 2 * y + 1), PixelAt(picture, z, 2 * x + 1, 2 * y + 1))
  }

  /** The block a pixel of the next level is joined from, and the block that receives a block. */
  function SourceOf(z: nat, x: nat, y: nat): BlockKey { BlockKey(z, 2 * x / BLOCK, 2 * y / BLOCK) }

  function ParentOf(k: BlockKey): BlockKey { BlockKey(k.z, k.column / 2, k.row / 2) }

  /** `above` joins the blocks of `below` that are no longer in `todo`. */
  ghost predicate Joining(above: Picture, below: Picture, todo: set<BlockKey>) {
    && Sized(above) && Sized(below)
    && forall z, x, y :: PixelAt(above, z, x, y) == if SourceOf(z, x, y) in todo then 0 else FourAt(below, z, x, y)
  }

  lemma FourFromOneBlock(below: Picture, z: nat, x: nat, y: nat)
    requires Sized(below)
    ensures var k := SourceOf(z, x, y);
            FourAt(below, z, x, y) == if k in below then Joined(below[k], x % HALF, y % HALF) else 0
  {
    assert (2 * x + 1) / BLOCK == 2 * x / BLOCK && (2 * y + 1) / BLOCK == 2 * y / BLOCK;
    assert 2 * x % BLOCK == 2 * (x % HALF) && (2 * x + 1) % BLOCK == 2 * (x % HALF) + 1;
    assert 2 * y % BLOCK == 2 * (y % HALF) && (2 * y + 1) % BLOCK == 2 * (y % HALF) + 1;
  }

  lemma SourceInQuadrant(k: BlockKey, z: nat, x: nat, y: nat)
    ensures var ox, oy := (k.column - k.column / 2 * 2) * HALF, (k.row - k.row / 2 * 2) * HALF;
            SourceOf(z, x, y) == k <==>
            BlockKey(z, x / BLOCK, y / BLOCK) == ParentOf(k) && ox <= x % BLOCK < ox + HALF && oy <= y % BLOCK < oy + HALF
    ensures var ox, oy := (k.column - k.column / 2 * 2) * HALF, (k.row - k.row / 2 * 2) * HALF;
            SourceOf(z, x, y) == k ==> x % BLOCK - ox == x % HALF && y % BLOCK - oy == y % HALF
  {
    QuadrantAxis(k.column, x);
    QuadrantAxis(k.row, y);
  }

  lemma QuadrantAxis(c: nat, v: nat)
    ensures var o := (c - c / 2 * 2) * HALF;
            2 * v / BLOCK == c <==> v / BLOCK == c / 2 && o <= v % BLOCK < o + HALF
    ensures var o := (c - c / 2 * 2) * HALF;
            2 * v / BLOCK == c ==> v % BLOCK - o == v % HALF
  {
    var q, r := v / BLOCK, v % BLOCK;
    var h, s := r / HALF, r % HALF;
    assert h < 2 && r == h * HALF + s && v == q * BLOCK + h * HALF + s;
    assert 2 * v == (2 * q + h) * BLOCK + 2 * s && 2 * s < BLOCK;
    assert 2 * v / BLOCK == 2 * q + h;
    assert v == (2 * q + h) * HALF + s;
    assert v % HALF == s;
    var d := c - c / 2 * 2;
    assert d < 2 && c == c / 2 * 2 + d;
  }

  ghost predicate JoinsBlock(after: Picture, before: Picture, below: Picture, k: BlockKey)
    requires Sized(after) && Sized(before) && Sized(below) && k in below
  {
    var ox, oy := (k.column - k.column / 2 * 2) * HALF, (k.row - k.row / 2 * 2) * HALF;
    forall z: nat, x: nat, y: nat :: PixelAt(after, z, x, y) ==
      if BlockKey(z, x / BLOCK, y / BLOCK) == ParentOf(k)
      then Quadrant(below[k], ox, oy, PixelAt(before, z, x, y), x % BLOCK, y % BLOCK) else PixelAt(before, z, x, y)
  }

  /** Where the block is the pixel's source, its first colour wins over an empty pixel; elsewhere nothing changes. */
  lemma PixelAfter(above: Picture, after: Picture, below: Picture, k: BlockKey, z: nat, x: nat, y: nat)
    requires Sized(above) && Sized(below) && k in below && Sized(after) && JoinsBlock(after, above, below, k)
    ensures SourceOf(z, x, y) != k ==> PixelAt(after, z, x, y) == PixelAt(above, z, x, y)
    ensures SourceOf(z, x, y) == k && PixelAt(above, z, x, y) == 0 ==>
        PixelAt(after, z, x, y) == Joined(below[k], x % HALF, y % HALF)
  {
    SourceInQuadrant(k, z, x, y);
    hide PixelAt, Joined, SourceOf, ParentOf;
  }

  lemma JoinStepAt(above: Picture, after: Picture, below: Picture, todo: set<BlockKey>, k: BlockKey, z: nat, x: nat, y: nat)
    requires Joining(above, below, todo) && k in todo && k in below && Sized(after) && JoinsBlock(after, above, below, k)
    ensures PixelAt(after, z, x, y) == if SourceOf(z, x, y) in todo - {k} then 0 else FourAt(below, z, x, y)
  {
    PixelAfter(above, after, below, k, z, x, y);
    FourFromOneBlock(below, z, x, y);
    hide FourAt, PixelAt, Joined, SourceOf, ParentOf, JoinsBlock;
  }

  lemma JoinStep(above: Picture, after: Picture, below: Picture, todo: set<BlockKey>, k: BlockKey)
    requires Joining(above, below, todo) && k in todo && k in below && Sized(after) && JoinsBlock(after, above, below, k)
    ensures Joining(after, below, todo - {k})
  {
    hide FourAt, PixelAt, JoinsBlock;
    forall z: nat, x: nat, y: nat
      ensures PixelAt(after, z, x, y) == if SourceOf(z, x, y) in todo - {k} then 0 else FourAt(below, z, x, y)
    {
      JoinStepAt(above, after, below, todo, k, z, x, y);
    }
  }

  lemma NothingJoined(below: Picture)
    requires Sized(below)
    ensures Joining(map[], below, below.Keys)
  {
    forall z, x, y ensures PixelAt(map[], z, x, y) == if SourceOf(z, x, y) in below.Keys then 0 else FourAt(below, z, x, y) {
      FourFromOneBlock(below, z, x, y);
    }
  }

  lemma FourShow(below: Picture, dots: seq<Dot>, level: nat, z: nat, x: nat, y: nat)
    requires Shows(below, dots, level)
    ensures FourAt(below, z, x, y) == FirstColour(dots, z, Square(level + 1, x, y))
  {
    JoinSquares(dots, z, level, x, y);
    hide PixelAt;
  }

  /** Joining every block takes the picture of a level to the picture of the next. */
  lemma JoinedShowsNext(above: Picture, below: Picture, dots: seq<Dot>, level: nat)
    requires Joining(above, below, {}) && Shows(below, dots, level)
    ensures Shows(above, dots, level + 1)
  {
    hide PixelAt, FourAt;
    forall z: nat, x: nat, y: nat ensures PixelAt(above, z, x, y) == FirstColour(dots, z, Square(level + 1, x, y)) {
      assert SourceOf(z, x, y) !in {};
      FourShow(below, dots, level, z, x, y);
    }
  }

  lemma BlockJoined(before: Picture, after: Picture, below: Picture, k: BlockKey, pixels: seq<int>)
    requires Sized(before) && Sized(below) && k in below && |pixels| == BLOCK * BLOCK
    requires after == before[ParentOf(k) := pixels]
    requires var ox, oy := (k.column - k.column / 2 * 2) * HALF, (k.row - k.row / 2 * 2) * HALF;
             forall x, y :: 0 <= x < BLOCK && 0 <= y < BLOCK ==>
               pixels[Index(x, y)] == Quadrant(below[k], ox, oy,
                 if ParentOf(k) in before then before[ParentOf(k)][Index(x, y)] else 0, x, y)
    ensures Sized(after) && JoinsBlock(after, before, below, k)
  {}

  lemma NewParent(above: Picture, below: Picture, todo: set<BlockKey>, k: BlockKey, empty: seq<int>)
    requires Joining(above, below, todo) && k !in above
    requires |empty| == BLOCK * BLOCK && forall i :: 0 <= i < |empty| ==> empty[i] == 0
    ensures Joining(above[k := empty], below, todo)
  {
    var after := above[k := empty];
    forall z: nat, x: nat, y: nat ensures PixelAt(after, z, x, y) == PixelAt(above, z, x, y) {}
    hide PixelAt, FourAt;
  }

  lemma ContentsWith(level: map<BlockKey, array<int>>, key: BlockKey, block: array<int>)
    requires Distinct(level) && block.Length == BLOCK * BLOCK && forall k :: k in level && k != key ==> level[k] != block
    ensures Distinct(level[key := block]) && Contents(level[key := block]) == Contents(level)[key := block[..]]
  {}

  /** Joining one block into its parent changes only that parent's picture. */
  method JoinIntoParent(p: array<int>, ghost next: map<BlockKey, array<int>>, ghost key: BlockKey, parent: array<int>,
                        ox: nat, oy: nat)
    requires p.Length == BLOCK * BLOCK && p != parent && ox <= HALF && oy <= HALF
    requires Distinct(next) && key in next && next[key] == parent
    modifies parent
    ensures Contents(next) == old(Contents(next))[key := parent[..]]
    ensures forall x, y :: 0 <= x < BLOCK && 0 <= y < BLOCK ==>
              parent[..][Index(x, y)] == Quadrant(p[..], ox, oy, old(Contents(next)[key])[Index(x, y)], x, y)
  {
    hide Quadrant;
    JoinBlock(p, parent, ox, oy);
  }

  /** The parent block, empty if it is new. */
  method WithParent(next: map<BlockKey, array<int>>, key: BlockKey, ghost below: Picture, ghost todo: set<BlockKey>)
    returns (grown: map<BlockKey, array<int>>)
    requires Distinct(next) && Joining(Contents(next), below, todo)
    ensures Distinct(grown) && key in grown && Joining(Contents(grown), below, todo)
    ensures forall k :: k in grown ==> (k in next && grown[k] == next[k]) || fresh(grown[k])
  {
    hide Joining, Contents;
    grown := next;
    if key !in next {
      var empty := new int[BLOCK * BLOCK](_ => 0);
      NewParent(Contents(next), below, todo, key, empty[..]);
      ContentsWith(next, key, empty);
      grown := next[key := empty];
    }
  }

  method Shrink(level: map<BlockKey, array<int>>) returns (next: map<BlockKey, array<int>>)
    requires Distinct(level)
    ensures Distinct(next) && forall k :: k in next ==> fresh(next[k])
    ensures Joining(Contents(next), Contents(level), {})
  {
    hide Joining, Quadrant, Contents;
    next := map[];
    ghost var below := Contents(level);
    NothingJoined(below);
    assert Contents(next) == map[] by { NoBlocks(); }
    var todo := level.Keys;
    while todo != {}
      invariant todo <= level.Keys
      invariant Distinct(next) && forall k :: k in next ==> fresh(next[k])
      invariant Contents(level) == below && Joining(Contents(next), below, todo)
      decreases todo
    {
      var k :| k in todo;
      var key := ParentOf(k);
      next := WithParent(next, key, below, todo);
      ghost var above := Contents(next);
      var ox, oy := (k.column - k.column / 2 * 2) * HALF, (k.row - k.row / 2 * 2) * HALF;
      BlockOf(level, k);
      JoinIntoParent(level[k], next, key, next[key], ox, oy);
      BlockJoined(above, Contents(next), below, k, next[key][..]);
      JoinStep(above, Contents(next), below, todo, k);
      todo := todo - {k};
    }
  }

  lemma NoBlocks()
    ensures Contents(map[]) == map[]
  {}

  lemma BlockOf(level: map<BlockKey, array<int>>, k: BlockKey)
    requires Distinct(level) && k in level
    ensures Contents(level)[k] == level[k][..]
  {}

  // ---------------------------------------------------------------- painting the base

  lemma BaseColourSnoc(dots: seq<Dot>, d: Dot, z: nat, x: nat, y: nat)
    ensures BaseColour(dots + [d], z, x, y)
         == if d.z == z && d.x == x && d.y == y && d.colour != 0 then d.colour % 256 else BaseColour(dots, z, x, y)
  {
    assert (dots + [d])[..|dots|] == dots;
  }

  ghost predicate Based(picture: Picture, dots: seq<Dot>) {
    Sized(picture) && forall z, x, y :: PixelAt(picture, z, x, y) == BaseColour(dots, z, x, y)
  }

  function KeyOf(d: Dot): BlockKey { BlockKey(d.z, d.x / BLOCK, d.y / BLOCK) }

  function Painted(picture: Picture, d: Dot): Picture
    requires Sized(picture) && KeyOf(d) in picture
  {
    picture[KeyOf(d) := picture[KeyOf(d)][Index(d.x % BLOCK, d.y % BLOCK) := d.colour % 256]]
  }

  lemma PaintDot(picture: Picture, dots: seq<Dot>, d: Dot)
    requires Based(picture, dots) && KeyOf(d) in picture && d.colour != 0
    ensures Based(Painted(picture, d), dots + [d])
  {
    var after := Painted(picture, d);
    forall z: nat, x: nat, y: nat ensures PixelAt(after, z, x, y) == BaseColour(dots + [d], z, x, y) {
      BaseColourSnoc(dots, d, z, x, y);
      PaintedPixel(picture, d, z, x, y);
      assert PixelAt(picture, z, x, y) == BaseColour(dots, z, x, y);
      hide PixelAt;
    }
  }

  lemma PaintedPixel(picture: Picture, d: Dot, z: nat, x: nat, y: nat)
    requires Sized(picture) && KeyOf(d) in picture
    ensures PixelAt(Painted(picture, d), z, x, y)
         == if d.z == z && d.x == x && d.y == y then d.colour % 256 else PixelAt(picture, z, x, y)
  {
    if BlockKey(z, x / BLOCK, y / BLOCK) == KeyOf(d) && Index(d.x % BLOCK, d.y % BLOCK) == Index(x % BLOCK, y % BLOCK) {
      IndexInjective(d.x % BLOCK, d.y % BLOCK, x % BLOCK, y % BLOCK);
    }
  }

  lemma SkipDot(picture: Picture, dots: seq<Dot>, d: Dot)
    requires Based(picture, dots) && d.colour == 0
    ensures Based(picture, dots + [d])
  {
    forall z: nat, x: nat, y: nat ensures PixelAt(picture, z, x, y) == BaseColour(dots + [d], z, x, y) {
      BaseColourSnoc(dots, d, z, x, y);
    }
  }

  lemma NewBlock(picture: Picture, dots: seq<Dot>, k: BlockKey, empty: seq<int>)
    requires Based(picture, dots) && k !in picture && |empty| == BLOCK * BLOCK && forall i :: 0 <= i < |empty| ==> empty[i] == 0
    ensures Based(picture[k := empty], dots)
  {
    var after := picture[k := empty];
    forall z: nat, x: nat, y: nat ensures PixelAt(after, z, x, y) == BaseColour(dots, z, x, y) {
      assert PixelAt(picture, z, x, y) == BaseColour(dots, z, x, y);
    }
  }

  lemma BasedShows(picture: Picture, dots: seq<Dot>)
    requires Based(picture, dots)
    ensures Shows(picture, dots, 0)
  {
    forall z: nat, x: nat, y: nat ensures PixelAt(picture, z, x, y) == FirstColour(dots, z, Square(0, x, y)) {
      assert [(x, y)][1..] == [];
    }
  }

  lemma BlockOfSector(s: Sector, t: Tile, colourOf: nat -> Option<int>)
    requires t.x < SECTOR_SIZE && t.y < SECTOR_SIZE
    ensures var d := DotOf(s, t, colourOf);
            var column, row := s.sx * SECTOR_SIZE / BLOCK, s.sy * SECTOR_SIZE / BLOCK;
            && KeyOf(d) == BlockKey(s.z, column, row)
            && d.x - column * BLOCK == d.x % BLOCK && d.y - row * BLOCK == d.y % BLOCK
  {
    OneAxis(s.sx, t.x);
    OneAxis(s.sy, t.y);
  }

  lemma OneAxis(sector: nat, offset: nat)
    requires offset < SECTOR_SIZE
    ensures (sector * SECTOR_SIZE + offset) / BLOCK == sector * SECTOR_SIZE / BLOCK
    ensures sector * SECTOR_SIZE + offset - sector * SECTOR_SIZE / BLOCK * BLOCK == (sector * SECTOR_SIZE + offset) % BLOCK
  {
    var q, r := sector / 8, sector % 8;
    assert sector * SECTOR_SIZE == q * BLOCK + r * SECTOR_SIZE;
    assert r * SECTOR_SIZE + offset < BLOCK;
    BlockDigits(sector * SECTOR_SIZE + offset, q, r * SECTOR_SIZE + offset);
    BlockDigits(sector * SECTOR_SIZE, q, r * SECTOR_SIZE);
  }

  lemma BlockDigits(v: nat, high: nat, low: nat)
    requires low < BLOCK && v == high * BLOCK + low
    ensures v / BLOCK == high && v % BLOCK == low
  {
  }

  /** Writing one pixel of one block changes that pixel of the level's contents only. */
  method SetPixel(ghost level: map<BlockKey, array<int>>, ghost key: BlockKey, block: array<int>, i: nat, colour: int)
    requires Distinct(level) && key in level && level[key] == block && i < block.Length
    modifies block
    ensures Contents(level) == old(Contents(level))[key := old(Contents(level)[key])[i := colour]]
  {
    block[i] := colour;
    assert block[..] == old(block[..])[i := colour];
  }

  method PaintSector(level0: map<BlockKey, array<int>>, s: Sector, colourOf: nat -> Option<int>, ghost dots: seq<Dot>)
    returns (level: map<BlockKey, array<int>>)
    requires Distinct(level0) && ValidSector(s) && Based(Contents(level0), dots)
    modifies level0.Values
    ensures Distinct(level) && Based(Contents(level), dots + Dots(s, |s.tiles|, colourOf))
    ensures forall k :: k in level ==> (k in level0 && level[k] == level0[k]) || fresh(level[k])
  {
    hide Based, PixelAt, Contents;
    level := level0;
    var column, row := s.sx * SECTOR_SIZE / BLOCK, s.sy * SECTOR_SIZE / BLOCK;
    var key := BlockKey(s.z, column, row);
    ghost var picture := Contents(level);
    if key !in level {
      var empty := new int[BLOCK * BLOCK](_ => 0);
      NewBlock(picture, dots, key, empty[..]);
      ContentsWith(level, key, empty);
      level := level[key := empty];
      picture := picture[key := empty[..]];
    }
    var block := level[key];
    assert dots + [] == dots;
    for i := 0 to |s.tiles|
      invariant Distinct(level) && Contents(level) == picture && Sized(picture) && key in picture && level[key] == block
      invariant Based(picture, dots + Dots(s, i, colourOf))
    {
      var t := s.tiles[i];
      var colour := TileColour(t.ground, t.items, colourOf);
      ghost var d := DotOf(s, t, colourOf);
      BlockOfSector(s, t, colourOf);
      assert dots + Dots(s, i + 1, colourOf) == dots + Dots(s, i, colourOf) + [d];
      if colour == 0 {
        SkipDot(picture, dots + Dots(s, i, colourOf), d);
        continue;
      }
      var px := s.sx * SECTOR_SIZE + t.x - column * BLOCK;
      var py := s.sy * SECTOR_SIZE + t.y - row * BLOCK;
      PaintDot(picture, dots + Dots(s, i, colourOf), d);
      SetPixel(level, key, block, py * BLOCK + px, colour % 256);
      picture := Painted(picture, d);
    }
  }

  // ---------------------------------------------------------------- the whole pyramid

  /** The file of a block at a level. */
  datatype FileKey = FileKey(level: nat, block: BlockKey)

  ghost function Colour(dots: seq<Dot>, level: nat, k: BlockKey, x: nat, y: nat): int {
    FirstColour(dots, k.z, Square(level, k.column * BLOCK + x, k.row * BLOCK + y))
  }

  /** Some tile under the block has a colour. */
  ghost predicate Coloured(dots: seq<Dot>, level: nat, k: BlockKey) {
    exists x, y :: 0 <= x < BLOCK && 0 <= y < BLOCK && Colour(dots, level, k, x, y) != 0
  }

  lemma PixelOfBlock(picture: Picture, dots: seq<Dot>, level: nat, k: BlockKey, x: nat, y: nat)
    requires Shows(picture, dots, level) && x < BLOCK && y < BLOCK
    ensures Colour(dots, level, k, x, y) == if k in picture then picture[k][Index(x, y)] else 0
  {
    var u, v := k.column * BLOCK + x, k.row * BLOCK + y;
    assert u / BLOCK == k.column && v / BLOCK == k.row && u % BLOCK == x && v % BLOCK == y;
    assert PixelAt(picture, k.z, u, v) == FirstColour(dots, k.z, Square(level, u, v));
  }

  lemma ColouredIff(picture: Picture, dots: seq<Dot>, level: nat, k: BlockKey)
    requires Shows(picture, dots, level)
    ensures Coloured(dots, level, k) <==> k in picture && exists i :: 0 <= i < BLOCK * BLOCK && picture[k][i] != 0
  {
    forall x: nat, y: nat | x < BLOCK && y < BLOCK
      ensures Colour(dots, level, k, x, y) == if k in picture then picture[k][Index(x, y)] else 0
    {
      PixelOfBlock(picture, dots, level, k, x, y);
    }
    if k in picture && exists i :: 0 <= i < BLOCK * BLOCK && picture[k][i] != 0 {
      var i :| 0 <= i < BLOCK * BLOCK && picture[k][i] != 0;
      assert Index(i % BLOCK, i / BLOCK) == i;
      assert Colour(dots, level, k, i % BLOCK, i / BLOCK) != 0;
    }
  }

  /** The files are the coloured blocks of the first `levels` levels, each with the colours of its pixels. */
  ghost predicate Written(files: map<FileKey, seq<int>>, dots: seq<Dot>, levels: nat) {
    && (forall l: nat, k :: FileKey(l, k) in files <==> l < levels && Coloured(dots, l, k))
    && forall l, k :: FileKey(l, k) in files ==> Shown(files[FileKey(l, k)], dots, l, k)
  }

  ghost predicate Shown(pixels: seq<int>, dots: seq<Dot>, level: nat, k: BlockKey) {
    |pixels| == BLOCK * BLOCK
    && forall x, y :: 0 <= x < BLOCK && 0 <= y < BLOCK ==> pixels[Index(x, y)] == Colour(dots, level, k, x, y)
  }

  /** Part of a level written: `todo` are the blocks not yet looked at. */
  ghost predicate Writing(files: map<FileKey, seq<int>>, dots: seq<Dot>, level: nat, todo: set<BlockKey>) {
    && (forall l: nat, k :: FileKey(l, k) in files <==> (l < level || (l == level && k !in todo)) && Coloured(dots, l, k))
    && forall l, k :: FileKey(l, k) in files ==> Shown(files[FileKey(l, k)], dots, l, k)
  }

  lemma WriteStep(files: map<FileKey, seq<int>>, picture: Picture, dots: seq<Dot>, level: nat, todo: set<BlockKey>, k: BlockKey)
    requires Writing(files, dots, level, todo) && k in todo && Shows(picture, dots, level) && k in picture
    ensures Coloured(dots, level, k) ==> Writing(files[FileKey(level, k) := picture[k]], dots, level, todo - {k})
    ensures !Coloured(dots, level, k) ==> Writing(files, dots, level, todo - {k})
  {
    assert Shown(picture[k], dots, level, k) by {
      forall x: nat, y: nat | x < BLOCK && y < BLOCK ensures picture[k][Index(x, y)] == Colour(dots, level, k, x, y) {
        PixelOfBlock(picture, dots, level, k, x, y);
      }
    }
    hide Shown, Coloured, Shows;
  }

  lemma LevelStarts(files: map<FileKey, seq<int>>, picture: Picture, dots: seq<Dot>, level: nat)
    requires Written(files, dots, level) && Shows(picture, dots, level)
    ensures Writing(files, dots, level, picture.Keys)
  {
    forall k | k !in picture ensures !Coloured(dots, level, k) { ColouredIff(picture, dots, level, k); }
    hide Shown, Coloured, Shows;
  }

  method WriteLevel(files0: map<FileKey, seq<int>>, level: map<BlockKey, array<int>>, l: nat, ghost dots: seq<Dot>)
    returns (files: map<FileKey, seq<int>>, blocks: set<BlockKey>)
    requires Distinct(level) && Shows(Contents(level), dots, l) && Written(files0, dots, l)
    ensures Written(files, dots, l + 1)
    ensures forall k :: k in blocks <==> Coloured(dots, l, k)
  {
    files, blocks := files0, {};
    LevelStarts(files, Contents(level), dots, l);
    hide Writing, Written, Coloured, Shows, Contents;
    var todo := level.Keys;
    forall k ensures Coloured(dots, l, k) ==> k in level { ColouredIff(Contents(level), dots, l, k); }
    while todo != {}
      invariant todo <= level.Keys
      invariant Writing(files, dots, l, todo)
      invariant forall k :: k in blocks <==> k in level && k !in todo && Coloured(dots, l, k)
      decreases todo
    {
      var k :| k in todo;
      var block := level[k];
      BlockOf(level, k);
      ColouredIff(Contents(level), dots, l, k);
      WriteStep(files, Contents(level), dots, l, todo, k);
      if exists i :: 0 <= i < block.Length && block[i] != 0 {
        files := files[FileKey(l, k) := block[..]];
        blocks := blocks + {k};
      }
      todo := todo - {k};
    }
    LevelDone(files, dots, l);
  }

  lemma LevelDone(files: map<FileKey, seq<int>>, dots: seq<Dot>, level: nat)
    requires Writing(files, dots, level, {})
    ensures Written(files, dots, level + 1)
  {
    hide Shown, Coloured;
  }

  method PaintBase(sectors: seq<Sector>, colourOf: nat -> Option<int>) returns (level: map<BlockKey, array<int>>)
    requires forall i :: 0 <= i < |sectors| ==> ValidSector(sectors[i])
    ensures Distinct(level) && forall k :: k in level ==> fresh(level[k])
    ensures Shows(Contents(level), AllDots(sectors, colourOf), 0)
  {
    hide Based, Contents, Shows;
    level := map[];
    NothingPainted();
    assert sectors[..0] == [];
    for i := 0 to |sectors|
      invariant Distinct(level) && forall k :: k in level ==> fresh(level[k])
      invariant Based(Contents(level), AllDots(sectors[..i], colourOf))
    {
      assert sectors[..i + 1][..i] == sectors[..i];
      level := PaintSector(level, sectors[i], colourOf, AllDots(sectors[..i], colourOf));
    }
    assert sectors[..|sectors|] == sectors;
    BasedShows(Contents(level), AllDots(sectors, colourOf));
  }

  /** Six levels: the files and the index list exactly the coloured blocks, and every file shows its squares' first colours. */
  method BuildMinimap(sectors: seq<Sector>, colourOf: nat -> Option<int>)
    returns (files: map<FileKey, seq<int>>, index: seq<set<BlockKey>>)
    requires forall i :: 0 <= i < |sectors| ==> ValidSector(sectors[i])
    ensures Written(files, AllDots(sectors, colourOf), LEVELS)
    ensures |index| == LEVELS && forall l, k :: 0 <= l < LEVELS ==>
        (k in index[l] <==> Coloured(AllDots(sectors, colourOf), l, k))
  {
    hide Written, Contents, Shows, Coloured, Joining;
    var level := PaintBase(sectors, colourOf);
    ghost var dots := AllDots(sectors, colourOf);
    files, index := map[], [];
    NothingWritten(dots);
    for l := 0 to LEVELS
      invariant Distinct(level) && (l < LEVELS ==> Shows(Contents(level), dots, l)) && Written(files, dots, l)
      invariant |index| == l && forall m, k :: 0 <= m < l ==> (k in index[m] <==> Coloured(dots, m, k))
    {
      var blocks;
      files, blocks := WriteLevel(files, level, l, dots);
      index := index + [blocks];
      if l + 1 < LEVELS {
        ghost var below := Contents(level);
        level := Shrink(level);
        JoinedShowsNext(Contents(level), below, dots, l);
      }
    }
  }

  lemma NothingPainted()
    ensures Distinct(map[]) && Based(Contents(map[]), [])
  {}

  lemma NothingWritten(dots: seq<Dot>)
    ensures Written(map[], dots, 0)
  {}
}
