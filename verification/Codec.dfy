/** Binary frames: a keyed exclusive-or over the body, and batches of length-prefixed frames. */
module Codec {
  import opened Wrappers
  import opened Numbers

  const WORD := 0x1_0000_0000
  const SEED := 0x4853_5254
  const COMPRESSED_FLAG: Byte := 1
  const BATCH_FLAG: Byte := 2
  const COMPRESSION_THRESHOLD := 8 * 1024

  // ---------------------------------------------------------------- bits

  /** Exclusive or of the low `width` bits. */
  function Xor(a: nat, b: nat, width: nat): nat {
    if width == 0 then 0 else (if a % 2 == b % 2 then 0 else 1) + 2 * Xor(a / 2, b / 2, width - 1)
  }

  lemma {:induction false} XorBound(a: nat, b: nat, width: nat)
    ensures Xor(a, b, width) < Power2(width)
  {
    if width > 0 { XorBound(a / 2, b / 2, width - 1); }
  }

  lemma Halves(bit: nat, rest: nat, x: nat)
    requires bit < 2 && x == bit + 2 * rest
    ensures x % 2 == bit && x / 2 == rest
  {}

  lemma {:induction false} XorTwice(a: nat, b: nat, width: nat)
    requires a < Power2(width)
    ensures Xor(Xor(a, b, width), b, width) == a
  {
    if width > 0 {
      XorTwice(a / 2, b / 2, width - 1);
      var x := Xor(a, b, width);
      assert a % 2 < 2 && b % 2 < 2;
      Halves(if a % 2 == b % 2 then 0 else 1, Xor(a / 2, b / 2, width - 1), x);
      Halves(a % 2, a / 2, a);
    }
  }

  function XorByte(a: Byte, b: Byte): Byte {
    XorBound(a, b, 8);
    assert Power2(8) == 256;
    Xor(a, b, 8)
  }

  function XorWord(a: nat, b: nat): (x: nat)
    ensures x < WORD
  {
    XorBound(a, b, 32);
    assert Power2(8) == 0x100 && Power2(16) == 0x1_0000 && Power2(24) == 0x100_0000;
    assert Power2(32) == WORD;
    Xor(a, b, 32)
  }

  /** One round of the 32-bit xorshift: 13 left, 17 right, 5 left. */
  function Round(r: nat): (x: nat)
    ensures x < WORD
  {
    var r1 := XorWord(r, r * 0x2000 % WORD);
    var r2 := XorWord(r1, r1 / 0x2_0000);
    XorWord(r2, r2 * 0x20 % WORD)
  }

  function Start(key: nat): nat {
    var r := XorWord(key, SEED);
    if r == 0 then SEED else r
  }

  /** The state after `rounds` rounds. */
  function State(key: nat, rounds: nat): nat {
    if rounds == 0 then Start(key) else Round(State(key, rounds - 1))
  }

  /** `word >>> 8 * i & 255`. */
  function ByteOf(word: nat, i: nat): Byte { if i == 0 then word % 256 else ByteOf(word / 256, i - 1) }

  /** The byte the key stream holds against position `i`: a new round every four. */
  function StreamByte(key: nat, i: nat): Byte { ByteOf(State(key, i / 4 + 1), i % 4) }

  function Scrambled(s: seq<Byte>, key: nat): (t: seq<Byte>)
    ensures |t| == |s|
  {
    seq(|s|, i requires 0 <= i < |s| => XorByte(s[i], StreamByte(key, i)))
  }

  /** Scrambling twice with one key is doing nothing. */
  lemma ScrambleTwice(s: seq<Byte>, key: nat)
    ensures Scrambled(Scrambled(s, key), key) == s
  {
    assert Power2(8) == 256;
    forall i | 0 <= i < |s| ensures Scrambled(Scrambled(s, key), key)[i] == s[i] {
      XorTwice(s[i], StreamByte(key, i), 8);
    }
  }

  lemma Rounds(i: nat)
    ensures (i + 3) / 4 == if i % 4 == 0 then i / 4 else i / 4 + 1
    ensures (i + 4) / 4 == i / 4 + 1
  {}

  /** Scrambles the part of the buffer from `from` on, in place. */
  method Scramble(buf: array<Byte>, from: nat, key: nat)
    requires from <= buf.Length
    modifies buf
    ensures buf[..] == old(buf[..from]) + Scrambled(old(buf[from..]), key)
  {
    hide ByteOf, Round, Start, XorByte;
    ghost var before := buf[..];
    var r := Start(key);
    for i := 0 to buf.Length - from
      invariant r == State(key, (i + 3) / 4)
      invariant forall j :: 0 <= j < from + i ==>
          buf[j] == if j < from then before[j] else XorByte(before[j], StreamByte(key, j - from))
      invariant forall j :: from + i <= j < buf.Length ==> buf[j] == before[j]
    {
      Rounds(i);
      assert i % 4 == 0 ==> State(key, i / 4 + 1) == Round(State(key, i / 4));
      if i % 4 == 0 { r := Round(r); }
      buf[from + i] := XorByte(buf[from + i], ByteOf(r, i % 4));
    }
    assert buf[..] == before[..from] + Scrambled(before[from..], key);
  }

  // ---------------------------------------------------------------- numbers in four bytes

  function Bytes4(n: nat): (s: seq<Byte>)
    ensures |s| == 4
  {
    [ByteOf(n, 0), ByteOf(n, 1), ByteOf(n, 2), ByteOf(n, 3)]
  }

  function Number4(s: seq<Byte>): nat
    requires |s| >= 4
  {
    s[0] as int + 0x100 * (s[1] as int + 0x100 * (s[2] as int + 0x100 * (s[3] as int)))
  }

  lemma Digit(low: nat, high: nat, n: nat)
    requires low < 256 && n == low + 256 * high
    ensures n % 256 == low && n / 256 == high && ByteOf(n, 0) == low
    ensures forall i: nat :: i > 0 ==> ByteOf(n, i) == ByteOf(high, i - 1)
  {}

  lemma Number4Inverts(n: nat, rest: seq<Byte>)
    ensures Number4(Bytes4(n) + rest) == n % WORD
  {
    var n1, n2, n3 := n / 256, n / 256 / 256, n / 256 / 256 / 256;
    Digit(n % 256, n1, n);
    Digit(n1 % 256, n2, n1);
    Digit(n2 % 256, n3, n2);
    Digit(n3 % 256, n3 / 256, n3);
    hide ByteOf;
    var low := ByteOf(n, 0) as int
      + 0x100 * (ByteOf(n, 1) as int + 0x100 * (ByteOf(n, 2) as int + 0x100 * (ByteOf(n, 3) as int)));
    assert n == low + WORD * (n3 / 256);
    Remainder(low, n3 / 256, n);
  }

  lemma Remainder(low: nat, high: nat, n: nat)
    requires low < WORD && n == low + WORD * high
    ensures n % WORD == low
  {}

  lemma Bytes4Inverts(s: seq<Byte>)
    requires |s| >= 4
    ensures Number4(s) < WORD && Bytes4(Number4(s)) == s[..4]
  {
    var n3 := s[3] as int;
    var n2 := s[2] as int + 256 * n3;
    var n1 := s[1] as int + 256 * n2;
    Digit(s[0], n1, Number4(s));
    Digit(s[1], n2, n1);
    Digit(s[2], n3, n2);
    Digit(s[3], 0, n3);
    hide ByteOf;
    var n := Number4(s);
    assert ByteOf(n, 1) == s[1] && ByteOf(n, 2) == s[2] && ByteOf(n, 3) == s[3];
  }

  // ---------------------------------------------------------------- frames

  datatype Opened = Opened(flags: Byte, body: seq<Byte>)

  /** A frame: the key in clear, then flags and body scrambled with it. */
  function FrameOf(flags: Byte, body: seq<Byte>, key: nat): seq<Byte> {
    Bytes4(key) + Scrambled([flags] + body, key)
  }

  function Open(frame: seq<Byte>): Option<Opened> {
    if |frame| < 5 then None
    else
      var clear := Scrambled(frame[4..], Number4(frame));
      Some(Opened(clear[0], clear[1..]))
  }

  method OpenFrame(bytes: seq<Byte>) returns (result: Option<Opened>)
    ensures result == Open(bytes)
  {
    if |bytes| < 5 { return None; }
    var remainder := new Byte[|bytes| - 4](i requires 0 <= i < |bytes| - 4 => bytes[4 + i]);
    assert remainder[..] == bytes[4..];
    Scramble(remainder, 0, Number4(bytes));
    assert remainder[..] == Scrambled(bytes[4..], Number4(bytes));
    result := Some(Opened(remainder[0], remainder[1..]));
  }

  /** Opening what was built gives back flags and body, whatever the key. */
  lemma OpenBuilt(flags: Byte, body: seq<Byte>, key: nat)
    requires key < WORD
    ensures Open(FrameOf(flags, body, key)) == Some(Opened(flags, body))
  {
    hide Number4, Bytes4, Scrambled;
    var frame := FrameOf(flags, body, key);
    Number4Inverts(key, Scrambled([flags] + body, key));
    assert frame[4..] == Scrambled([flags] + body, key);
    ScrambleTwice([flags] + body, key);
    assert ([flags] + body)[1..] == body;
  }

  // ---------------------------------------------------------------- batches

  function Joined(parts: seq<seq<Byte>>): seq<Byte> {
    if parts == [] then [] else Bytes4(|parts[0]|) + parts[0] + Joined(parts[1..])
  }

  function Split(body: seq<Byte>): Option<seq<seq<Byte>>>
    decreases |body|
  {
    if body == [] then Some([])
    else if |body| < 4 then None
    else
      var size := Number4(body);
      if 4 + size > |body| then None else Before(body[4..4 + size], Split(body[4 + size..]))
  }

  function Before(part: seq<Byte>, rest: Option<seq<seq<Byte>>>): Option<seq<seq<Byte>>> {
    if rest.None? then None else Some([part] + rest.value)
  }

  ghost predicate Short(parts: seq<seq<Byte>>) { forall i :: 0 <= i < |parts| ==> |parts[i]| < WORD }

  lemma SplitOne(p: seq<Byte>, rest: seq<Byte>)
    requires |p| < WORD
    ensures Split(Bytes4(|p|) + p + rest) == Before(p, Split(rest))
  {
    var size := Bytes4(|p|);
    Number4Inverts(|p|, p + rest);
    Pieces(size, p, rest);
    hide Number4, Bytes4, Before;
    SplitPieces(size + p + rest, p, rest);
  }

  lemma Pieces(size: seq<Byte>, p: seq<Byte>, rest: seq<Byte>)
    requires |size| == 4
    ensures var body := size + p + rest;
      && body == size + (p + rest) && |body| == 4 + |p| + |rest|
      && body[4..4 + |p|] == p && body[4 + |p|..] == rest
  {}

  lemma SplitPieces(body: seq<Byte>, p: seq<Byte>, rest: seq<Byte>)
    requires |body| == 4 + |p| + |rest| && Number4(body) == |p| && body[4..4 + |p|] == p && body[4 + |p|..] == rest
    ensures Split(body) == Before(p, Split(rest))
  {
    hide Number4, Before;
  }

  lemma {:induction false} SplitJoined(parts: seq<seq<Byte>>)
    requires Short(parts)
    ensures Split(Joined(parts)) == Some(parts)
  {
    if parts != [] {
      hide Number4, Bytes4;
      SplitJoined(parts[1..]);
      SplitOne(parts[0], Joined(parts[1..]));
      assert [parts[0]] + parts[1..] == parts;
    }
  }

  /** A body that splits starts with one short part, and the rest splits as well. */
  lemma SplitHead(body: seq<Byte>) returns (p: seq<Byte>, rest: seq<Byte>)
    requires Split(body).Some? && body != []
    ensures |p| < WORD && body == Bytes4(|p|) + p + rest && Split(rest).Some?
    ensures Split(body).value == [p] + Split(rest).value
  {
    Bytes4Inverts(body);
    hide Number4, Bytes4;
    var size := Number4(body);
    p, rest := body[4..4 + size], body[4 + size..];
    assert body == body[..4] + p + rest;
  }

  lemma {:induction false} JoinedSplit(body: seq<Byte>)
    requires Split(body).Some?
    ensures Short(Split(body).value) && Joined(Split(body).value) == body
    decreases |body|
  {
    if body != [] {
      var p, rest := SplitHead(body);
      hide Split, Bytes4;
      JoinedSplit(rest);
      assert ([p] + Split(rest).value)[1..] == Split(rest).value;
    }
  }

  /** Splitting accepts exactly the joined lists of short parts, and gives the list back. */
  lemma SplitIffJoined(body: seq<Byte>, parts: seq<seq<Byte>>)
    ensures Split(body) == Some(parts) <==> Short(parts) && body == Joined(parts)
  {
    if Split(body).Some? { JoinedSplit(body); }
    if Short(parts) { SplitJoined(parts); }
  }

  /** What splitting a whole body gives, once `out` was taken from the front. */
  ghost function After(out: seq<seq<Byte>>, rest: Option<seq<seq<Byte>>>): Option<seq<seq<Byte>>> {
    if rest.None? then None else Some(out + rest.value)
  }

  lemma SplitNext(out: seq<seq<Byte>>, body: seq<Byte>, i: nat)
    requires i + 4 <= |body|
    ensures var size := Number4(body[i..]);
      After(out, Split(body[i..])) ==
        if i + 4 + size > |body| then None else After(out + [body[i + 4..i + 4 + size]], Split(body[i + 4 + size..]))
  {
    hide Number4;
    var here := body[i..];
    var size := Number4(here);
    if i + 4 + size <= |body| {
      assert here[4..4 + size] == body[i + 4..i + 4 + size] && here[4 + size..] == body[i + 4 + size..];
      var rest := Split(here[4 + size..]);
      if rest.Some? { assert out + ([here[4..4 + size]] + rest.value) == out + [here[4..4 + size]] + rest.value; }
    }
  }

  method SplitBatch(body: seq<Byte>) returns (frames: Option<seq<seq<Byte>>>)
    ensures frames == Split(body)
  {
    hide Number4;
    var out: seq<seq<Byte>> := [];
    var i := 0;
    assert body[0..] == body;
    assert Split(body).Some? ==> [] + Split(body).value == Split(body).value;
    while i < |body|
      invariant i <= |body|
      invariant Split(body) == After(out, Split(body[i..]))
    {
      if i + 4 > |body| { return None; }
      SplitNext(out, body, i);
      var size := Number4(body[i..]);
      i := i + 4;
      if i + size > |body| { return None; }
      out := out + [body[i..i + size]];
      i := i + size;
    }
    assert body[i..] == [] && out + [] == out;
    frames := Some(out);
  }

  // ---------------------------------------------------------------- building frames

  /** The first four bytes of a fresh frame, in place. */
  method WriteNumber(frame: array<Byte>, at: nat, n: nat)
    requires at + 4 <= frame.Length
    modifies frame
    ensures frame[..] == old(frame[..at]) + Bytes4(n) + old(frame[at + 4..])
  {
    hide ByteOf;
    frame[at] := ByteOf(n, 0);
    frame[at + 1] := ByteOf(n, 1);
    frame[at + 2] := ByteOf(n, 2);
    frame[at + 3] := ByteOf(n, 3);
  }

  method WriteBytes(frame: array<Byte>, at: nat, s: seq<Byte>)
    requires at + |s| <= frame.Length
    modifies frame
    ensures frame[..] == old(frame[..at]) + s + old(frame[at + |s|..])
  {
    forall k | 0 <= k < |s| { frame[at + k] := s[k]; }
  }

  /** Writes key and flags before the body already in place from byte five on, and scrambles. */
  method Seal(frame: array<Byte>, flags: Byte, key: nat)
    requires frame.Length >= 5
    modifies frame
    ensures frame[..] == FrameOf(flags, old(frame[5..]), key)
  {
    hide Bytes4, Scrambled;
    ghost var body := frame[5..];
    WriteNumber(frame, 0, key);
    assert frame[5..] == body;
    frame[4] := flags;
    assert frame[4..] == [flags] + body && frame[..4] == Bytes4(key);
    Scramble(frame, 4, key);
  }

  lemma ConcatAssoc<T>(a: seq<T>, b: seq<T>, c: seq<T>)
    ensures a + b + c == a + (b + c)
  {}

  lemma {:induction false} JoinedAppend(xs: seq<seq<Byte>>, ys: seq<seq<Byte>>)
    ensures Joined(xs + ys) == Joined(xs) + Joined(ys)
  {
    hide Bytes4;
    if xs == [] {
      assert xs + ys == ys;
    } else {
      JoinedAppend(xs[1..], ys);
      assert (xs + ys)[1..] == xs[1..] + ys;
      ConcatAssoc(Bytes4(|xs[0]|) + xs[0], Joined(xs[1..]), Joined(ys));
    }
  }

  lemma JoinedNext(frames: seq<seq<Byte>>, n: nat)
    requires n < |frames|
    ensures Joined(frames[..n + 1]) == Joined(frames[..n]) + Bytes4(|frames[n]|) + frames[n]
    ensures |Joined(frames)| == |Joined(frames[..n + 1])| + |Joined(frames[n + 1..])|
  {
    hide Bytes4;
    assert frames[..n + 1] == frames[..n] + [frames[n]];
    JoinedAppend(frames[..n], [frames[n]]);
    assert Joined([frames[n]]) == Bytes4(|frames[n]|) + frames[n] + [];
    assert frames == frames[..n + 1] + frames[n + 1..];
    JoinedAppend(frames[..n + 1], frames[n + 1..]);
  }

  function PackedOf(frames: seq<seq<Byte>>, key: nat): seq<Byte> { FrameOf(BATCH_FLAG, Joined(frames), key) }

  /** Packs frames into one, in a single buffer of the final size. */
  method PackBatch(frames: seq<seq<Byte>>, key: nat) returns (frame: array<Byte>)
    ensures fresh(frame) && frame[..] == PackedOf(frames, key)
  {
    hide Bytes4, FrameOf;
    var total := 0;
    for n := 0 to |frames|
      invariant total == |Joined(frames[..n])|
    {
      JoinedNext(frames, n);
      total := total + 4 + |frames[n]|;
    }
    assert frames[..|frames|] == frames;
    frame := new Byte[5 + total];
    FillBatch(frames, frame);
    Seal(frame, BATCH_FLAG, key);
  }

  method FillBatch(frames: seq<seq<Byte>>, frame: array<Byte>)
    requires frame.Length == 5 + |Joined(frames)|
    modifies frame
    ensures frame[5..] == Joined(frames)
  {
    hide Bytes4;
    var i := 5;
    for n := 0 to |frames|
      invariant i == 5 + |Joined(frames[..n])| <= frame.Length
      invariant frame[5..i] == Joined(frames[..n])
    {
      JoinedNext(frames, n);
      ghost var done := Joined(frames[..n]);
      var f := frames[n];
      WriteNumber(frame, i, |f|);
      assert frame[5..i + 4] == done + Bytes4(|f|);
      i := i + 4;
      WriteBytes(frame, i, f);
      assert frame[5..i + |f|] == done + Bytes4(|f|) + f;
      i := i + |f|;
    }
    assert frames[..|frames|] == frames;
  }

  // ---------------------------------------------------------------- messages

  /** What JSON parsing gives: a two-element array with a number first, or anything else. */
  datatype Json<P> = Pair(opcode: Option<int>, props: P) | OtherJson

  datatype Message<P> = Message(kind: string, props: P)

  /** What the codec is built from: JSON, deflate, the opcode tables and the schemas. */
  datatype Wire<!P> = Wire(
    stringify: (int, P) -> seq<Byte>,
    parse: seq<Byte> -> Option<Json<P>>,
    deflate: seq<Byte> -> seq<Byte>,
    inflate: seq<Byte> -> Option<seq<Byte>>,
    opcodes: map<string, int>,
    names: map<int, string>,
    schemas: map<string, P -> Option<P>>)

  /** The body sent for some JSON text, and the flags that go with it. */
  function Squeezed<P>(w: Wire<P>, text: seq<Byte>, allowCompression: bool): Opened {
    if allowCompression && |text| >= COMPRESSION_THRESHOLD then Opened(COMPRESSED_FLAG, w.deflate(text)) else Opened(0, text)
  }

  function EncodedOf<P>(w: Wire<P>, m: Message<P>, key: nat): seq<Byte>
    requires m.kind in w.opcodes
  {
    var sent := Squeezed(w, w.stringify(w.opcodes[m.kind], m.props), true);
    FrameOf(sent.flags, sent.body, key)
  }

  method Encode<P>(w: Wire<P>, m: Message<P>, key: nat) returns (frame: array<Byte>)
    requires m.kind in w.opcodes
    ensures fresh(frame) && frame[..] == EncodedOf(w, m, key)
  {
    var body, flags := w.stringify(w.opcodes[m.kind], m.props), 0;
    if |body| >= COMPRESSION_THRESHOLD {
      body := w.deflate(body);
      flags := COMPRESSED_FLAG;
    }
    frame := new Byte[5 + |body|];
    WriteBytes(frame, 5, body);
    assert frame[5..] == body;
    Seal(frame, flags, key);
  }

  /** The message a single frame carries, if it is readable. */
  function MessageIn<P>(w: Wire<P>, frame: seq<Byte>): Option<Message<P>> {
    match Open(frame)
    case None => None
    case Some(Opened(flags, body)) =>
      if flags > COMPRESSED_FLAG then None
      else match if flags == COMPRESSED_FLAG then w.inflate(body) else Some(body)
        case None => None
        case Some(text) => MessageOf(w, w.parse(text))
  }

  function MessageOf<P>(w: Wire<P>, raw: Option<Json<P>>): Option<Message<P>> {
    match raw
    case Some(Pair(Some(opcode), props)) =>
      if opcode !in w.names || w.names[opcode] !in w.schemas then None
      else
        var checked := w.schemas[w.names[opcode]](props);
        if checked.None? then None else Some(Message(w.names[opcode], checked.value))
    case _ => None
  }

  method ReadMessage<P>(w: Wire<P>, input: seq<Byte>) returns (message: Option<Message<P>>)
    ensures message == MessageIn(w, input)
  {
    hide Open;
    var frame := OpenFrame(input);
    if frame.None? { return None; }
    if frame.value.flags > COMPRESSED_FLAG { return None; }
    var body := frame.value.body;
    if frame.value.flags == COMPRESSED_FLAG {
      var inflated := w.inflate(body);
      if inflated.None? { return None; }
      body := inflated.value;
    }
    message := MessageOf(w, w.parse(body));
  }

  /** The messages of the readable frames, in order. */
  function Readable<P>(w: Wire<P>, frames: seq<seq<Byte>>): seq<Message<P>> {
    if frames == [] then [] else
      var one := MessageIn(w, frames[0]);
      (if one.Some? then [one.value] else []) + Readable(w, frames[1..])
  }

  function MessagesIn<P>(w: Wire<P>, input: seq<Byte>): Option<seq<Message<P>>> {
    match Open(input)
    case None => None
    case Some(Opened(flags, body)) =>
      if flags / BATCH_FLAG % 2 == 0 then
        var one := MessageIn(w, input);
        if one.Some? then Some([one.value]) else None
      else if flags != BATCH_FLAG then None
      else
        var parts := Split(body);
        if parts.Some? then Some(Readable(w, parts.value)) else None
  }

  lemma {:induction false} ReadableAppend<P>(w: Wire<P>, xs: seq<seq<Byte>>, ys: seq<seq<Byte>>)
    ensures Readable(w, xs + ys) == Readable(w, xs) + Readable(w, ys)
  {
    hide MessageIn;
    if xs == [] {
      assert xs + ys == ys;
    } else {
      ReadableAppend(w, xs[1..], ys);
      assert (xs + ys)[1..] == xs[1..] + ys;
      var one := MessageIn(w, xs[0]);
      ConcatAssoc(if one.Some? then [one.value] else [], Readable(w, xs[1..]), Readable(w, ys));
    }
  }

  method ReadFrame<P>(w: Wire<P>, input: seq<Byte>) returns (messages: Option<seq<Message<P>>>)
    ensures messages == MessagesIn(w, input)
  {
    hide Open, MessageIn, Split;
    var frame := OpenFrame(input);
    if frame.None? { return None; }
    if frame.value.flags / BATCH_FLAG % 2 == 0 {
      var one := ReadMessage(w, input);
      return if one.Some? then Some([one.value]) else None;
    }
    if frame.value.flags != BATCH_FLAG { return None; }
    var parts := SplitBatch(frame.value.body);
    if parts.None? { return None; }
    var out: seq<Message<P>> := [];
    for i := 0 to |parts.value|
      invariant out == Readable(w, parts.value[..i])
    {
      var one := ReadMessage(w, parts.value[i]);
      ReadableAppend(w, parts.value[..i], [parts.value[i]]);
      assert parts.value[..i + 1] == parts.value[..i] + [parts.value[i]];
      if one.Some? { out := out + [one.value]; }
    }
    assert parts.value[..|parts.value|] == parts.value;
    messages := Some(out);
  }

  // ---------------------------------------------------------------- results

  /** A batch of any frames is read as its readable frames, in order, and nothing else. */
  lemma BatchReadsReadable<P>(w: Wire<P>, frames: seq<seq<Byte>>, key: nat)
    requires key < WORD && Short(frames)
    ensures MessagesIn(w, PackedOf(frames, key)) == Some(Readable(w, frames))
  {
    OpenBuilt(BATCH_FLAG, Joined(frames), key);
    SplitJoined(frames);
    hide Open, FrameOf, MessageIn, Split;
  }

  lemma BatchIsNoMessage<P>(w: Wire<P>, frames: seq<seq<Byte>>, key: nat)
    requires key < WORD
    ensures MessageIn(w, PackedOf(frames, key)) == None
  {
    OpenBuilt(BATCH_FLAG, Joined(frames), key);
    hide Open, FrameOf;
  }

  /** A batch inside a batch is dropped: the messages around it are read as if it were not there. */
  lemma NestedBatchIsDropped<P>(w: Wire<P>, before: seq<seq<Byte>>, inner: seq<seq<Byte>>, after: seq<seq<Byte>>,
                                innerKey: nat, key: nat)
    requires key < WORD && innerKey < WORD && Short(before) && Short(after) && |PackedOf(inner, innerKey)| < WORD
    ensures MessagesIn(w, PackedOf(before + [PackedOf(inner, innerKey)] + after, key))
         == MessagesIn(w, PackedOf(before + after, key))
  {
    hide *;
    BatchIsNoMessage(w, inner, innerKey);
    var nested := PackedOf(inner, innerKey);
    ShortAround(before, nested, after);
    BatchReadsReadable(w, before + [nested] + after, key);
    BatchReadsReadable(w, before + after, key);
    ReadableSkips(w, before, nested, after);
  }

  lemma ShortAround(before: seq<seq<Byte>>, part: seq<Byte>, after: seq<seq<Byte>>)
    requires Short(before) && |part| < WORD && Short(after)
    ensures Short(before + [part] + after) && Short(before + after)
  {}

  lemma ReadableSkips<P>(w: Wire<P>, before: seq<seq<Byte>>, frame: seq<Byte>, after: seq<seq<Byte>>)
    requires MessageIn(w, frame) == None
    ensures Readable(w, before + [frame] + after) == Readable(w, before + after)
  {
    hide MessageIn;
    ReadableAppend(w, before, after);
    ReadableAppend(w, before + [frame], after);
    ReadableAppend(w, before, [frame]);
    assert Readable(w, [frame]) == [];
    assert Readable(w, before) + [] == Readable(w, before);
  }

  /** JSON, deflate, tables and schema all give this message back unchanged. */
  ghost predicate Survives<P>(w: Wire<P>, m: Message<P>) {
    && m.kind in w.opcodes
    && w.opcodes[m.kind] in w.names && w.names[w.opcodes[m.kind]] == m.kind
    && m.kind in w.schemas && w.schemas[m.kind](m.props) == Some(m.props)
    && var text := w.stringify(w.opcodes[m.kind], m.props);
       w.parse(text) == Some(Pair(Some(w.opcodes[m.kind]), m.props)) && w.inflate(w.deflate(text)) == Some(text)
  }

  lemma EncodedIsReadable<P>(w: Wire<P>, m: Message<P>, key: nat)
    requires Survives(w, m) && key < WORD
    ensures MessageIn(w, EncodedOf(w, m, key)) == Some(m)
    ensures MessagesIn(w, EncodedOf(w, m, key)) == Some([m])
  {
    var text := w.stringify(w.opcodes[m.kind], m.props);
    var sent := Squeezed(w, text, true);
    OpenBuilt(sent.flags, sent.body, key);
    TextIsMessage(w, m);
    hide Open, FrameOf, Survives, MessageOf;
    SqueezedIsText(w, m, text);
    hide Squeezed;
  }

  lemma TextIsMessage<P>(w: Wire<P>, m: Message<P>)
    requires Survives(w, m)
    ensures MessageOf(w, w.parse(w.stringify(w.opcodes[m.kind], m.props))) == Some(m)
  {}

  lemma SqueezedIsText<P>(w: Wire<P>, m: Message<P>, text: seq<Byte>)
    requires Survives(w, m) && text == w.stringify(w.opcodes[m.kind], m.props)
    ensures var sent := Squeezed(w, text, true);
      && sent.flags <= COMPRESSED_FLAG
      && (if sent.flags == COMPRESSED_FLAG then w.inflate(sent.body) else Some(sent.body)) == Some(text)
  {}

  ghost predicate Encoded<P>(w: Wire<P>, messages: seq<Message<P>>, frames: seq<seq<Byte>>) {
    |frames| == |messages| && forall i :: 0 <= i < |frames| ==> EncodedAs(w, messages[i], frames[i])
  }

  ghost predicate EncodedAs<P>(w: Wire<P>, m: Message<P>, frame: seq<Byte>) {
    Survives(w, m) && exists key: nat :: key < WORD && frame == EncodedOf(w, m, key)
  }

  lemma EncodedAsIsReadable<P>(w: Wire<P>, m: Message<P>, frame: seq<Byte>)
    requires EncodedAs(w, m, frame)
    ensures MessageIn(w, frame) == Some(m)
  {
    hide MessageIn, MessagesIn;
    var key: nat :| key < WORD && frame == EncodedOf(w, m, key);
    EncodedIsReadable(w, m, key);
  }

  /** Packing encoded messages and reading the batch gives those messages, in order, whatever the keys. */
  lemma {:induction false} BatchRoundTrip<P>(w: Wire<P>, messages: seq<Message<P>>, frames: seq<seq<Byte>>, key: nat)
    requires Encoded(w, messages, frames) && Short(frames) && key < WORD
    ensures MessagesIn(w, PackedOf(frames, key)) == Some(messages)
  {
    BatchReadsReadable(w, frames, key);
    AllReadable(w, messages, frames);
  }

  lemma {:induction false} AllReadable<P>(w: Wire<P>, messages: seq<Message<P>>, frames: seq<seq<Byte>>)
    requires Encoded(w, messages, frames)
    ensures Readable(w, frames) == messages
  {
    hide MessageIn, EncodedAs;
    if messages != [] {
      EncodedAsIsReadable(w, messages[0], frames[0]);
      AllReadable(w, messages[1..], frames[1..]);
    }
  }
}
