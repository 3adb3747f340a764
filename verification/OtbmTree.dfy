/** OTBM as a tree: the byte machine on printed trees is a recursive walk that may skip children. */
module OtbmTree {
  import opened Wrappers
  import opened Numbers
  import opened OtbmPayload
  import opened Otbm

  datatype Node = Node(kind: Byte, payload: seq<Byte>, children: seq<Node>)

  /** One printed node, given its children already printed. */
  function NodeBytes(kind: Byte, payload: seq<Byte>, body: seq<Byte>): seq<Byte> {
    [NODE_START, kind] + Escaped(payload) + body + [NODE_END]
  }

  function Flat(parts: seq<seq<Byte>>): seq<Byte> {
    if parts == [] then [] else parts[0] + Flat(parts[1..])
  }

  function Print(n: Node): seq<Byte>
    decreases n, 0
  {
    NodeBytes(n.kind, n.payload, PrintAll(n.children))
  }

  function PrintAll(ns: seq<Node>): seq<Byte>
    decreases ns
  {
    if ns == [] then [] else Print(ns[0]) + PrintAll(ns[1..])
  }

  /** Every part is the print of the tree at its place. */
  predicate ArePrints(parts: seq<seq<Byte>>, ns: seq<Node>) {
    |parts| == |ns| && forall i :: 0 <= i < |ns| ==> parts[i] == Print(ns[i])
  }

  lemma {:induction false} FlatPrints(parts: seq<seq<Byte>>, ns: seq<Node>)
    requires ArePrints(parts, ns)
    ensures Flat(parts) == PrintAll(ns)
  {
    if ns != [] {
      assert parts[0] == Print(ns[0]);
      FlatPrints(parts[1..], ns[1..]);
    }
  }

  /** Given the prints of its children, the print of the tree. */
  method OtbmNode(kind: Byte, payload: seq<Byte>, children: seq<seq<Byte>>) returns (out: seq<Byte>)
    ensures out == NodeBytes(kind, payload, Flat(children))
    ensures forall ns :: ArePrints(children, ns) ==> out == Print(Node(kind, payload, ns))
  {
    var escaped := EscapeOtbm(payload);
    out := [NODE_START, kind] + escaped + Flat(children) + [NODE_END];
    forall ns | ArePrints(children, ns) ensures out == Print(Node(kind, payload, ns)) { FlatPrints(children, ns); }
  }

  /** Node types are ordinary bytes; every type of the format is at most 0x10. */
  predicate PlainKinds(n: Node)
    decreases n, 0
  {
    !Special(n.kind) && AllPlainKinds(n.children)
  }

  predicate AllPlainKinds(ns: seq<Node>)
    decreases ns
  {
    ns == [] || (PlainKinds(ns[0]) && AllPlainKinds(ns[1..]))
  }

  // ---------------------------------------------------------------- the recursive reader

  datatype Walked = Stopped(tiles: seq<Tile>, error: Error) | Walked(state: State)

  function WalkNode(n: Node, st: State, region: Region): (w: Walked)
    ensures w.Walked? ==> |w.state.stack| == |st.stack|
    decreases n, 0
  {
    if IsTile(n.kind) && st.base.None? then Stopped(st.out, TileOutsideArea)
    else match Open(n.kind, n.payload, st, region)
      case Fail(e) => Stopped(st.out, e)
      case Prune => Walked(st)
      case Enter(inner) =>
        match WalkAll(n.children, inner, region)
        case Stopped(tiles, e) => Stopped(tiles, e)
        case Walked(last) => Walked(Close(last))
  }

  function WalkAll(ns: seq<Node>, st: State, region: Region): (w: Walked)
    ensures w.Walked? ==> |w.state.stack| == |st.stack|
    decreases ns
  {
    if ns == [] then Walked(st)
    else match WalkNode(ns[0], st, region)
      case Stopped(tiles, e) => Stopped(tiles, e)
      case Walked(next) => WalkAll(ns[1..], next, region)
  }

  function Resume(w: Walked, rest: seq<Byte>, region: Region): Outcome {
    match w
    case Stopped(tiles, e) => Outcome(tiles, Some(e))
    case Walked(st) => Run(rest, st, region)
  }

  // ---------------------------------------------------------------- skipping a printed node

  lemma SkipEscapedByte(b: Byte, rest: seq<Byte>, depth: nat)
    ensures SkipNode(EscapedByte(b) + rest, depth) == SkipNode(rest, depth)
  {
    var s := EscapedByte(b) + rest;
    assert s[|EscapedByte(b)|..] == rest;
  }

  lemma {:induction false} SkipEscaped(payload: seq<Byte>, rest: seq<Byte>, depth: nat)
    ensures SkipNode(Escaped(payload) + rest, depth) == SkipNode(rest, depth)
  {
    if payload == [] {
      assert Escaped(payload) + rest == rest;
    } else {
      var tail := Escaped(payload[1..]) + rest;
      assert Escaped(payload) + rest == EscapedByte(payload[0]) + tail;
      SkipEscapedByte(payload[0], tail, depth);
      SkipEscaped(payload[1..], rest, depth);
    }
  }

  lemma SkipOpening(kind: Byte, body: seq<Byte>, depth: nat)
    requires !Special(kind)
    ensures SkipNode([NODE_START] + ([kind] + body), depth) == SkipNode(body, depth + 1)
  {
    var s := [NODE_START] + ([kind] + body);
    assert s[1..] == [kind] + body && ([kind] + body)[1..] == body;
    assert SkipNode([kind] + body, depth + 1) == SkipNode(body, depth + 1);
  }

  lemma SkipClosing(rest: seq<Byte>, depth: nat)
    ensures SkipNode([NODE_END] + rest, depth + 1) == SkipNode(rest, depth)
  {
    assert ([NODE_END] + rest)[1..] == rest;
  }

  lemma {:induction false} SkipPrinted(n: Node, rest: seq<Byte>, depth: nat)
    requires PlainKinds(n)
    ensures SkipNode(Print(n) + rest, depth) == SkipNode(rest, depth)
    decreases n, 0
  {
    var inside := PrintAll(n.children) + ([NODE_END] + rest);
    var body := Escaped(n.payload) + inside;
    var s := Print(n) + rest;
    assert s == [NODE_START] + ([n.kind] + body);
    SkipOpening(n.kind, body, depth);
    SkipEscaped(n.payload, inside, depth + 1);
    SkipAllPrinted(n.children, [NODE_END] + rest, depth + 1);
    SkipClosing(rest, depth);
  }

  lemma {:induction false} SkipAllPrinted(ns: seq<Node>, rest: seq<Byte>, depth: nat)
    requires AllPlainKinds(ns)
    ensures SkipNode(PrintAll(ns) + rest, depth) == SkipNode(rest, depth)
    decreases ns
  {
    if ns == [] {
      assert PrintAll(ns) + rest == rest;
    } else {
      var tail := PrintAll(ns[1..]) + rest;
      assert PrintAll(ns) + rest == Print(ns[0]) + tail;
      SkipPrinted(ns[0], tail, depth);
      SkipAllPrinted(ns[1..], rest, depth);
    }
  }

  /** From just after a node's type byte, skipping lands exactly after the node's own end mark. */
  lemma {:induction false} SkipLandsAfterNode(payload: seq<Byte>, children: seq<Node>, rest: seq<Byte>)
    requires AllPlainKinds(children)
    ensures SkipNode(Escaped(payload) + (PrintAll(children) + ([NODE_END] + rest)), 0) == Some(rest)
  {
    SkipEscaped(payload, PrintAll(children) + ([NODE_END] + rest), 0);
    SkipAllPrinted(children, [NODE_END] + rest, 0);
    assert ([NODE_END] + rest)[1..] == rest;
  }

  /** A parent that is skipped ends at its own end mark, whatever child of that type it has. */
  ghost predicate SkipsPast(kind: Byte) {
    forall payload, children, rest :: AllPlainKinds(children) ==>
      SkipNode(Print(Node(kind, payload, children)) + ([NODE_END] + rest), 0) == Some(rest)
  }

  /** A childless node of type 0xFD, 0xFE or 0xFF with no payload already misleads the skip. */
  lemma SpecialMisleads(kind: Byte)
    requires Special(kind)
    ensures SkipNode(Print(Node(kind, [], [])) + ([NODE_END] + []), 0) != Some([])
  {
    var s: seq<Byte> := [NODE_START, kind, NODE_END, NODE_END];
    assert Escaped([]) == [] && PrintAll([]) == [];
    assert Print(Node(kind, [], [])) == [NODE_START, kind, NODE_END];
    assert Print(Node(kind, [], [])) + ([NODE_END] + []) == s;
    assert s[1..] == [kind, NODE_END, NODE_END] && s[1..][1..] == [NODE_END, NODE_END];
    assert Drop(s[1..], 2) == [NODE_END] && [NODE_END, NODE_END][1..] == [NODE_END] && [NODE_END][1..] == [];
    assert SkipNode(s, 0) == SkipNode(s[1..], 1);
    assert SkipNode([NODE_END], 0) == Some([]) && SkipNode([NODE_END], 1) == None;
    if kind == ESCAPE {
      assert SkipNode(s[1..], 1) == SkipNode([NODE_END], 1);
    } else if kind == NODE_START {
      assert SkipNode(s[1..], 1) == SkipNode([NODE_END, NODE_END], 2) == SkipNode([NODE_END], 1);
    } else {
      assert SkipNode(s[1..], 1) == SkipNode([NODE_END, NODE_END], 0) == Some([NODE_END]);
    }
  }

  /** Skipping is right for every payload and all plain children exactly when the type is none of the three marks. */
  lemma SkipNeedsPlainKinds(kind: Byte)
    ensures SkipsPast(kind) <==> !Special(kind)
  {
    if Special(kind) {
      SpecialMisleads(kind);
    } else {
      forall payload, children, rest | AllPlainKinds(children)
        ensures SkipNode(Print(Node(kind, payload, children)) + ([NODE_END] + rest), 0) == Some(rest)
      {
        SkipPrinted(Node(kind, payload, children), [NODE_END] + rest, 0);
        assert ([NODE_END] + rest)[1..] == rest;
      }
    }
  }

  // ---------------------------------------------------------------- machine = walk

  lemma PrintedMarks(ns: seq<Node>, rest: seq<Byte>)
    requires AtMark(rest)
    ensures AtMark(PrintAll(ns) + rest)
  {
    if ns == [] { assert PrintAll(ns) + rest == rest; }
  }

  /** What reading does at the start mark of a node with that payload, `inside` following it. */
  ghost function Opened(kind: Byte, payload: seq<Byte>, inside: seq<Byte>, st: State, region: Region): Outcome {
    if IsTile(kind) && st.base.None? then Outcome(st.out, Some(TileOutsideArea))
    else match Open(kind, payload, st, region)
      case Fail(e) => Outcome(st.out, Some(e))
      case Enter(next) => Run(inside, next, region)
      case Prune =>
        match SkipNode(Escaped(payload) + inside, 0)
        case None => Outcome(st.out, Some(UnclosedNode))
        case Some(after) => Run(after, st, region)
  }

  lemma RunOpening(kind: Byte, payload: seq<Byte>, inside: seq<Byte>, st: State, region: Region)
    requires AtMark(inside)
    ensures Run([NODE_START, kind] + (Escaped(payload) + inside), st, region) == Opened(kind, payload, inside, st, region)
  {
    hide Open, IsTile;
    var body := Escaped(payload) + inside;
    var s := [NODE_START, kind] + body;
    assert s[2..] == body;
    UnescapeInvertsEscape(payload, inside);
    hide Unescape, SkipNode, Escaped;
  }

  /** Having walked the children, the end mark closes the node on both sides. */
  lemma ClosingNode(n: Node, rest: seq<Byte>, st: State, next: State, region: Region)
    requires !(IsTile(n.kind) && st.base.None?) && Open(n.kind, n.payload, st, region) == Enter(next)
    ensures Resume(WalkAll(n.children, next, region), [NODE_END] + rest, region) == Resume(WalkNode(n, st, region), rest, region)
  {
    hide Open, Close;
    assert ([NODE_END] + rest)[1..] == rest;
  }

  lemma {:induction false} RunPrinted(n: Node, rest: seq<Byte>, st: State, region: Region)
    requires PlainKinds(n)
    ensures Run(Print(n) + rest, st, region) == Resume(WalkNode(n, st, region), rest, region)
    decreases n, 0
  {
    hide OpenArea, OpenTile, OpenItem;
    var closing := [NODE_END] + rest;
    var inside := PrintAll(n.children) + closing;
    var body := Escaped(n.payload) + inside;
    var s := Print(n) + rest;
    assert s == [NODE_START, n.kind] + body;
    PrintedMarks(n.children, closing);
    RunOpening(n.kind, n.payload, inside, st, region);
    hide Unescape, PlainKinds;
    SkipLandsAfterNode(n.payload, n.children, rest);
    if !(IsTile(n.kind) && st.base.None?) {
      var opening := Open(n.kind, n.payload, st, region);
      if opening.Enter? {
        RunAllPrinted(n.children, closing, opening.state, region);
        ClosingNode(n, rest, st, opening.state, region);
      }
    }
  }

  /** Reading any printed trees is walking them, from every state, whatever follows. */
  lemma {:induction false} RunAllPrinted(ns: seq<Node>, rest: seq<Byte>, st: State, region: Region)
    requires AllPlainKinds(ns)
    ensures Run(PrintAll(ns) + rest, st, region) == Resume(WalkAll(ns, st, region), rest, region)
    decreases ns
  {
    if ns == [] {
      assert PrintAll(ns) + rest == rest;
    } else {
      var tail := PrintAll(ns[1..]) + rest;
      assert PrintAll(ns) + rest == Print(ns[0]) + tail;
      RunPrinted(ns[0], tail, st, region);
      var w := WalkNode(ns[0], st, region);
      if w.Walked? { RunAllPrinted(ns[1..], rest, w.state, region); }
    }
  }

  function FileBytes(root: Node): seq<Byte> { [0, 0, 0, 0] + Print(root) }

  /** For every tree of plain types, well formed or not: the machine's tiles and error are those of the walk. */
  lemma ReaderIsWalk(root: Node, region: Region)
    requires PlainKinds(root) && root.kind == ROOT && |root.payload| >= 16
    ensures ReadTiles(FileBytes(root), region)
         == match WalkNode(root, START, region)
            case Stopped(tiles, e) => Outcome(tiles, Some(e))
            case Walked(st) => Outcome(st.out, None)
  {
    var s := FileBytes(root);
    var inside := PrintAll(root.children) + [NODE_END];
    assert s[6..] == Escaped(root.payload) + inside;
    PrintedMarks(root.children, [NODE_END]);
    UnescapeInvertsEscape(root.payload, inside);
    assert s[4..] == Print(root) + [];
    RunPrinted(root, [], START, region);
  }
}
