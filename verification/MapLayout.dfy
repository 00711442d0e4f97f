/**
  The deterministic grid layout of the map view (extension/src/webviews/map-view-renderer.ts).

  `Box` and `Slots` say where a node and its children go; `Placements` is the set of
  writes a layout makes; `MapView.LayoutTree` is the recursive procedure that makes them,
  including the second layout of a child that a zone wraps to a new row.  Coordinates are
  reals: rounding is not modelled.
 */
module MapLayout {
  import opened Common

  const PADDING := 12.0
  const GAP := 6.0 // PADDING / 2
  const NODE_HEIGHT := 28.0
  const FILE_WIDTH := 96.0
  const FILE_HEIGHT := 24.0

  datatype Kind = File | Workspace | Zone | Other
  datatype Point = Point(x: real, y: real)
  datatype Rect = Rect(x: real, y: real, width: real, height: real)
  datatype Node = Node(id: string, kind: Kind, hint: Option<Point>, children: seq<Node>)

  /** The zone's write head: next free x, top of the current row, height of that row. */
  datatype Cursor = Cursor(x: real, y: real, rowH: real)

  /** A vertical stack under construction: next free y and the widest child so far. */
  datatype Column = Column(y: real, maxW: real)

  // ---- where things go -----------------------------------------------------------------

  predicate Leaf(n: Node) {
    n.kind == File || n.children == []
  }

  function InnerWidth(avail: real): real {
    Max(120.0, avail - PADDING * 2.0)
  }

  function ChildAvail(n: Node, avail: real): real {
    if n.kind == Zone then FILE_WIDTH else InnerWidth(avail)
  }

  function Origin(n: Node, x: real, y: real): Point {
    if n.hint.Some? then n.hint.value else Point(x, y)
  }

  function InnerOrigin(o: Point): Point {
    Point(o.x + PADDING, o.y + NODE_HEIGHT + GAP)
  }

  /** Where a zone row must stop. */
  function WrapAt(o: Point, avail: real): real {
    o.x + InnerWidth(avail) + PADDING
  }

  /** The rectangle a node gets when it is laid out at (x, y). */
  function Box(n: Node, x: real, y: real, avail: real): Rect
    decreases n, 0
  {
    var o := Origin(n, x, y);
    var inner := InnerOrigin(o);
    var w := InnerWidth(avail);
    if n.kind == File then Rect(o.x, o.y, FILE_WIDTH, FILE_HEIGHT)
    else if n.children == [] then Rect(o.x, o.y, Max(64.0, avail), NODE_HEIGHT)
    else if n.kind == Zone then
      var c := Tile(n.children, Cursor(inner.x, inner.y, 0.0), inner.x, WrapAt(o, avail));
      Rect(o.x, o.y, w + PADDING * 2.0, c.y + c.rowH - o.y + PADDING)
    else
      var c := Stack(n.children, Column(inner.y, w), inner.x, w);
      if n.kind == Workspace
      then Rect(o.x, o.y, c.maxW + PADDING * 2.0, Max(NODE_HEIGHT * 2.0, c.y - o.y + GAP))
      else Rect(o.x, o.y, w + PADDING * 2.0, c.y - o.y + GAP)
  }

  function Stack(cs: seq<Node>, c: Column, ix: real, w: real): Column
    decreases cs, 0
  {
    if cs == [] then c
    else
      var b := Box(cs[0], ix, c.y, w);
      Stack(cs[1..], Column(b.y + b.height + GAP, Max(c.maxW, b.width)), ix, w)
  }

  /** Where the zone finally puts its next child: in the current row, or at the start of a new one. */
  function TileSlot(child: Node, c: Cursor, ix: real, wrapAt: real): Point
    decreases child, 1
  {
    if c.x + Box(child, c.x, c.y, FILE_WIDTH).width > wrapAt && c.x != ix
    then Point(ix, c.y + c.rowH + GAP)
    else Point(c.x, c.y)
  }

  function TileNext(child: Node, c: Cursor, ix: real, wrapAt: real): Cursor
    decreases child, 2
  {
    var s := TileSlot(child, c, ix, wrapAt);
    var b := Box(child, s.x, s.y, FILE_WIDTH);
    var rowH := if s == Point(c.x, c.y) then c.rowH else 0.0;
    Cursor(s.x + b.width + GAP, s.y, Max(rowH, b.height))
  }

  function Tile(cs: seq<Node>, c: Cursor, ix: real, wrapAt: real): Cursor
    decreases cs, 0
  {
    if cs == [] then c else Tile(cs[1..], TileNext(cs[0], c, ix, wrapAt), ix, wrapAt)
  }

  // ---- the layout as a set of writes ---------------------------------------------------

  function StackSlots(cs: seq<Node>, y: real, ix: real, w: real): (ps: seq<Point>)
    ensures |ps| == |cs|
  {
    if cs == [] then []
    else
      var b := Box(cs[0], ix, y, w);
      [Point(ix, y)] + StackSlots(cs[1..], b.y + b.height + GAP, ix, w)
  }

  function TileSlots(cs: seq<Node>, c: Cursor, ix: real, wrapAt: real): (ps: seq<Point>)
    ensures |ps| == |cs|
  {
    if cs == [] then []
    else [TileSlot(cs[0], c, ix, wrapAt)] + TileSlots(cs[1..], TileNext(cs[0], c, ix, wrapAt), ix, wrapAt)
  }

  /** The points a container hands to its children. */
  function Slots(n: Node, x: real, y: real, avail: real): (ps: seq<Point>)
    ensures |ps| == |n.children|
  {
    var o := Origin(n, x, y);
    var inner := InnerOrigin(o);
    if n.kind == Zone
    then TileSlots(n.children, Cursor(inner.x, inner.y, 0.0), inner.x, WrapAt(o, avail))
    else StackSlots(n.children, inner.y, inner.x, InnerWidth(avail))
  }

  /** Every rectangle written for the subtree, each child laid out once, at its final slot. */
  function Placements(n: Node, x: real, y: real, avail: real): map<string, Rect>
    decreases n, 0
  {
    var inside := if Leaf(n) then map[] else PlaceAll(n.children, Slots(n, x, y, avail), ChildAvail(n, avail));
    inside[n.id := Box(n, x, y, avail)]
  }

  function PlaceAll(cs: seq<Node>, ps: seq<Point>, avail: real): map<string, Rect>
    requires |ps| == |cs|
    decreases cs, 0
  {
    if cs == [] then map[]
    else Placements(cs[0], ps[0].x, ps[0].y, avail) + PlaceAll(cs[1..], ps[1..], avail)
  }

  function StackWrites(cs: seq<Node>, y: real, ix: real, w: real): map<string, Rect> {
    PlaceAll(cs, StackSlots(cs, y, ix, w), w)
  }

  function TileWrites(cs: seq<Node>, c: Cursor, ix: real, wrapAt: real): map<string, Rect> {
    PlaceAll(cs, TileSlots(cs, c, ix, wrapAt), FILE_WIDTH)
  }

  /** The ids a layout of the subtree visits (children of a file are never visited). */
  function Ids(n: Node): set<string>
    decreases n, 0
  {
    {n.id} + if Leaf(n) then {} else IdsAll(n.children)
  }

  function IdsAll(cs: seq<Node>): set<string>
    decreases cs, 0
  {
    if cs == [] then {} else Ids(cs[0]) + IdsAll(cs[1..])
  }

  lemma {:induction false} PlacementKeys(n: Node, x: real, y: real, avail: real)
    ensures Placements(n, x, y, avail).Keys == Ids(n)
    decreases n, 0
  {
    if !Leaf(n) {
      PlaceAllKeys(n.children, Slots(n, x, y, avail), ChildAvail(n, avail));
    }
  }

  lemma {:induction false} PlaceAllKeys(cs: seq<Node>, ps: seq<Point>, avail: real)
    requires |ps| == |cs|
    ensures PlaceAll(cs, ps, avail).Keys == IdsAll(cs)
    decreases cs, 0
  {
    if cs != [] {
      PlacementKeys(cs[0], ps[0].x, ps[0].y, avail);
      PlaceAllKeys(cs[1..], ps[1..], avail);
    }
  }

  // ---- one turn of each loop -----------------------------------------------------------

  lemma StackUnroll(m: map<string, Rect>, cs: seq<Node>, i: nat, c: Column, ix: real, w: real)
    requires i < |cs|
    ensures var b := Box(cs[i], ix, c.y, w);
            var below := b.y + b.height + GAP;
            && Stack(cs[i..], c, ix, w) == Stack(cs[i + 1..], Column(below, Max(c.maxW, b.width)), ix, w)
            && m + StackWrites(cs[i..], c.y, ix, w)
               == (m + Placements(cs[i], ix, c.y, w)) + StackWrites(cs[i + 1..], below, ix, w)
  {
    var b := Box(cs[i], ix, c.y, w);
    var below := b.y + b.height + GAP;
    assert cs[i..][0] == cs[i] && cs[i..][1..] == cs[i + 1..];
    var slots := StackSlots(cs[i..], c.y, ix, w);
    assert slots[1..] == StackSlots(cs[i + 1..], below, ix, w);
  }

  lemma StackDone(m: map<string, Rect>, cs: seq<Node>, c: Column, ix: real, w: real)
    ensures Stack(cs[|cs|..], c, ix, w) == c
    ensures m + StackWrites(cs[|cs|..], c.y, ix, w) == m
  {
  }

  /** A turn of the zone loop: laying the child out at the cursor and again at its final slot
      leaves exactly the writes of the final slot. */
  lemma TileUnroll(m: map<string, Rect>, cs: seq<Node>, i: nat, c: Cursor, ix: real, wrapAt: real)
    requires i < |cs|
    ensures var s := TileSlot(cs[i], c, ix, wrapAt);
            var after := TileNext(cs[i], c, ix, wrapAt);
            var final := Placements(cs[i], s.x, s.y, FILE_WIDTH);
            && Tile(cs[i..], c, ix, wrapAt) == Tile(cs[i + 1..], after, ix, wrapAt)
            && m + Placements(cs[i], c.x, c.y, FILE_WIDTH) + final == m + final
            && m + TileWrites(cs[i..], c, ix, wrapAt) == (m + final) + TileWrites(cs[i + 1..], after, ix, wrapAt)
  {
    var s := TileSlot(cs[i], c, ix, wrapAt);
    var after := TileNext(cs[i], c, ix, wrapAt);
    assert cs[i..][0] == cs[i] && cs[i..][1..] == cs[i + 1..];
    var slots := TileSlots(cs[i..], c, ix, wrapAt);
    assert slots[1..] == TileSlots(cs[i + 1..], after, ix, wrapAt);
    PlacementKeys(cs[i], c.x, c.y, FILE_WIDTH);
    PlacementKeys(cs[i], s.x, s.y, FILE_WIDTH);
  }

  lemma TileDone(m: map<string, Rect>, cs: seq<Node>, c: Cursor, ix: real, wrapAt: real)
    ensures Tile(cs[|cs|..], c, ix, wrapAt) == c
    ensures m + TileWrites(cs[|cs|..], c, ix, wrapAt) == m
  {
  }

  lemma WriteLast(m: map<string, Rect>, inside: map<string, Rect>, id: string, r: Rect)
    ensures (m + inside)[id := r] == m + inside[id := r]
  {
  }

  // ---- the procedure -------------------------------------------------------------------

  class MapView {
    var positions: map<string, Rect>

    constructor ()
      ensures positions == map[]
    {
      positions := map[];
    }

    /** One host snapshot: forget the old layout and lay the tree out from the top-left corner. */
    method OnLayoutUpdate(tree: Node, viewportWidth: real)
      modifies this
      ensures positions == Placements(tree, PADDING, PADDING, viewportWidth - PADDING * 2.0)
    {
      positions := map[];
      var _ := LayoutTree(tree, PADDING, PADDING, viewportWidth - PADDING * 2.0);
    }

    method LayoutTree(node: Node, x: real, y: real, avail: real) returns (pos: Rect)
      modifies this
      ensures pos == Box(node, x, y, avail)
      ensures positions == old(positions) + Placements(node, x, y, avail)
      decreases node, 1
    {
      var nx, ny := x, y;
      if node.hint.Some? {
        nx, ny := node.hint.value.x, node.hint.value.y;
      }
      if node.kind == File || |node.children| == 0 {
        var w := if node.kind == File then FILE_WIDTH else Max(64.0, avail);
        var h := if node.kind == File then FILE_HEIGHT else NODE_HEIGHT;
        pos := Rect(nx, ny, w, h);
        positions := positions[node.id := pos];
        return;
      }
      pos := LayoutContainer(node, nx, ny, x, y, avail);
    }

    method LayoutContainer(node: Node, nx: real, ny: real, ghost x: real, ghost y: real, avail: real)
      returns (pos: Rect)
      requires !Leaf(node) && Origin(node, x, y) == Point(nx, ny)
      modifies this
      ensures pos == Box(node, x, y, avail)
      ensures positions == old(positions) + Placements(node, x, y, avail)
      decreases node, 0, 1
    {
      var innerX := nx + PADDING;
      var innerY := ny + NODE_HEIGHT + GAP;
      var innerWidth := InnerWidth(avail);
      if node.kind == Workspace {
        var endY, maxChildW := StackChildren(node, innerX, innerY, innerWidth, innerWidth);
        var totalH := endY - ny + GAP;
        pos := Rect(nx, ny, maxChildW + PADDING * 2.0, Max(NODE_HEIGHT * 2.0, totalH));
      } else if node.kind == Zone {
        var end := TileChildren(node, innerX, innerY, nx + innerWidth + PADDING);
        pos := Rect(nx, ny, innerWidth + PADDING * 2.0, end.y + end.rowH - ny + PADDING);
      } else {
        var endY, _ := StackChildren(node, innerX, innerY, innerWidth, innerWidth);
        pos := Rect(nx, ny, innerWidth + PADDING * 2.0, endY - ny + GAP);
      }
      ghost var inside := PlaceAll(node.children, Slots(node, x, y, avail), ChildAvail(node, avail));
      WriteLast(old(positions), inside, node.id, pos);
      positions := positions[node.id := pos];
    }

    /** The vertical loop shared by workspaces and generic containers. */
    method StackChildren(node: Node, ix: real, y: real, w: real, maxW: real) returns (endY: real, maxChildW: real)
      modifies this
      ensures Column(endY, maxChildW) == Stack(node.children, Column(y, maxW), ix, w)
      ensures positions == old(positions) + StackWrites(node.children, y, ix, w)
      decreases node, 0, 0
    {
      endY, maxChildW := y, maxW;
      var cs := node.children;
      assert cs[0..] == cs;
      for i := 0 to |cs|
        invariant Stack(cs[i..], Column(endY, maxChildW), ix, w) == Stack(cs, Column(y, maxW), ix, w)
        invariant positions + StackWrites(cs[i..], endY, ix, w) == old(positions) + StackWrites(cs, y, ix, w)
      {
        StackUnroll(positions, cs, i, Column(endY, maxChildW), ix, w);
        var b := LayoutTree(cs[i], ix, endY, w);
        endY := b.y + b.height + GAP;
        maxChildW := Max(maxChildW, b.width);
      }
      StackDone(positions, cs, Column(endY, maxChildW), ix, w);
    }

    /** The horizontal loop of a zone.  A child that overflows the row is laid out twice. */
    method TileChildren(node: Node, ix: real, iy: real, wrapAt: real) returns (end: Cursor)
      modifies this
      ensures end == Tile(node.children, Cursor(ix, iy, 0.0), ix, wrapAt)
      ensures positions == old(positions) + TileWrites(node.children, Cursor(ix, iy, 0.0), ix, wrapAt)
      decreases node, 0, 0
    {
      var cursorX, cursorY, rowMaxH := ix, iy, 0.0;
      var cs := node.children;
      ghost var start := Cursor(ix, iy, 0.0);
      assert cs[0..] == cs;
      for i := 0 to |cs|
        invariant Tile(cs[i..], Cursor(cursorX, cursorY, rowMaxH), ix, wrapAt) == Tile(cs, start, ix, wrapAt)
        invariant positions + TileWrites(cs[i..], Cursor(cursorX, cursorY, rowMaxH), ix, wrapAt)
               == old(positions) + TileWrites(cs, start, ix, wrapAt)
      {
        TileUnroll(positions, cs, i, Cursor(cursorX, cursorY, rowMaxH), ix, wrapAt);
        var b := LayoutTree(cs[i], cursorX, cursorY, FILE_WIDTH);
        if cursorX + b.width > wrapAt && cursorX != ix {
          cursorX := ix;
          cursorY := cursorY + rowMaxH + GAP;
          rowMaxH := 0.0;
          var wrapped := LayoutTree(cs[i], cursorX, cursorY, FILE_WIDTH);
          cursorX := cursorX + wrapped.width + GAP;
          rowMaxH := Max(rowMaxH, wrapped.height);
        } else {
          cursorX := cursorX + b.width + GAP;
          rowMaxH := Max(rowMaxH, b.height);
        }
      }
      end := Cursor(cursorX, cursorY, rowMaxH);
      TileDone(positions, cs, end, ix, wrapAt);
    }
  }
}
