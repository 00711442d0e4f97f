/** The layout told by its result: where each rectangle stands in the final map, and how large it is. */
module MapRules {
  import opened Common
  import opened MapLayout
  import opened MapGeometry

  // ---- zones: the cursor before each child ---------------------------------------------------------

  ghost function CursorAt(cs: seq<Node>, c: Cursor, ix: real, wrapAt: real, i: nat): Cursor
    requires i <= |cs|
  {
    if i == 0 then c else TileNext(cs[i - 1], CursorAt(cs, c, ix, wrapAt, i - 1), ix, wrapAt)
  }

  lemma {:induction false} CursorShifts(cs: seq<Node>, c: Cursor, ix: real, wrapAt: real, i: nat)
    requires 0 < i <= |cs|
    ensures CursorAt(cs, c, ix, wrapAt, i) == CursorAt(cs[1..], TileNext(cs[0], c, ix, wrapAt), ix, wrapAt, i - 1)
  {
    if i > 1 {
      CursorShifts(cs, c, ix, wrapAt, i - 1);
      assert cs[1..][i - 2] == cs[i - 1];
    } else {
      assert CursorAt(cs, c, ix, wrapAt, 0) == c;
    }
  }

  lemma {:induction false} SlotIs(cs: seq<Node>, c: Cursor, ix: real, wrapAt: real, i: nat)
    requires i < |cs|
    ensures TileSlots(cs, c, ix, wrapAt)[i] == TileSlot(cs[i], CursorAt(cs, c, ix, wrapAt, i), ix, wrapAt)
  {
    if i > 0 {
      SlotIs(cs[1..], TileNext(cs[0], c, ix, wrapAt), ix, wrapAt, i - 1);
      CursorShifts(cs, c, ix, wrapAt, i);
    }
  }

  lemma {:induction false} TileIs(cs: seq<Node>, c: Cursor, ix: real, wrapAt: real)
    ensures Tile(cs, c, ix, wrapAt) == CursorAt(cs, c, ix, wrapAt, |cs|)
  {
    if cs != [] {
      TileIs(cs[1..], TileNext(cs[0], c, ix, wrapAt), ix, wrapAt);
      CursorShifts(cs, c, ix, wrapAt, |cs|);
    }
  }

  // ---- zones: one container --------------------------------------------------------------------------

  ghost function ZoneCursor(n: Node, x: real, y: real, avail: real, i: nat): Cursor
    requires i <= |n.children|
  {
    var inner := InnerOrigin(Point(x, y));
    CursorAt(n.children, Cursor(inner.x, inner.y, 0.0), inner.x, WrapAt(Point(x, y), avail), i)
  }

  lemma ZoneSlot(n: Node, x: real, y: real, avail: real, i: nat)
    requires HintFree(n) && n.kind == Zone && i < |n.children|
    ensures var b, c, s := ChildBox(n, x, y, avail, i), ZoneCursor(n, x, y, avail, i), n.children[i];
      && Point(b.x, b.y) == TileSlot(s, c, x + PADDING, WrapAt(Point(x, y), avail))
      && ZoneCursor(n, x, y, avail, i + 1) == TileNext(s, c, x + PADDING, WrapAt(Point(x, y), avail))
      && b == Box(s, b.x, b.y, FILE_WIDTH) && b.width == Width(s, FILE_WIDTH) && b.height > 0.0 && b.width >= 64.0
  {
    var inner := InnerOrigin(Point(x, y));
    SlotIs(n.children, Cursor(inner.x, inner.y, 0.0), inner.x, WrapAt(Point(x, y), avail), i);
    ChildAtSlot(n, x, y, avail, i);
    var b := ChildBox(n, x, y, avail, i);
    HeightPositive(n.children[i], b.x, b.y, FILE_WIDTH);
    WidthPositive(n.children[i], FILE_WIDTH);
  }

  /** Bottom is the lowest edge of the first i children, and a child in the row of the last of them reaches it. */
  ghost predicate RowEnds(n: Node, x: real, y: real, avail: real, i: nat, bottom: real)
    requires 0 < i <= |n.children|
  {
    && (forall k: nat :: k < i ==> Bottom(ChildBox(n, x, y, avail, k)) <= bottom)
    && exists k: nat :: k < i && ChildBox(n, x, y, avail, k).y == ChildBox(n, x, y, avail, i - 1).y
        && Bottom(ChildBox(n, x, y, avail, k)) == bottom
  }

  function Bottom(r: Rect): real {
    r.y + r.height
  }

  /** The cursor after i children is a gap right of the last one, in its row, and knows the row's height. */
  lemma {:induction false} CursorTells(n: Node, x: real, y: real, avail: real, i: nat)
    requires HintFree(n) && n.kind == Zone && 0 < i <= |n.children|
    ensures var c, b := ZoneCursor(n, x, y, avail, i), ChildBox(n, x, y, avail, i - 1);
      && c.x == b.x + b.width + GAP && c.x > x + PADDING && c.y == b.y && c.rowH > 0.0
      && RowEnds(n, x, y, avail, i, c.y + c.rowH)
  {
    var c, b := ZoneCursor(n, x, y, avail, i), ChildBox(n, x, y, avail, i - 1);
    ZoneSlot(n, x, y, avail, i - 1);
    if i > 1 {
      CursorTells(n, x, y, avail, i - 1);
      RowGoesOn(n, x, y, avail, i);
    } else {
      assert Bottom(ChildBox(n, x, y, avail, 0)) == c.y + c.rowH;
    }
  }

  lemma RowGoesOn(n: Node, x: real, y: real, avail: real, i: nat)
    requires HintFree(n) && n.kind == Zone && 1 < i <= |n.children|
    requires var c, b := ZoneCursor(n, x, y, avail, i - 1), ChildBox(n, x, y, avail, i - 2);
      && c.x == b.x + b.width + GAP && c.x > x + PADDING && c.y == b.y && c.rowH > 0.0
      && RowEnds(n, x, y, avail, i - 1, c.y + c.rowH)
    ensures var c, b := ZoneCursor(n, x, y, avail, i), ChildBox(n, x, y, avail, i - 1);
      c.x > x + PADDING && c.rowH > 0.0 && RowEnds(n, x, y, avail, i, c.y + c.rowH)
  {
    var c0, c := ZoneCursor(n, x, y, avail, i - 1), ZoneCursor(n, x, y, avail, i);
    var b := ChildBox(n, x, y, avail, i - 1);
    ZoneSlot(n, x, y, avail, i - 1);
    assert c0.y + c0.rowH <= c.y + c.rowH && Bottom(b) <= c.y + c.rowH;
    forall k: nat | k < i ensures Bottom(ChildBox(n, x, y, avail, k)) <= c.y + c.rowH {
    }
    if Bottom(b) < c.y + c.rowH {
      var k: nat :| k < i - 1 && ChildBox(n, x, y, avail, k).y == ChildBox(n, x, y, avail, i - 2).y
        && Bottom(ChildBox(n, x, y, avail, k)) == c0.y + c0.rowH;
      assert ChildBox(n, x, y, avail, k).y == b.y && Bottom(ChildBox(n, x, y, avail, k)) == c.y + c.rowH;
    } else {
      assert ChildBox(n, x, y, avail, i - 1).y == b.y && Bottom(ChildBox(n, x, y, avail, i - 1)) == c.y + c.rowH;
    }
  }

  /** Where a zone puts its first child, and each child after another. */
  lemma ZoneChild(n: Node, x: real, y: real, avail: real, i: nat)
    requires HintFree(n) && n.kind == Zone && i < |n.children|
    ensures var me := ChildBox(n, x, y, avail, i);
      if i == 0 then me.x == x + PADDING && me.y == y + NODE_HEIGHT + GAP
      else
        var before := ChildBox(n, x, y, avail, i - 1);
        var right := before.x + before.width + GAP;
        if right + me.width <= x + Max(120.0, avail - PADDING * 2.0) + PADDING then me.x == right && me.y == before.y
        else me.x == x + PADDING && RowEnds(n, x, y, avail, i, me.y - GAP)
  {
    ZoneSlot(n, x, y, avail, i);
    var c := ZoneCursor(n, x, y, avail, i);
    BoxWidth(n.children[i], c.x, c.y, FILE_WIDTH);
    if i > 0 {
      CursorTells(n, x, y, avail, i);
    }
  }

  lemma ZoneEnd(n: Node, x: real, y: real, avail: real)
    requires HintFree(n) && n.kind == Zone && n.children != []
    ensures Box(n, x, y, avail).width == Max(120.0, avail - PADDING * 2.0) + PADDING * 2.0
    ensures RowEnds(n, x, y, avail, |n.children|, Bottom(Box(n, x, y, avail)) - PADDING)
  {
    var inner := InnerOrigin(Point(x, y));
    TileIs(n.children, Cursor(inner.x, inner.y, 0.0), inner.x, WrapAt(Point(x, y), avail));
    CursorTells(n, x, y, avail, |n.children|);
  }

  // ---- stacks: one container -------------------------------------------------------------------------

  lemma {:induction false} StackSlotIs(cs: seq<Node>, c: Column, ix: real, w: real, i: nat)
    requires (forall c <- cs :: HintFree(c)) && i < |cs|
    ensures var ps := StackSlots(cs, c.y, ix, w);
      && ps[i].x == ix
      && ps[i].y == (if i == 0 then c.y else ps[i - 1].y + Box(cs[i - 1], ix, ps[i - 1].y, w).height + GAP)
      && (i == |cs| - 1 ==> Stack(cs, c, ix, w).y == ps[i].y + Box(cs[i], ix, ps[i].y, w).height + GAP)
  {
    assert HintFree(cs[0]);
    var b := Box(cs[0], ix, c.y, w);
    var c' := Column(b.y + b.height + GAP, Max(c.maxW, b.width));
    if i > 0 {
      StackSlotIs(cs[1..], c', ix, w, i - 1);
    } else if |cs| == 1 {
      assert cs[1..] == [];
    }
  }

  /** A workspace, or a container that is no zone, puts its children below one another. */
  lemma StackChildIs(n: Node, x: real, y: real, avail: real, i: nat)
    requires HintFree(n) && n.kind != Zone && i < |n.children|
    ensures var me := ChildBox(n, x, y, avail, i);
      && me.x == x + PADDING
      && me.y == if i == 0 then y + NODE_HEIGHT + GAP else Bottom(ChildBox(n, x, y, avail, i - 1)) + GAP
  {
    var inner, w := InnerOrigin(Point(x, y)), InnerWidth(avail);
    StackSlotIs(n.children, Column(inner.y, w), inner.x, w, i);
    ChildAtSlot(n, x, y, avail, i);
    if i > 0 {
      StackSlotIs(n.children, Column(inner.y, w), inner.x, w, i - 1);
      ChildAtSlot(n, x, y, avail, i - 1);
    }
  }

  lemma {:induction false} WidestReached(cs: seq<Node>, avail: real, m: real) returns (i: nat)
    ensures Widest(cs, avail, m) == m || (i < |cs| && Widest(cs, avail, m) == Width(cs[i], avail))
  {
    i := 0;
    if cs != [] {
      i := WidestReached(cs[1..], avail, Max(m, Width(cs[0], avail)));
      i := if i < |cs| - 1 && Widest(cs, avail, m) == Width(cs[i + 1], avail) then i + 1 else 0;
    }
  }

  /** The width of a workspace: that of its widest child or the default, with the padding. */
  ghost predicate WideEnough(n: Node, x: real, y: real, avail: real, width: real) {
    var least := Max(120.0, avail - PADDING * 2.0);
    && least <= width && (forall i: nat :: i < |n.children| ==> ChildBox(n, x, y, avail, i).width <= width)
    && (width == least || exists i: nat :: i < |n.children| && ChildBox(n, x, y, avail, i).width == width)
  }

  lemma StackEnd(n: Node, x: real, y: real, avail: real)
    requires HintFree(n) && n.kind != Zone && n.kind != File && n.children != []
    ensures var me, end := Box(n, x, y, avail), Bottom(ChildBox(n, x, y, avail, |n.children| - 1)) + PADDING - y;
      if n.kind == Workspace then me.height == Max(NODE_HEIGHT * 2.0, end)
      else me.height == end && me.width == Max(120.0, avail - PADDING * 2.0) + PADDING * 2.0
  {
    var inner, w, last := InnerOrigin(Point(x, y)), InnerWidth(avail), |n.children| - 1;
    StackSlotIs(n.children, Column(inner.y, w), inner.x, w, last);
    ChildAtSlot(n, x, y, avail, last);
  }

  lemma WorkspaceWidth(n: Node, x: real, y: real, avail: real)
    requires HintFree(n) && n.kind == Workspace && n.children != []
    ensures WideEnough(n, x, y, avail, Box(n, x, y, avail).width - PADDING * 2.0)
  {
    var w := InnerWidth(avail);
    BoxWidth(n, x, y, avail);
    WidestBounds(n.children, w, w);
    var k := WidestReached(n.children, w, w);
    forall i: nat | i < |n.children| ensures ChildBox(n, x, y, avail, i).width == Width(n.children[i], w) {
      ChildAtSlot(n, x, y, avail, i);
    }
    assert Widest(n.children, w, w) == w || ChildBox(n, x, y, avail, k).width == Widest(n.children, w, w);
  }

  // ---- the rules, on rectangles alone ------------------------------------------------------------------

  /** `bottom` is the lowest edge of the first i children, and a child in the row of the last of them reaches it. */
  predicate LowestEdge(kids: seq<Rect>, i: nat, bottom: real) {
    && 0 < i <= |kids| && (forall k :: 0 <= k < i ==> Bottom(kids[k]) <= bottom)
    && exists k :: 0 <= k < i && kids[k].y == kids[i - 1].y && Bottom(kids[k]) == bottom
  }

  /** Rows from left to right: a child stands a gap right of the one before if it ends there before the zone's right
      padding, and otherwise starts the next row, a gap below the tallest child of the row. */
  predicate InRows(z: Rect, w: real, kids: seq<Rect>, i: nat)
    requires i < |kids|
  {
    if i == 0 then kids[i].x == z.x + PADDING && kids[i].y == z.y + NODE_HEIGHT + GAP
    else
      var right := kids[i - 1].x + kids[i - 1].width + GAP;
      if right + kids[i].width <= z.x + Max(120.0, w - PADDING * 2.0) + PADDING
      then kids[i].x == right && kids[i].y == kids[i - 1].y
      else kids[i].x == z.x + PADDING && LowestEdge(kids, i, kids[i].y - GAP)
  }

  predicate InColumn(r: Rect, kids: seq<Rect>, i: nat)
    requires i < |kids|
  {
    && kids[i].x == r.x + PADDING
    && kids[i].y == if i == 0 then r.y + NODE_HEIGHT + GAP else Bottom(kids[i - 1]) + GAP
  }

  predicate ZoneRule(z: Rect, w: real, kids: seq<Rect>) {
    && z.width == Max(120.0, w - PADDING * 2.0) + PADDING * 2.0 && LowestEdge(kids, |kids|, Bottom(z) - PADDING)
    && forall i :: 0 <= i < |kids| ==> InRows(z, w, kids, i)
  }

  /** The default width or that of the widest child, whichever is more. */
  predicate AsWide(w: real, kids: seq<Rect>, inner: real) {
    var least := Max(120.0, w - PADDING * 2.0);
    && least <= inner && (forall i :: 0 <= i < |kids| ==> kids[i].width <= inner)
    && (inner == least || exists i :: 0 <= i < |kids| && kids[i].width == inner)
  }

  predicate WorkspaceRule(r: Rect, w: real, kids: seq<Rect>) {
    && kids != [] && r.height == Max(NODE_HEIGHT * 2.0, Bottom(kids[|kids| - 1]) + PADDING - r.y)
    && AsWide(w, kids, r.width - PADDING * 2.0)
    && forall i :: 0 <= i < |kids| ==> InColumn(r, kids, i)
  }

  predicate ContainerRule(r: Rect, w: real, kids: seq<Rect>) {
    && kids != [] && r.height == Bottom(kids[|kids| - 1]) + PADDING - r.y
    && r.width == Max(120.0, w - PADDING * 2.0) + PADDING * 2.0
    && forall i :: 0 <= i < |kids| ==> InColumn(r, kids, i)
  }

  predicate Rule(kind: Kind, r: Rect, w: real, kids: seq<Rect>) {
    match kind
    case File => r.width == 96.0 && r.height == 24.0
    case Zone => if kids == [] then r.width == Max(64.0, w) && r.height == 28.0 else ZoneRule(r, w, kids)
    case Workspace => if kids == [] then r.width == Max(64.0, w) && r.height == 28.0 else WorkspaceRule(r, w, kids)
    case Other => if kids == [] then r.width == Max(64.0, w) && r.height == 28.0 else ContainerRule(r, w, kids)
  }

  // ---- the rules hold ----------------------------------------------------------------------------------

  ghost function ChildBoxes(n: Node, x: real, y: real, avail: real): (kids: seq<Rect>)
    ensures |kids| == |n.children|
  {
    seq(|n.children|, i requires 0 <= i < |n.children| => ChildBox(n, x, y, avail, i))
  }

  lemma EdgeIs(n: Node, x: real, y: real, avail: real, i: nat, bottom: real)
    requires 0 < i <= |n.children| && RowEnds(n, x, y, avail, i, bottom)
    ensures LowestEdge(ChildBoxes(n, x, y, avail), i, bottom)
  {
    var kids := ChildBoxes(n, x, y, avail);
    var k: nat :| k < i && ChildBox(n, x, y, avail, k).y == ChildBox(n, x, y, avail, i - 1).y
      && Bottom(ChildBox(n, x, y, avail, k)) == bottom;
    assert kids[k].y == kids[i - 1].y && Bottom(kids[k]) == bottom;
  }

  lemma ZoneRows(n: Node, x: real, y: real, avail: real)
    requires HintFree(n) && n.kind == Zone && n.children != []
    ensures ZoneRule(Box(n, x, y, avail), avail, ChildBoxes(n, x, y, avail))
  {
    var kids := ChildBoxes(n, x, y, avail);
    ZoneEnd(n, x, y, avail);
    EdgeIs(n, x, y, avail, |n.children|, Bottom(Box(n, x, y, avail)) - PADDING);
    forall i | 0 <= i < |kids| ensures InRows(Box(n, x, y, avail), avail, kids, i) {
      ZoneRow(n, x, y, avail, i);
    }
  }

  lemma ZoneRow(n: Node, x: real, y: real, avail: real, i: nat)
    requires HintFree(n) && n.kind == Zone && i < |n.children|
    ensures InRows(Box(n, x, y, avail), avail, ChildBoxes(n, x, y, avail), i)
  {
    var kids, me := ChildBoxes(n, x, y, avail), ChildBox(n, x, y, avail, i);
    ZoneChild(n, x, y, avail, i);
    BoxCorner(n, x, y, avail);
    assert kids[i] == me;
    if i > 0 {
      assert kids[i - 1] == ChildBox(n, x, y, avail, i - 1);
      if RowEnds(n, x, y, avail, i, me.y - GAP) {
        EdgeIs(n, x, y, avail, i, me.y - GAP);
      }
    }
  }

  lemma BoxCorner(n: Node, x: real, y: real, avail: real)
    requires HintFree(n)
    ensures Box(n, x, y, avail).x == x && Box(n, x, y, avail).y == y
  {
  }

  lemma StackRows(n: Node, x: real, y: real, avail: real)
    requires HintFree(n) && n.kind != Zone && !Leaf(n)
    ensures Rule(n.kind, Box(n, x, y, avail), avail, ChildBoxes(n, x, y, avail))
  {
    if n.kind == Workspace {
      WorkspaceRows(n, x, y, avail);
    } else {
      ContainerRows(n, x, y, avail);
    }
  }

  lemma WorkspaceRows(n: Node, x: real, y: real, avail: real)
    requires HintFree(n) && n.kind == Workspace && n.children != []
    ensures WorkspaceRule(Box(n, x, y, avail), avail, ChildBoxes(n, x, y, avail))
  {
    WorkspaceHeight(n, x, y, avail);
    StackColumns(n, x, y, avail);
    WorkspaceWidth(n, x, y, avail);
    WidestKid(n, x, y, avail, Box(n, x, y, avail).width - PADDING * 2.0);
  }

  lemma WorkspaceHeight(n: Node, x: real, y: real, avail: real)
    requires HintFree(n) && n.kind == Workspace && n.children != []
    ensures var me, kids := Box(n, x, y, avail), ChildBoxes(n, x, y, avail);
      kids != [] && me.height == Max(NODE_HEIGHT * 2.0, Bottom(kids[|kids| - 1]) + PADDING - me.y)
  {
    StackEnd(n, x, y, avail);
    LastKid(n, x, y, avail);
    BoxCorner(n, x, y, avail);
  }

  lemma ContainerRows(n: Node, x: real, y: real, avail: real)
    requires HintFree(n) && n.kind == Other && n.children != []
    ensures ContainerRule(Box(n, x, y, avail), avail, ChildBoxes(n, x, y, avail))
  {
    StackEnd(n, x, y, avail);
    LastKid(n, x, y, avail);
    StackColumns(n, x, y, avail);
    BoxCorner(n, x, y, avail);
  }

  lemma LastKid(n: Node, x: real, y: real, avail: real)
    requires n.children != []
    ensures var kids := ChildBoxes(n, x, y, avail);
      kids != [] && kids[|kids| - 1] == ChildBox(n, x, y, avail, |n.children| - 1)
  {
  }

  lemma StackColumns(n: Node, x: real, y: real, avail: real)
    requires HintFree(n) && n.kind != Zone
    ensures var kids := ChildBoxes(n, x, y, avail);
      forall i :: 0 <= i < |kids| ==> InColumn(Box(n, x, y, avail), kids, i)
  {
    var kids := ChildBoxes(n, x, y, avail);
    forall i | 0 <= i < |kids| ensures InColumn(Box(n, x, y, avail), kids, i) {
      StackColumn(n, x, y, avail, i);
    }
  }

  lemma StackColumn(n: Node, x: real, y: real, avail: real, i: nat)
    requires HintFree(n) && n.kind != Zone && i < |n.children|
    ensures InColumn(Box(n, x, y, avail), ChildBoxes(n, x, y, avail), i)
  {
    var kids := ChildBoxes(n, x, y, avail);
    StackChildIs(n, x, y, avail, i);
    BoxCorner(n, x, y, avail);
    assert kids[i] == ChildBox(n, x, y, avail, i);
    assert i > 0 ==> kids[i - 1] == ChildBox(n, x, y, avail, i - 1);
  }

  lemma WidestKid(n: Node, x: real, y: real, avail: real, inner: real)
    requires WideEnough(n, x, y, avail, inner)
    ensures AsWide(avail, ChildBoxes(n, x, y, avail), inner)
  {
    var kids := ChildBoxes(n, x, y, avail);
    if inner != Max(120.0, avail - PADDING * 2.0) {
      var k: nat :| k < |n.children| && ChildBox(n, x, y, avail, k).width == inner;
      assert kids[k].width == inner;
    }
  }

  // ---- every node of every tree --------------------------------------------------------------------------

  lemma {:induction false} ChildPath(n: Node, p: seq<nat>, i: nat)
    requires IsPath(n, p) && !Leaf(At(n, p)) && i < |At(n, p).children|
    ensures IsPath(n, p + [i])
    decreases |p|
  {
    if p == [] {
      assert p + [i] == [i] && [i][1..] == [];
    } else {
      assert (p + [i])[1..] == p[1..] + [i];
      ChildPath(n.children[p[0]], p[1..], i);
    }
  }

  /** The rectangles that the final map holds for the children of the node at a path. */
  ghost function Kids(root: Node, x: real, y: real, avail: real, p: seq<nat>): (kids: seq<Rect>)
    requires UniqueIds(root) && IsPath(root, p)
    ensures |kids| == if Leaf(At(root, p)) then 0 else |At(root, p).children|
  {
    var n := At(root, p);
    if Leaf(n) then []
    else seq(|n.children|, i requires 0 <= i < |n.children| =>
               ChildPath(root, p, i); Position(root, x, y, avail, p + [i]))
  }

  /** In the final map of any tree without hints, every node obeys the rule of its kind. */
  lemma LayoutRules(root: Node, x: real, y: real, avail: real, p: seq<nat>)
    requires UniqueIds(root) && HintFree(root) && IsPath(root, p)
    ensures Rule(At(root, p).kind, Position(root, x, y, avail, p), AvailAt(root, avail, p), Kids(root, x, y, avail, p))
    ensures p == [] ==> Position(root, x, y, avail, p).x == x && Position(root, x, y, avail, p).y == y
  {
    var n := At(root, p);
    var x', y', avail' := Descend(root, x, y, avail, p);
    Lookup(root, x, y, avail, p);
    if !Leaf(n) {
      assert Kids(root, x, y, avail, p) == ChildBoxes(n, x', y', avail') by {
        forall i: nat | i < |n.children|
          ensures Kids(root, x, y, avail, p)[i] == ChildBoxes(n, x', y', avail')[i]
        {
          ChildPath(root, p, i);
          Lookup(root, x, y, avail, p + [i]);
          PlaceChild(n, x', y', avail', i);
        }
      }
      if n.kind == Zone {
        ZoneRows(n, x', y', avail');
      } else {
        StackRows(n, x', y', avail');
      }
    }
  }

  /** The width that reaches a child: the fixed file width in a zone, the inner width elsewhere. */
  lemma {:induction false} ChildWidth(root: Node, avail: real, p: seq<nat>, i: nat)
    requires IsPath(root, p) && !Leaf(At(root, p)) && i < |At(root, p).children|
    ensures IsPath(root, p + [i]) && AvailAt(root, avail, p + [i])
         == if At(root, p).kind == Zone then 96.0 else Max(120.0, AvailAt(root, avail, p) - PADDING * 2.0)
    decreases |p|
  {
    ChildPath(root, p, i);
    if p == [] {
      assert p + [i] == [i] && [i][1..] == [];
    } else {
      assert (p + [i])[1..] == p[1..] + [i];
      ChildWidth(root.children[p[0]], ChildAvail(root, avail), p[1..], i);
    }
  }
}
