/** Geometric theorems about the map layout: translation, non-overlap, containment. */
module MapGeometry {
  import opened Common
  import opened MapLayout

  ghost predicate HintFree(n: Node) {
    n.hint.None? && forall c <- n.children :: HintFree(c)
  }

  /** No id is visited twice by a layout of the subtree. */
  ghost predicate UniqueIds(n: Node)
    decreases n, 0
  {
    Leaf(n) || (n.id !in IdsAll(n.children) && UniqueAll(n.children))
  }

  ghost predicate UniqueAll(cs: seq<Node>)
    decreases cs, 0
  {
    cs == [] || (UniqueIds(cs[0]) && Ids(cs[0]) !! IdsAll(cs[1..]) && UniqueAll(cs[1..]))
  }

  // ---- translation ---------------------------------------------------------------------

  function Moved(r: Rect, dx: real, dy: real): Rect {
    Rect(r.x + dx, r.y + dy, r.width, r.height)
  }

  function MovedAll(m: map<string, Rect>, dx: real, dy: real): map<string, Rect> {
    map k | k in m :: Moved(m[k], dx, dy)
  }

  function MovedPoints(ps: seq<Point>, dx: real, dy: real): (qs: seq<Point>)
    ensures |qs| == |ps|
  {
    if ps == [] then [] else [Point(ps[0].x + dx, ps[0].y + dy)] + MovedPoints(ps[1..], dx, dy)
  }

  lemma {:induction false} BoxMoves(n: Node, x: real, y: real, avail: real, dx: real, dy: real)
    requires HintFree(n)
    ensures Box(n, x + dx, y + dy, avail) == Moved(Box(n, x, y, avail), dx, dy)
    decreases n, 0
  {
    if !Leaf(n) {
      var inner := InnerOrigin(Point(x, y));
      var inner' := InnerOrigin(Point(x + dx, y + dy));
      assert inner' == Point(inner.x + dx, inner.y + dy);
      if n.kind == Zone {
        TileMoves(n.children, Cursor(inner.x, inner.y, 0.0), inner.x, WrapAt(Point(x, y), avail), dx, dy);
        assert WrapAt(Point(x + dx, y + dy), avail) == WrapAt(Point(x, y), avail) + dx;
      } else {
        StackMoves(n.children, Column(inner.y, InnerWidth(avail)), inner.x, InnerWidth(avail), dx, dy);
      }
    }
  }

  lemma {:induction false} StackMoves(cs: seq<Node>, c: Column, ix: real, w: real, dx: real, dy: real)
    requires forall c <- cs :: HintFree(c)
    ensures Stack(cs, Column(c.y + dy, c.maxW), ix + dx, w)
         == Column(Stack(cs, c, ix, w).y + dy, Stack(cs, c, ix, w).maxW)
    decreases cs, 0
  {
    if cs != [] {
      BoxMoves(cs[0], ix, c.y, w, dx, dy);
      var b := Box(cs[0], ix, c.y, w);
      var c' := Column(b.y + b.height + GAP, Max(c.maxW, b.width));
      assert b.y + dy + b.height + GAP == c'.y + dy;
      StackMoves(cs[1..], c', ix, w, dx, dy);
    }
  }

  lemma {:induction false} StackSlotsMove(cs: seq<Node>, y: real, ix: real, w: real, dx: real, dy: real)
    requires forall c <- cs :: HintFree(c)
    ensures StackSlots(cs, y + dy, ix + dx, w) == MovedPoints(StackSlots(cs, y, ix, w), dx, dy)
  {
    if cs != [] {
      BoxMoves(cs[0], ix, y, w, dx, dy);
      var b := Box(cs[0], ix, y, w);
      var y' := b.y + b.height + GAP;
      assert b.y + dy + b.height + GAP == y' + dy;
      StackSlotsMove(cs[1..], y', ix, w, dx, dy);
      MovedCons(Point(ix, y), StackSlots(cs[1..], y', ix, w), dx, dy);
    }
  }

  lemma MovedCons(p: Point, ps: seq<Point>, dx: real, dy: real)
    ensures MovedPoints([p] + ps, dx, dy) == [Point(p.x + dx, p.y + dy)] + MovedPoints(ps, dx, dy)
  {
    assert ([p] + ps)[1..] == ps;
  }

  lemma TileTurnMoves(n: Node, c: Cursor, ix: real, wrapAt: real, dx: real, dy: real)
    requires HintFree(n)
    ensures var cm := Cursor(c.x + dx, c.y + dy, c.rowH);
      var s, c' := TileSlot(n, c, ix, wrapAt), TileNext(n, c, ix, wrapAt);
      && TileSlot(n, cm, ix + dx, wrapAt + dx) == Point(s.x + dx, s.y + dy)
      && TileNext(n, cm, ix + dx, wrapAt + dx) == Cursor(c'.x + dx, c'.y + dy, c'.rowH)
    decreases n, 1
  {
    BoxMoves(n, c.x, c.y, FILE_WIDTH, dx, dy);
    var s := TileSlot(n, c, ix, wrapAt);
    var cm := Cursor(c.x + dx, c.y + dy, c.rowH);
    assert TileSlot(n, cm, ix + dx, wrapAt + dx) == Point(s.x + dx, s.y + dy);
    BoxMoves(n, s.x, s.y, FILE_WIDTH, dx, dy);
  }

  lemma {:induction false} TileMoves(cs: seq<Node>, c: Cursor, ix: real, wrapAt: real, dx: real, dy: real)
    requires forall c <- cs :: HintFree(c)
    ensures Tile(cs, Cursor(c.x + dx, c.y + dy, c.rowH), ix + dx, wrapAt + dx)
         == (var e := Tile(cs, c, ix, wrapAt); Cursor(e.x + dx, e.y + dy, e.rowH))
    ensures TileSlots(cs, Cursor(c.x + dx, c.y + dy, c.rowH), ix + dx, wrapAt + dx)
         == MovedPoints(TileSlots(cs, c, ix, wrapAt), dx, dy)
    decreases cs, 0
  {
    if cs != [] {
      TileTurnMoves(cs[0], c, ix, wrapAt, dx, dy);
      var s, c' := TileSlot(cs[0], c, ix, wrapAt), TileNext(cs[0], c, ix, wrapAt);
      TileMoves(cs[1..], c', ix, wrapAt, dx, dy);
      MovedCons(s, TileSlots(cs[1..], c', ix, wrapAt), dx, dy);
    }
  }

  lemma SlotsMove(n: Node, x: real, y: real, avail: real, dx: real, dy: real)
    requires HintFree(n)
    ensures Slots(n, x + dx, y + dy, avail) == MovedPoints(Slots(n, x, y, avail), dx, dy)
  {
    var inner := InnerOrigin(Point(x, y));
    assert InnerOrigin(Point(x + dx, y + dy)) == Point(inner.x + dx, inner.y + dy);
    assert WrapAt(Point(x + dx, y + dy), avail) == WrapAt(Point(x, y), avail) + dx;
    if n.kind == Zone {
      TileMoves(n.children, Cursor(inner.x, inner.y, 0.0), inner.x, WrapAt(Point(x, y), avail), dx, dy);
    } else {
      StackSlotsMove(n.children, inner.y, inner.x, InnerWidth(avail), dx, dy);
    }
  }

  /** Laying a hint-free tree out elsewhere moves every rectangle by the same vector. */
  lemma {:induction false} LayoutMoves(n: Node, x: real, y: real, avail: real, dx: real, dy: real)
    requires HintFree(n)
    ensures Placements(n, x + dx, y + dy, avail) == MovedAll(Placements(n, x, y, avail), dx, dy)
    decreases n, 0
  {
    BoxMoves(n, x, y, avail, dx, dy);
    if !Leaf(n) {
      SlotsMove(n, x, y, avail, dx, dy);
      PlaceAllMoves(n.children, Slots(n, x, y, avail), ChildAvail(n, avail), dx, dy);
    }
  }

  lemma {:induction false} PlaceAllMoves(cs: seq<Node>, ps: seq<Point>, avail: real, dx: real, dy: real)
    requires |ps| == |cs| && forall c <- cs :: HintFree(c)
    ensures PlaceAll(cs, MovedPoints(ps, dx, dy), avail) == MovedAll(PlaceAll(cs, ps, avail), dx, dy)
    decreases cs, 0
  {
    if cs != [] {
      LayoutMoves(cs[0], ps[0].x, ps[0].y, avail, dx, dy);
      PlaceAllMoves(cs[1..], ps[1..], avail, dx, dy);
      MovedPlaces(cs, ps, avail, dx, dy);
      MovedWhole(cs, ps, avail, dx, dy);
    }
  }

  lemma MovedPlaces(cs: seq<Node>, ps: seq<Point>, avail: real, dx: real, dy: real)
    requires |ps| == |cs| && cs != []
    ensures PlaceAll(cs, MovedPoints(ps, dx, dy), avail)
         == Placements(cs[0], ps[0].x + dx, ps[0].y + dy, avail)
          + PlaceAll(cs[1..], MovedPoints(ps[1..], dx, dy), avail)
  {
    PlaceAllCons(cs, MovedPoints(ps, dx, dy), avail);
    MovedPointsAt(ps, dx, dy);
  }

  lemma MovedWhole(cs: seq<Node>, ps: seq<Point>, avail: real, dx: real, dy: real)
    requires |ps| == |cs| && cs != []
    ensures MovedAll(PlaceAll(cs, ps, avail), dx, dy)
         == MovedAll(Placements(cs[0], ps[0].x, ps[0].y, avail), dx, dy)
          + MovedAll(PlaceAll(cs[1..], ps[1..], avail), dx, dy)
  {
    PlaceAllCons(cs, ps, avail);
    MovedUnion(Placements(cs[0], ps[0].x, ps[0].y, avail), PlaceAll(cs[1..], ps[1..], avail), dx, dy);
  }

  lemma PlaceAllCons(cs: seq<Node>, ps: seq<Point>, avail: real)
    requires |ps| == |cs| && cs != []
    ensures PlaceAll(cs, ps, avail) == Placements(cs[0], ps[0].x, ps[0].y, avail) + PlaceAll(cs[1..], ps[1..], avail)
  {
  }

  lemma MovedPointsAt(ps: seq<Point>, dx: real, dy: real)
    requires ps != []
    ensures var qs := MovedPoints(ps, dx, dy);
      qs[0] == Point(ps[0].x + dx, ps[0].y + dy) && qs[1..] == MovedPoints(ps[1..], dx, dy)
  {
  }

  lemma MovedUnion(a: map<string, Rect>, b: map<string, Rect>, dx: real, dy: real)
    ensures MovedAll(a + b, dx, dy) == MovedAll(a, dx, dy) + MovedAll(b, dx, dy)
  {
  }

  // ---- nodes by path -------------------------------------------------------------------

  /** A path of child indices through containers that are laid out. */
  ghost predicate IsPath(n: Node, p: seq<nat>) {
    p == [] || (!Leaf(n) && p[0] < |n.children| && IsPath(n.children[p[0]], p[1..]))
  }

  ghost function At(n: Node, p: seq<nat>): Node
    requires IsPath(n, p)
    decreases |p|
  {
    if p == [] then n else At(n.children[p[0]], p[1..])
  }

  /** The rectangle of the node at a path, following the slots down. */
  ghost function Place(n: Node, x: real, y: real, avail: real, p: seq<nat>): Rect
    requires IsPath(n, p)
    decreases |p|
  {
    if p == [] then Box(n, x, y, avail)
    else
      var s := Slots(n, x, y, avail)[p[0]];
      Place(n.children[p[0]], s.x, s.y, ChildAvail(n, avail), p[1..])
  }

  lemma {:induction false} AtInIds(n: Node, p: seq<nat>)
    requires IsPath(n, p)
    ensures At(n, p).id in Ids(n)
    decreases |p|
  {
    if p != [] {
      AtInIds(n.children[p[0]], p[1..]);
      ChildIds(n.children, p[0]);
    }
  }

  lemma {:induction false} ChildIds(cs: seq<Node>, i: nat)
    requires i < |cs|
    ensures Ids(cs[i]) <= IdsAll(cs)
  {
    if i > 0 {
      ChildIds(cs[1..], i - 1);
    }
  }

  /** With unique ids the final position map holds, for every node, the rectangle of its path. */
  lemma {:induction false} Lookup(n: Node, x: real, y: real, avail: real, p: seq<nat>)
    requires UniqueIds(n) && IsPath(n, p)
    ensures At(n, p).id in Placements(n, x, y, avail)
    ensures Placements(n, x, y, avail)[At(n, p).id] == Place(n, x, y, avail, p)
    decreases |p|, 0
  {
    if p != [] {
      LookupAll(n.children, Slots(n, x, y, avail), ChildAvail(n, avail), p[0], p[1..]);
      AtInIds(n.children[p[0]], p[1..]);
      ChildIds(n.children, p[0]);
    }
  }

  lemma {:induction false} LookupAll(cs: seq<Node>, ps: seq<Point>, avail: real, i: nat, p: seq<nat>)
    requires |ps| == |cs| && i < |cs| && UniqueAll(cs) && IsPath(cs[i], p)
    ensures At(cs[i], p).id in PlaceAll(cs, ps, avail)
    ensures PlaceAll(cs, ps, avail)[At(cs[i], p).id] == Place(cs[i], ps[i].x, ps[i].y, avail, p)
    decreases |p|, 1, |cs|
  {
    PlaceAllKeys(cs[1..], ps[1..], avail);
    if i == 0 {
      Lookup(cs[0], ps[0].x, ps[0].y, avail, p);
      AtInIds(cs[0], p);
    } else {
      LookupAll(cs[1..], ps[1..], avail, i - 1, p);
    }
  }

  // ---- containers and their children -----------------------------------------------------

  /** Two rectangles separated by at least the gap, horizontally or vertically. */
  predicate Apart(r: Rect, s: Rect) {
    || r.x + r.width + GAP <= s.x
    || s.x + s.width + GAP <= r.x
    || r.y + r.height + GAP <= s.y
    || s.y + s.height + GAP <= r.y
  }

  predicate VInside(r: Rect, s: Rect) {
    s.y <= r.y && r.y + r.height <= s.y + s.height
  }

  predicate HInside(r: Rect, s: Rect) {
    s.x <= r.x && r.x + r.width <= s.x + s.width
  }

  /** The width of a node's box: it depends neither on the position nor on any hint. */
  function Width(n: Node, avail: real): real
    decreases n, 0
  {
    if n.kind == File then FILE_WIDTH
    else if n.children == [] then Max(64.0, avail)
    else if n.kind == Workspace
    then Widest(n.children, InnerWidth(avail), InnerWidth(avail)) + PADDING * 2.0
    else InnerWidth(avail) + PADDING * 2.0
  }

  function Widest(cs: seq<Node>, avail: real, m: real): real
    decreases cs, 0
  {
    if cs == [] then m else Widest(cs[1..], avail, Max(m, Width(cs[0], avail)))
  }

  lemma {:induction false} BoxWidth(n: Node, x: real, y: real, avail: real)
    ensures Box(n, x, y, avail).width == Width(n, avail)
    decreases n, 0
  {
    if !Leaf(n) && n.kind == Workspace {
      var inner := InnerOrigin(Origin(n, x, y));
      StackWidth(n.children, Column(inner.y, InnerWidth(avail)), inner.x, InnerWidth(avail));
    }
  }

  lemma {:induction false} StackWidth(cs: seq<Node>, c: Column, ix: real, w: real)
    ensures Stack(cs, c, ix, w).maxW == Widest(cs, w, c.maxW)
    decreases cs, 0
  {
    if cs != [] {
      BoxWidth(cs[0], ix, c.y, w);
      var b := Box(cs[0], ix, c.y, w);
      StackWidth(cs[1..], Column(b.y + b.height + GAP, Max(c.maxW, b.width)), ix, w);
    }
  }

  lemma {:induction false} WidestBounds(cs: seq<Node>, avail: real, m: real)
    ensures m <= Widest(cs, avail, m)
    ensures forall i :: 0 <= i < |cs| ==> Width(cs[i], avail) <= Widest(cs, avail, m)
    decreases cs
  {
    if cs != [] {
      WidestBounds(cs[1..], avail, Max(m, Width(cs[0], avail)));
      forall i | 0 <= i < |cs| ensures Width(cs[i], avail) <= Widest(cs, avail, m) {
        assert i > 0 ==> cs[i] == cs[1..][i - 1];
      }
    }
  }

  lemma WidthPositive(n: Node, avail: real)
    ensures Width(n, avail) >= 64.0
  {
    if !Leaf(n) && n.kind == Workspace {
      WidestBounds(n.children, InnerWidth(avail), InnerWidth(avail));
    }
  }

  /** The box of child i of a container laid out at (x, y). */
  function ChildBox(n: Node, x: real, y: real, avail: real, i: nat): Rect
    requires i < |n.children|
  {
    var s := Slots(n, x, y, avail)[i];
    Box(n.children[i], s.x, s.y, ChildAvail(n, avail))
  }

  lemma {:induction false} HeightPositive(n: Node, x: real, y: real, avail: real)
    requires HintFree(n)
    ensures Box(n, x, y, avail).height > 0.0
    decreases n, 0
  {
    if !Leaf(n) {
      var inner := InnerOrigin(Point(x, y));
      if n.kind == Zone {
        TileGrows(n.children, Cursor(inner.x, inner.y, 0.0), inner.x, WrapAt(Point(x, y), avail));
      } else {
        StackGrows(n.children, Column(inner.y, InnerWidth(avail)), inner.x, InnerWidth(avail));
      }
    }
  }

  lemma {:induction false} StackGrows(cs: seq<Node>, c: Column, ix: real, w: real)
    requires forall c <- cs :: HintFree(c)
    ensures c.y <= Stack(cs, c, ix, w).y
    decreases cs, 0
  {
    if cs != [] {
      HeightPositive(cs[0], ix, c.y, w);
      var b := Box(cs[0], ix, c.y, w);
      StackGrows(cs[1..], Column(b.y + b.height + GAP, Max(c.maxW, b.width)), ix, w);
    }
  }

  /** A stack puts each child below what came before and ends a gap below each child. */
  lemma {:induction false} StackChild(cs: seq<Node>, c: Column, ix: real, w: real, i: nat)
    requires (forall c <- cs :: HintFree(c)) && i < |cs|
    ensures var s := StackSlots(cs, c.y, ix, w)[i];
      s.x == ix && c.y <= s.y && s.y + Box(cs[i], s.x, s.y, w).height + GAP <= Stack(cs, c, ix, w).y
  {
    HeightPositive(cs[0], ix, c.y, w);
    var b := Box(cs[0], ix, c.y, w);
    var c' := Column(b.y + b.height + GAP, Max(c.maxW, b.width));
    if i == 0 {
      StackGrows(cs[1..], c', ix, w);
    } else {
      StackChild(cs[1..], c', ix, w, i - 1);
    }
  }

  lemma {:induction false} StackPair(cs: seq<Node>, c: Column, ix: real, w: real, i: nat, j: nat)
    requires (forall c <- cs :: HintFree(c)) && i < j < |cs|
    ensures var ps := StackSlots(cs, c.y, ix, w); ps[i].y + Box(cs[i], ps[i].x, ps[i].y, w).height + GAP <= ps[j].y
  {
    assert HintFree(cs[0]);
    var b := Box(cs[0], ix, c.y, w);
    var c' := Column(b.y + b.height + GAP, Max(c.maxW, b.width));
    if i == 0 {
      StackChild(cs[1..], c', ix, w, j - 1);
    } else {
      StackPair(cs[1..], c', ix, w, i - 1, j - 1);
    }
  }

  /** A slot is in the cursor's row at or after the cursor, or a gap below that row. */
  predicate After(s: Point, c: Cursor, ix: real) {
    (s.y == c.y && c.x <= s.x) || (ix <= s.x && c.y + c.rowH + GAP <= s.y)
  }

  /** One turn of the zone's loop: the child goes at or after the cursor, in the row or below it, and starts at the
      left edge unless it ends at or before the wrap line; the new cursor is behind it. */
  lemma TileTurn(n: Node, c: Cursor, ix: real, wrapAt: real)
    requires HintFree(n) && ix <= c.x && 0.0 <= c.rowH
    ensures var s, c' := TileSlot(n, c, ix, wrapAt), TileNext(n, c, ix, wrapAt);
      var b := Box(n, s.x, s.y, FILE_WIDTH);
      && After(s, c, ix) && ix <= s.x && c.y <= s.y && (s.x == ix || s.x + b.width <= wrapAt)
      && c'.x == s.x + b.width + GAP && c'.y == s.y && b.height <= c'.rowH && 0.0 < c'.rowH && s.x <= c'.x
      && c.y + c.rowH <= c'.y + c'.rowH
    decreases n, 1
  {
    var s := TileSlot(n, c, ix, wrapAt);
    HeightPositive(n, s.x, s.y, FILE_WIDTH);
    BoxWidth(n, s.x, s.y, FILE_WIDTH);
    BoxWidth(n, c.x, c.y, FILE_WIDTH);
    WidthPositive(n, FILE_WIDTH);
  }

  lemma {:induction false} TileGrows(cs: seq<Node>, c: Cursor, ix: real, wrapAt: real)
    requires (forall c <- cs :: HintFree(c)) && ix <= c.x && 0.0 <= c.rowH
    ensures var e := Tile(cs, c, ix, wrapAt); c.y + c.rowH <= e.y + e.rowH && c.y <= e.y && 0.0 <= e.rowH
    decreases cs, 0
  {
    if cs != [] {
      TileTurn(cs[0], c, ix, wrapAt);
      TileGrows(cs[1..], TileNext(cs[0], c, ix, wrapAt), ix, wrapAt);
    }
  }

  /** Where a zone puts one child. */
  lemma {:induction false} TileChild(cs: seq<Node>, c: Cursor, ix: real, wrapAt: real, i: nat)
    requires (forall c <- cs :: HintFree(c)) && ix <= c.x && 0.0 <= c.rowH && i < |cs|
    ensures var s, e := TileSlots(cs, c, ix, wrapAt)[i], Tile(cs, c, ix, wrapAt);
      var b := Box(cs[i], s.x, s.y, FILE_WIDTH);
      && After(s, c, ix) && ix <= s.x && c.y <= s.y
      && s.y + b.height <= e.y + e.rowH && (s.x == ix || s.x + b.width <= wrapAt)
  {
    TileTurn(cs[0], c, ix, wrapAt);
    var c' := TileNext(cs[0], c, ix, wrapAt);
    if i == 0 {
      TileGrows(cs[1..], c', ix, wrapAt);
    } else {
      TileChild(cs[1..], c', ix, wrapAt, i - 1);
    }
  }

  lemma BoxAt(n: Node, x: real, y: real)
    requires HintFree(n)
    ensures Box(n, x, y, FILE_WIDTH).x == x && Box(n, x, y, FILE_WIDTH).y == y
  {
  }

  lemma AfterApart(r: Rect, later: Rect, c: Cursor, ix: real)
    requires c.x == r.x + r.width + GAP && c.y == r.y && r.height <= c.rowH && After(Point(later.x, later.y), c, ix)
    ensures Apart(r, later)
  {
  }

  /** Two children of a zone are apart: the later one is right of the earlier or a row below it. */
  lemma {:induction false} TilePair(cs: seq<Node>, c: Cursor, ix: real, wrapAt: real, i: nat, j: nat)
    requires (forall c <- cs :: HintFree(c)) && ix <= c.x && 0.0 <= c.rowH && i < j < |cs|
    ensures var ps := TileSlots(cs, c, ix, wrapAt);
      Apart(Box(cs[i], ps[i].x, ps[i].y, FILE_WIDTH), Box(cs[j], ps[j].x, ps[j].y, FILE_WIDTH))
  {
    TileTurn(cs[0], c, ix, wrapAt);
    var c' := TileNext(cs[0], c, ix, wrapAt);
    if i == 0 {
      TileChild(cs[1..], c', ix, wrapAt, j - 1);
      var s, q := TileSlot(cs[0], c, ix, wrapAt), TileSlots(cs[1..], c', ix, wrapAt)[j - 1];
      assert HintFree(cs[0]) && HintFree(cs[j]);
      BoxAt(cs[0], s.x, s.y);
      BoxAt(cs[j], q.x, q.y);
      AfterApart(Box(cs[0], s.x, s.y, FILE_WIDTH), Box(cs[j], q.x, q.y, FILE_WIDTH), c', ix);
    } else {
      TilePair(cs[1..], c', ix, wrapAt, i - 1, j - 1);
    }
  }

  lemma ChildAtSlot(n: Node, x: real, y: real, avail: real, i: nat)
    requires HintFree(n) && i < |n.children|
    ensures var b, s := ChildBox(n, x, y, avail, i), Slots(n, x, y, avail)[i];
      b.x == s.x && b.y == s.y && b.width == Width(n.children[i], ChildAvail(n, avail))
  {
    var s := Slots(n, x, y, avail)[i];
    assert HintFree(n.children[i]);
    BoxWidth(n.children[i], s.x, s.y, ChildAvail(n, avail));
  }

  lemma ChildInside(n: Node, x: real, y: real, avail: real, i: nat)
    requires HintFree(n) && !Leaf(n) && i < |n.children|
    ensures VInside(ChildBox(n, x, y, avail, i), Box(n, x, y, avail))
    ensures HInside(ChildBox(n, x, y, avail, i), Box(n, x, y, avail))
       <==> Width(n.children[i], ChildAvail(n, avail)) + PADDING <= Width(n, avail)
  {
    var inner := InnerOrigin(Point(x, y));
    BoxWidth(n, x, y, avail);
    ChildAtSlot(n, x, y, avail, i);
    if n.kind == Zone {
      TileChild(n.children, Cursor(inner.x, inner.y, 0.0), inner.x, WrapAt(Point(x, y), avail), i);
    } else {
      StackChild(n.children, Column(inner.y, InnerWidth(avail)), inner.x, InnerWidth(avail), i);
    }
  }

  lemma ChildrenApart(n: Node, x: real, y: real, avail: real, i: nat, j: nat)
    requires HintFree(n) && !Leaf(n) && i < j < |n.children|
    ensures Apart(ChildBox(n, x, y, avail, i), ChildBox(n, x, y, avail, j))
  {
    var inner := InnerOrigin(Point(x, y));
    if n.kind == Zone {
      TilePair(n.children, Cursor(inner.x, inner.y, 0.0), inner.x, WrapAt(Point(x, y), avail), i, j);
    } else {
      ChildAtSlot(n, x, y, avail, i);
      ChildAtSlot(n, x, y, avail, j);
      StackPair(n.children, Column(inner.y, InnerWidth(avail)), inner.x, InnerWidth(avail), i, j);
    }
  }

  /** Everything one container guarantees about its children. */
  lemma ContainerSpread(n: Node, x: real, y: real, avail: real)
    requires HintFree(n) && !Leaf(n)
    ensures forall i :: 0 <= i < |n.children| ==> VInside(ChildBox(n, x, y, avail, i), Box(n, x, y, avail))
    ensures forall i, j :: 0 <= i < j < |n.children| ==>
              Apart(ChildBox(n, x, y, avail, i), ChildBox(n, x, y, avail, j))
    ensures forall i :: 0 <= i < |n.children| ==>
              (HInside(ChildBox(n, x, y, avail, i), Box(n, x, y, avail))
               <==> Width(n.children[i], ChildAvail(n, avail)) + PADDING <= Width(n, avail))
  {
    forall i | 0 <= i < |n.children|
      ensures VInside(ChildBox(n, x, y, avail, i), Box(n, x, y, avail))
      ensures HInside(ChildBox(n, x, y, avail, i), Box(n, x, y, avail))
         <==> Width(n.children[i], ChildAvail(n, avail)) + PADDING <= Width(n, avail)
    {
      ChildInside(n, x, y, avail, i);
    }
    forall i, j | 0 <= i < j < |n.children| ensures Apart(ChildBox(n, x, y, avail, i), ChildBox(n, x, y, avail, j)) {
      ChildrenApart(n, x, y, avail, i, j);
    }
  }

  // ---- theorems over whole trees ---------------------------------------------------------

  /** The rectangle the final position map holds for the node at a path. */
  ghost function Position(root: Node, x: real, y: real, avail: real, p: seq<nat>): Rect
    requires UniqueIds(root) && IsPath(root, p)
  {
    Lookup(root, x, y, avail, p);
    Placements(root, x, y, avail)[At(root, p).id]
  }

  lemma {:induction false} PathExtends(n: Node, p: seq<nat>, q: seq<nat>)
    requires IsPath(n, p + q)
    ensures IsPath(n, p) && IsPath(At(n, p), q)
    decreases |p|
  {
    if p == [] {
      assert p + q == q;
    } else {
      assert (p + q)[1..] == p[1..] + q;
      PathExtends(n.children[p[0]], p[1..], q);
    }
  }

  /** Descending a path reaches the node at its end at some slot and width; what follows the
      path happens inside that layout. */
  lemma {:induction false} Descend(n: Node, x: real, y: real, avail: real, p: seq<nat>)
      returns (x': real, y': real, avail': real)
    requires HintFree(n) && IsPath(n, p)
    ensures HintFree(At(n, p))
    ensures Place(n, x, y, avail, p) == Box(At(n, p), x', y', avail')
    ensures forall q :: IsPath(n, p + q) ==>
              IsPath(At(n, p), q) && Place(n, x, y, avail, p + q) == Place(At(n, p), x', y', avail', q)
    ensures avail' == AvailAt(n, avail, p)
    decreases |p|
  {
    if p == [] {
      x', y', avail' := x, y, avail;
      assert forall q: seq<nat> :: p + q == q;
    } else {
      var s := Slots(n, x, y, avail)[p[0]];
      x', y', avail' := Descend(n.children[p[0]], s.x, s.y, ChildAvail(n, avail), p[1..]);
      forall q | IsPath(n, p + q)
        ensures IsPath(At(n, p), q) && Place(n, x, y, avail, p + q) == Place(At(n, p), x', y', avail', q)
      {
        assert (p + q)[1..] == p[1..] + q;
      }
    }
  }

  /** The width that reaches the node at a path. */
  ghost function AvailAt(n: Node, avail: real, p: seq<nat>): real
    requires IsPath(n, p)
    decreases |p|
  {
    if p == [] then avail else AvailAt(n.children[p[0]], ChildAvail(n, avail), p[1..])
  }

  lemma PlaceChild(n: Node, x: real, y: real, avail: real, i: nat)
    requires !Leaf(n) && i < |n.children|
    ensures IsPath(n, [i]) && Place(n, x, y, avail, [i]) == ChildBox(n, x, y, avail, i)
  {
    assert [i][1..] == [];
  }

  /** Sibling rectangles never overlap, anywhere in any tree, wrapped rows included. */
  lemma SiblingsApart(root: Node, x: real, y: real, avail: real, p: seq<nat>, i: nat, j: nat)
    requires UniqueIds(root) && HintFree(root)
    requires i != j && IsPath(root, p + [i]) && IsPath(root, p + [j])
    ensures Apart(Position(root, x, y, avail, p + [i]), Position(root, x, y, avail, p + [j]))
  {
    PathExtends(root, p, [i]);
    var x', y', avail' := Descend(root, x, y, avail, p);
    ContainerSpread(At(root, p), x', y', avail');
    PlaceChild(At(root, p), x', y', avail', i);
    PlaceChild(At(root, p), x', y', avail', j);
    Lookup(root, x, y, avail, p + [i]);
    Lookup(root, x, y, avail, p + [j]);
  }

  /** Every positioned node lies vertically inside all its ancestors. */
  lemma InsideAncestors(root: Node, x: real, y: real, avail: real, p: seq<nat>, q: seq<nat>)
    requires UniqueIds(root) && HintFree(root) && IsPath(root, p + q) && IsPath(root, p)
    ensures VInside(Position(root, x, y, avail, p + q), Position(root, x, y, avail, p))
  {
    PathExtends(root, p, q);
    var x', y', avail' := Descend(root, x, y, avail, p);
    SubtreeVInside(At(root, p), x', y', avail', q);
    Lookup(root, x, y, avail, p + q);
    Lookup(root, x, y, avail, p);
  }

  lemma {:induction false} SubtreeVInside(n: Node, x: real, y: real, avail: real, q: seq<nat>)
    requires HintFree(n) && IsPath(n, q)
    ensures VInside(Place(n, x, y, avail, q), Box(n, x, y, avail))
    decreases |q|
  {
    if q != [] {
      ContainerSpread(n, x, y, avail);
      var s := Slots(n, x, y, avail)[q[0]];
      SubtreeVInside(n.children[q[0]], s.x, s.y, ChildAvail(n, avail), q[1..]);
      assert VInside(ChildBox(n, x, y, avail, q[0]), Box(n, x, y, avail));
    }
  }

  /** What a caller can check before laying out: each child is narrow enough for its container. */
  ghost predicate Fits(n: Node, avail: real) {
    Leaf(n) || forall c <- n.children ::
      Width(c, ChildAvail(n, avail)) + PADDING <= Width(n, avail) && Fits(c, ChildAvail(n, avail))
  }

  lemma {:induction false} FitsAt(n: Node, avail: real, p: seq<nat>)
    requires Fits(n, avail) && IsPath(n, p)
    ensures Fits(At(n, p), AvailAt(n, avail, p))
    decreases |p|
  {
    if p != [] {
      FitsAt(n.children[p[0]], ChildAvail(n, avail), p[1..]);
    }
  }

  lemma {:induction false} SubtreeHInside(n: Node, x: real, y: real, avail: real, q: seq<nat>)
    requires HintFree(n) && IsPath(n, q) && Fits(n, avail)
    ensures HInside(Place(n, x, y, avail, q), Box(n, x, y, avail))
    decreases |q|
  {
    if q != [] {
      ContainerSpread(n, x, y, avail);
      var s := Slots(n, x, y, avail)[q[0]];
      SubtreeHInside(n.children[q[0]], s.x, s.y, ChildAvail(n, avail), q[1..]);
      assert HInside(ChildBox(n, x, y, avail, q[0]), Box(n, x, y, avail));
    }
  }

  ghost predicate ChildrenHInside(root: Node, x: real, y: real, avail: real)
    requires UniqueIds(root)
  {
    forall p: seq<nat>, q: seq<nat> :: IsPath(root, q) && IsPath(root, p) && |q| == |p| + 1 && p < q ==>
      HInside(Position(root, x, y, avail, q), Position(root, x, y, avail, p))
  }

  /** Every child lies horizontally inside its parent if and only if every container is wide enough. */
  lemma HorizontalContainment(root: Node, x: real, y: real, avail: real)
    requires UniqueIds(root) && HintFree(root)
    ensures Fits(root, avail) <==> ChildrenHInside(root, x, y, avail)
  {
    if Fits(root, avail) {
      forall p: seq<nat>, q: seq<nat> | IsPath(root, q) && IsPath(root, p) && |q| == |p| + 1 && p < q
        ensures HInside(Position(root, x, y, avail, q), Position(root, x, y, avail, p))
      {
        var i := q[|p|];
        assert q == p + [i];
        PathExtends(root, p, [i]);
        var x', y', avail' := Descend(root, x, y, avail, p);
        FitsAt(root, avail, p);
        SubtreeHInside(At(root, p), x', y', avail', [i]);
        Lookup(root, x, y, avail, p + [i]);
        Lookup(root, x, y, avail, p);
      }
    } else {
      var p, i := Misfit(root, x, y, avail);
      Lookup(root, x, y, avail, p + [i]);
      Lookup(root, x, y, avail, p);
      assert !HInside(Position(root, x, y, avail, p + [i]), Position(root, x, y, avail, p));
    }
  }

  lemma Deeper(n: Node, x: real, y: real, avail: real, k: nat, p: seq<nat>)
    requires !Leaf(n) && k < |n.children| && IsPath(n.children[k], p)
    ensures var s := Slots(n, x, y, avail)[k];
      IsPath(n, [k] + p) && Place(n, x, y, avail, [k] + p) == Place(n.children[k], s.x, s.y, ChildAvail(n, avail), p)
  {
    assert ([k] + p)[1..] == p;
  }

  /** A tree that does not fit has a child that sticks out of its parent. */
  lemma {:induction false} Misfit(n: Node, x: real, y: real, avail: real) returns (p: seq<nat>, i: nat)
    requires HintFree(n) && !Fits(n, avail)
    ensures IsPath(n, p + [i]) && IsPath(n, p)
    ensures !HInside(Place(n, x, y, avail, p + [i]), Place(n, x, y, avail, p))
    decreases n
  {
    ContainerSpread(n, x, y, avail);
    var ca := ChildAvail(n, avail);
    var k :| 0 <= k < |n.children|
      && !(Width(n.children[k], ca) + PADDING <= Width(n, avail) && Fits(n.children[k], ca));
    if Width(n.children[k], ca) + PADDING <= Width(n, avail) {
      var s := Slots(n, x, y, avail)[k];
      p, i := Misfit(n.children[k], s.x, s.y, ca);
      Deeper(n, x, y, avail, k, p);
      Deeper(n, x, y, avail, k, p + [i]);
      assert [k] + p + [i] == [k] + (p + [i]);
      p := [k] + p;
    } else {
      p, i := [], k;
      assert [] + [i] == [i] && [i][1..] == [];
      assert !HInside(ChildBox(n, x, y, avail, k), Box(n, x, y, avail));
    }
  }

  /** In a tree that fits, any two nodes of which neither contains the other are apart. */
  lemma UnrelatedApart(root: Node, x: real, y: real, avail: real, r: seq<nat>, i: nat, p: seq<nat>, j: nat, q: seq<nat>)
    requires UniqueIds(root) && HintFree(root) && Fits(root, avail)
    requires i != j && IsPath(root, r + [i] + p) && IsPath(root, r + [j] + q)
    ensures Apart(Position(root, x, y, avail, r + [i] + p), Position(root, x, y, avail, r + [j] + q))
  {
    Branch(root, x, y, avail, r, i, p);
    Branch(root, x, y, avail, r, j, q);
    SiblingsApart(root, x, y, avail, r, i, j);
  }

  lemma Branch(root: Node, x: real, y: real, avail: real, r: seq<nat>, i: nat, p: seq<nat>)
    requires UniqueIds(root) && HintFree(root) && Fits(root, avail) && IsPath(root, r + [i] + p)
    ensures IsPath(root, r + [i])
    ensures HInside(Position(root, x, y, avail, r + [i] + p), Position(root, x, y, avail, r + [i]))
    ensures VInside(Position(root, x, y, avail, r + [i] + p), Position(root, x, y, avail, r + [i]))
  {
    PathExtends(root, r + [i], p);
    InsideAncestors(root, x, y, avail, r + [i], p);
    var x', y', avail' := Descend(root, x, y, avail, r + [i]);
    FitsAt(root, avail, r + [i]);
    SubtreeHInside(At(root, r + [i]), x', y', avail', p);
    Lookup(root, x, y, avail, r + [i] + p);
    Lookup(root, x, y, avail, r + [i]);
  }

  /** Workspace, zones, leaves: the shape the view is built for. */
  ghost predicate Grid(n: Node) {
    n.kind == Workspace && forall z <- n.children ::
      Leaf(z) || (z.kind == Zone && forall f <- z.children :: Leaf(f))
  }

  /** The intended shape fits at every available width, zero and negative ones included. */
  lemma GridFits(n: Node, avail: real)
    requires Grid(n)
    ensures Fits(n, avail)
  {
    if n.children != [] {
      var w := InnerWidth(avail);
      WidestBounds(n.children, w, w);
    }
  }

  /** A zone whose children are leaves or containers of the default width fits exactly from
      width 156 on, unless every child is a leaf. */
  lemma NestedZoneThreshold(n: Node, avail: real)
    requires n.kind == Zone && n.children != []
    requires forall c <- n.children :: Leaf(c) || (c.kind == Zone && forall f <- c.children :: Leaf(f))
    ensures Fits(n, avail) <==> (avail >= 156.0 || forall c <- n.children :: Leaf(c))
  {
    forall c | c in n.children ensures Fits(c, FILE_WIDTH) {}
    if !(forall c <- n.children :: Leaf(c)) {
      var c :| c in n.children && !Leaf(c);
      assert Width(c, FILE_WIDTH) == 144.0;
    }
  }

  const NESTED_FILE := Node("f", File, None, [])
  const NESTED_ZONE := Node("z", Zone, None, [NESTED_FILE])
  const NESTED := Node("n", Zone, None, [NESTED_ZONE])

  lemma UniqueOne(cs: seq<Node>)
    requires |cs| == 1 && UniqueIds(cs[0])
    ensures UniqueAll(cs) && IdsAll(cs) == Ids(cs[0])
  {
    var rest := cs[1..];
    assert rest == [] && IdsAll(rest) == {};
  }

  /** A zone inside a zone of width 96 sticks out of its parent. */
  lemma NestedZoneEscapes(x: real, y: real)
    ensures UniqueIds(NESTED) && HintFree(NESTED) && IsPath(NESTED, [0])
    ensures !HInside(Position(NESTED, x, y, FILE_WIDTH, [0]), Position(NESTED, x, y, FILE_WIDTH, []))
  {
    var f, z := NESTED_FILE, NESTED_ZONE;
    UniqueOne([f]);
    assert "z"[0] != "f"[0] && "n"[0] != "z"[0] && "n"[0] != "f"[0];
    assert Ids(f) == {"f"} && UniqueIds(z);
    UniqueOne([z]);
    assert Ids(z) == {"z", "f"} && UniqueIds(NESTED);
    PlaceChild(NESTED, x, y, FILE_WIDTH, 0);
    Lookup(NESTED, x, y, FILE_WIDTH, [0]);
    Lookup(NESTED, x, y, FILE_WIDTH, []);
    ContainerSpread(NESTED, x, y, FILE_WIDTH);
    assert Width(z, FILE_WIDTH) == 144.0 && Width(NESTED, FILE_WIDTH) == 144.0;
  }
}
