/** Painting a wall directly and painting it through nodes and an assembler
    (app/compositor_fabric.py:369-445, 654-672). */
module Picture {
  import opened Collections
  import opened Signatures
  import opened Geometry
  import opened Guillotine
  import opened Plan
  import opened Conservation

  /** What is visible at a pixel: an element, and the place inside it. */
  datatype Texel = Texel(sig: ElemSig, dx: int, dy: int)

  predicate Covers(e: Elem, px: int, py: int) {
    e.x <= px < e.x + e.w && e.y <= py < e.y + e.h
  }

  function At(e: Elem, px: int, py: int): Texel {
    Texel(e.sig, px - e.x, py - e.y)
  }

  /** Elements drawn in order: the last one that covers the pixel is seen. */
  function Paint(elems: seq<Elem>, px: int, py: int): Option<Texel> {
    if elems == [] then None else
    match Paint(elems[1..], px, py)
    case Some(t) => Some(t)
    case None => if Covers(elems[0], px, py) then Some(At(elems[0], px, py)) else None
  }

  predicate TileCovers(t: Tile, px: int, py: int) {
    t.x <= px < t.x + t.w && t.y <= py < t.y + t.h
  }

  /** The last tile that covers the pixel. Its whole rectangle is copied, blank parts included. */
  function TopTile(tiles: seq<Tile>, px: int, py: int): Option<Tile> {
    if tiles == [] then None else
    match TopTile(tiles[1..], px, py)
    case Some(t) => Some(t)
    case None => if TileCovers(tiles[0], px, py) then Some(tiles[0]) else None
  }

  /** What the tiles show at a pixel. */
  function TilePaint(tiles: seq<Tile>, nodes: map<NodeSig, Node>, px: int, py: int): Option<Texel> {
    match TopTile(tiles, px, py)
    case None => None
    case Some(t) => if t.sig in nodes then Paint(nodes[t.sig].windows, px - t.x, py - t.y) else None
  }

  /** A wall rendered by one process: cells, then overlays. */
  function WallPicture(wall: Wall, px: int, py: int): Option<Texel> {
    Paint(Elements(wall), px, py)
  }

  /** A wall rendered by its nodes and its assembler: tiles, then the overlays drawn in place. */
  function FabricPicture(walls: seq<Wall>, wall: Wall, maxCells: nat, rules: Rules, px: int, py: int): Option<Texel>
    requires maxCells > 0
  {
    match Paint(DirectElems(walls, wall), px, py)
    case Some(t) => Some(t)
    case None => TilePaint(Tiles(walls, wall, maxCells, rules), AllNodes(walls, maxCells, rules, |walls|).byKey, px, py)
  }

  // ----- Painting

  lemma {:induction false} PaintOrigin(elems: seq<Elem>, px: int, py: int) returns (e: Elem)
    requires Paint(elems, px, py).Some?
    ensures e in elems && Covers(e, px, py) && Paint(elems, px, py) == Some(At(e, px, py))
  {
    if Paint(elems[1..], px, py).Some? {
      e := PaintOrigin(elems[1..], px, py);
    } else {
      e := elems[0];
    }
  }

  lemma {:induction false} PaintNone(elems: seq<Elem>, px: int, py: int)
    ensures Paint(elems, px, py).None? <==> forall e :: e in elems ==> !Covers(e, px, py)
  {
    if elems != [] {
      PaintNone(elems[1..], px, py);
      assert forall e :: e in elems <==> e == elems[0] || e in elems[1..];
    }
  }

  lemma {:induction false} PaintConcat(a: seq<Elem>, b: seq<Elem>, px: int, py: int)
    ensures Paint(a + b, px, py) == if Paint(b, px, py).Some? then Paint(b, px, py) else Paint(a, px, py)
  {
    if a == [] {
      assert a + b == b;
    } else {
      assert (a + b)[1..] == a[1..] + b;
      PaintConcat(a[1..], b, px, py);
    }
  }

  lemma {:induction false} PaintShift(elems: seq<Elem>, dx: int, dy: int, px: int, py: int)
    ensures Paint(Shift(elems, dx, dy), px, py) == Paint(elems, px - dx, py - dy)
  {
    if elems != [] {
      PaintShift(elems[1..], dx, dy, px, py);
      assert Shift(elems, dx, dy)[1..] == Shift(elems[1..], dx, dy);
    }
  }

  lemma {:induction false} TilePaintShown(tiles: seq<Tile>, nodes: map<NodeSig, Node>, px: int, py: int)
    ensures TilePaint(tiles, nodes, px, py)
            == if TopTile(tiles, px, py).None? then None else Paint(Shown(TopTile(tiles, px, py).value, nodes), px, py)
  {
    match TopTile(tiles, px, py)
    case None =>
    case Some(t) =>
      if t.sig in nodes {
        PaintShift(nodes[t.sig].windows, t.x, t.y, px, py);
      }
  }

  lemma {:induction false} TopTileNone(tiles: seq<Tile>, px: int, py: int)
    requires TopTile(tiles, px, py).None?
    ensures forall k :: 0 <= k < |tiles| ==> !TileCovers(tiles[k], px, py)
  {
    if tiles != [] {
      TopTileNone(tiles[1..], px, py);
      assert forall k :: 1 <= k < |tiles| ==> tiles[k] == tiles[1..][k - 1];
    }
  }

  lemma {:induction false} TopTileLast(tiles: seq<Tile>, px: int, py: int) returns (k: int)
    requires TopTile(tiles, px, py).Some?
    ensures 0 <= k < |tiles| && TopTile(tiles, px, py) == Some(tiles[k]) && TileCovers(tiles[k], px, py)
    ensures forall l :: k < l < |tiles| ==> !TileCovers(tiles[l], px, py)
  {
    if TopTile(tiles[1..], px, py).Some? {
      k := TopTileLast(tiles[1..], px, py);
      k := k + 1;
    } else {
      k := 0;
      TopTileNone(tiles[1..], px, py);
    }
    assert forall l :: 1 <= l < |tiles| ==> tiles[l] == tiles[1..][l - 1];
  }

  // ----- Rectangles

  function Max(a: int, b: int): int {
    if a < b then b else a
  }

  function Min(a: int, b: int): int {
    if a < b then a else b
  }

  /** The rectangle of the element and the rectangle of the tile have a pixel in common. */
  predicate TileMeets(e: Elem, t: Tile) {
    Max(e.x, t.x) < Min(e.x + e.w, t.x + t.w) && Max(e.y, t.y) < Min(e.y + e.h, t.y + t.h)
  }

  lemma {:induction false} TileMeetsAtPixel(e: Elem, t: Tile)
    requires TileMeets(e, t)
    ensures Covers(e, Max(e.x, t.x), Max(e.y, t.y)) && TileCovers(t, Max(e.x, t.x), Max(e.y, t.y))
  {
  }

  predicate Meets(d: Elem, e: Elem) {
    Max(d.x, e.x) < Min(d.x + d.w, e.x + e.w) && Max(d.y, e.y) < Min(d.y + d.h, e.y + e.h)
  }

  /** Elements of positive size that do not overlap. */
  predicate Laid(elems: seq<Elem>) {
    AllPositive(elems) && forall i, j :: 0 <= i < j < |elems| ==> !Meets(elems[i], elems[j])
  }

  predicate Inside(e: Elem, t: Tile) {
    t.x <= e.x && e.x + e.w <= t.x + t.w && t.y <= e.y && e.y + e.h <= t.y + t.h
  }

  lemma {:induction false} MeetsAtPixel(d: Elem, e: Elem, px: int, py: int)
    requires Covers(d, px, py) && Covers(e, px, py)
    ensures Meets(d, e)
  {
  }

  /** At most one element of a laid list covers a pixel. */
  lemma {:induction false} LaidUnique(elems: seq<Elem>, d: Elem, e: Elem, px: int, py: int)
    requires Laid(elems) && d in elems && e in elems && Covers(d, px, py) && Covers(e, px, py)
    ensures d == e
  {
  }

  lemma {:induction false} LaidPaint(elems: seq<Elem>, e: Elem, px: int, py: int)
    requires Laid(elems) && e in elems && Covers(e, px, py)
    ensures Paint(elems, px, py) == Some(At(e, px, py))
  {
    PaintNone(elems, px, py);
    var d := PaintOrigin(elems, px, py);
    LaidUnique(elems, d, e, px, py);
  }

  lemma {:induction false} TwicePlaces(elems: seq<Elem>, e: Elem) returns (i: int, j: int)
    requires multiset(elems)[e] >= 2
    ensures 0 <= i < j < |elems| && elems[i] == e && elems[j] == e
    ensures Positive(e) ==> Meets(elems[i], elems[j])
  {
    SplitFirst(elems);
    if elems[0] == e {
      i := 0;
      assert e in multiset(elems[1..]);
      var k :| 0 <= k < |elems[1..]| && elems[1..][k] == e;
      j := k + 1;
    } else {
      i, j := TwicePlaces(elems[1..], e);
      i, j := i + 1, j + 1;
    }
  }

  /** A laid list has no element twice. */
  lemma {:induction false} LaidOnce(elems: seq<Elem>, e: Elem)
    requires Laid(elems)
    ensures multiset(elems)[e] <= 1
  {
    if multiset(elems)[e] >= 2 {
      assert e in multiset(elems);
      var i, j := TwicePlaces(elems, e);
    }
  }

  // ----- Tiles as layers

  lemma {:induction false} ExpandMember(tiles: seq<Tile>, nodes: map<NodeSig, Node>, e: Elem) returns (k: int)
    requires e in Expand(tiles, nodes)
    ensures 0 <= k < |tiles| && e in Shown(tiles[k], nodes)
  {
    if e in Shown(tiles[0], nodes) {
      k := 0;
    } else {
      k := ExpandMember(tiles[1..], nodes, e);
      k := k + 1;
    }
  }

  lemma {:induction false} ShownExpands(tiles: seq<Tile>, nodes: map<NodeSig, Node>, k: int, e: Elem)
    requires 0 <= k < |tiles| && e in Shown(tiles[k], nodes)
    ensures e in Expand(tiles, nodes)
  {
    if k > 0 {
      ShownExpands(tiles[1..], nodes, k - 1, e);
    }
  }

  lemma {:induction false} ShownTwice(tiles: seq<Tile>, nodes: map<NodeSig, Node>, i: int, k: int, e: Elem)
    requires 0 <= i < k < |tiles| && e in Shown(tiles[i], nodes) && e in Shown(tiles[k], nodes)
    ensures multiset(Expand(tiles, nodes))[e] >= 2
  {
    hide Shown;
    if i > 0 {
      ShownTwice(tiles[1..], nodes, i - 1, k - 1, e);
    } else {
      ShownExpands(tiles[1..], nodes, k - 1, e);
      assert e in multiset(Shown(tiles[0], nodes));
      assert e in multiset(Expand(tiles[1..], nodes));
    }
  }

  /** Every tile holds what it shows. */
  ghost predicate Contained(tiles: seq<Tile>, nodes: map<NodeSig, Node>) {
    forall k, e :: 0 <= k < |tiles| && e in Shown(tiles[k], nodes) ==> Inside(e, tiles[k])
  }

  /** No tile is drawn over an element that an earlier tile shows. */
  ghost predicate NothingHidden(tiles: seq<Tile>, nodes: map<NodeSig, Node>) {
    forall i, j, e :: 0 <= i < j < |tiles| && e in Shown(tiles[i], nodes) ==> !TileMeets(e, tiles[j])
  }

  /** At this pixel a tile is drawn over an element that an earlier tile shows. */
  ghost predicate HiddenAt(tiles: seq<Tile>, nodes: map<NodeSig, Node>, px: int, py: int) {
    exists i, j, e ::
      0 <= i < j < |tiles| && e in Shown(tiles[i], nodes) && Covers(e, px, py) && TileCovers(tiles[j], px, py)
  }

  lemma {:induction false} VisibleWhenNotHidden(tiles: seq<Tile>, nodes: map<NodeSig, Node>, elems: seq<Elem>,
                                                px: int, py: int)
    requires Contained(tiles, nodes) && Laid(elems) && multiset(Expand(tiles, nodes)) == multiset(elems)
    requires !HiddenAt(tiles, nodes, px, py)
    ensures TilePaint(tiles, nodes, px, py) == Paint(elems, px, py)
  {
    SameMembers(Expand(tiles, nodes), elems);
    TilePaintShown(tiles, nodes, px, py);
    if Paint(elems, px, py).Some? {
      var e := PaintOrigin(elems, px, py);
      var i := ExpandMember(tiles, nodes, e);
      TopIsWhereShown(tiles, nodes, i, e, px, py);
      PaintNone(Shown(tiles[i], nodes), px, py);
      var d := PaintOrigin(Shown(tiles[i], nodes), px, py);
      ShownExpands(tiles, nodes, i, d);
      LaidUnique(elems, d, e, px, py);
    } else if TopTile(tiles, px, py).Some? && Paint(Shown(TopTile(tiles, px, py).value, nodes), px, py).Some? {
      var k := TopTileLast(tiles, px, py);
      var d := PaintOrigin(Shown(tiles[k], nodes), px, py);
      ShownExpands(tiles, nodes, k, d);
      PaintNone(elems, px, py);
    }
  }

  lemma {:induction false} CommonPixelMeets(e: Elem, t: Tile, px: int, py: int)
    requires Covers(e, px, py) && TileCovers(t, px, py)
    ensures TileMeets(e, t)
  {
  }

  lemma {:induction false} TopIsWhereShown(tiles: seq<Tile>, nodes: map<NodeSig, Node>, i: int, e: Elem, px: int,
                                           py: int)
    requires Contained(tiles, nodes) && !HiddenAt(tiles, nodes, px, py)
    requires 0 <= i < |tiles| && e in Shown(tiles[i], nodes) && Covers(e, px, py)
    ensures TopTile(tiles, px, py) == Some(tiles[i])
  {
    assert Inside(e, tiles[i]);
    if TopTile(tiles, px, py).None? {
      TopTileNone(tiles, px, py);
    } else {
      var k := TopTileLast(tiles, px, py);
    }
  }

  lemma {:induction false} HiddenIsSeen(tiles: seq<Tile>, nodes: map<NodeSig, Node>, elems: seq<Elem>, px: int, py: int)
    requires Laid(elems) && multiset(Expand(tiles, nodes)) == multiset(elems)
    requires HiddenAt(tiles, nodes, px, py)
    ensures TilePaint(tiles, nodes, px, py) != Paint(elems, px, py)
  {
    var i, j, e :| 0 <= i < j < |tiles| && e in Shown(tiles[i], nodes) && Covers(e, px, py)
                   && TileCovers(tiles[j], px, py);
    SameMembers(Expand(tiles, nodes), elems);
    ShownExpands(tiles, nodes, i, e);
    LaidPaint(elems, e, px, py);
    TilePaintShown(tiles, nodes, px, py);
    if TopTile(tiles, px, py).None? {
      TopTileNone(tiles, px, py);
    } else {
      var k := TopTileLast(tiles, px, py);
      assert i < k;
      if Paint(Shown(tiles[k], nodes), px, py).Some? {
        var d := PaintOrigin(Shown(tiles[k], nodes), px, py);
        ShownExpands(tiles, nodes, k, d);
        LaidUnique(elems, d, e, px, py);
        ShownTwice(tiles, nodes, i, k, e);
        LaidOnce(elems, e);
      }
    }
  }

  /** Rectangles that meet have a pixel in common. */
  lemma {:induction false} HiddenSomewhere(tiles: seq<Tile>, nodes: map<NodeSig, Node>)
    ensures NothingHidden(tiles, nodes) <==> forall px, py :: !HiddenAt(tiles, nodes, px, py)
  {
    if NothingHidden(tiles, nodes) {
      forall px, py
        ensures !HiddenAt(tiles, nodes, px, py)
      {
        forall i, j, e | 0 <= i < j < |tiles| && e in Shown(tiles[i], nodes) && Covers(e, px, py)
          ensures !TileCovers(tiles[j], px, py)
        {
          if TileCovers(tiles[j], px, py) {
            CommonPixelMeets(e, tiles[j], px, py);
          }
        }
      }
    } else {
      var i, j, e :| 0 <= i < j < |tiles| && e in Shown(tiles[i], nodes) && TileMeets(e, tiles[j]);
      TileMeetsAtPixel(e, tiles[j]);
      assert HiddenAt(tiles, nodes, Max(e.x, tiles[j].x), Max(e.y, tiles[j].y));
    }
  }

  // ----- The tiles of a planned wall

  lemma {:induction false} SharedTileHolds(e: Elem, nodes: map<NodeSig, Node>)
    requires Signed(e) && Stored(SharedSig(e.sig), nodes)
    ensures forall d :: d in Shown(SharedTile(e), nodes) ==> Inside(d, SharedTile(e))
  {
    SharedTileShows(e, nodes);
  }

  lemma {:induction false} ShardTileHolds(g: seq<Elem>, style: Style, nodes: map<NodeSig, Node>)
    requires Stored(RegionOf(g, style), nodes)
    ensures forall d :: d in Shown(ShardTile(g, style), nodes) ==> d in g && Inside(d, ShardTile(g, style))
  {
    ShardTileShows(g, style, nodes);
    SameMembers(Shown(ShardTile(g, style), nodes), g);
    forall d | d in Shown(ShardTile(g, style), nodes)
      ensures d in g && Inside(d, ShardTile(g, style))
    {
      BBoxHolds(g, d);
    }
  }

  lemma {:induction false} PlannedTilesContained(walls: seq<Wall>, maxCells: nat, rules: Rules, i: nat)
    requires maxCells > 0 && i < |walls|
    ensures Contained(Tiles(walls, walls[i], maxCells, rules), AllNodes(walls, maxCells, rules, |walls|).byKey)
  {
    var tiles := Tiles(walls, walls[i], maxCells, rules);
    var nodes := AllNodes(walls, maxCells, rules, |walls|).byKey;
    WallNodesStored(walls, maxCells, rules, i);
    forall k, d | 0 <= k < |tiles| && d in Shown(tiles[k], nodes)
      ensures Inside(d, tiles[k])
    {
      var shared := SharedElems(walls, Elements(walls[i]));
      var groups := Groups(walls, walls[i], maxCells, rules);
      SharedTilesMember(shared, tiles[k]);
      if e :| e in shared && tiles[k] == SharedTile(e) {
        SharedTileHolds(e, nodes);
      } else {
        ShardTilesMember(groups, walls[i].style, tiles[k]);
        var g :| g in groups && tiles[k] == ShardTile(g, walls[i].style);
        ShardTileHolds(g, walls[i].style, nodes);
      }
    }
  }

  /** Sharding preserves the picture of the tiled part exactly when no tile is drawn over an element
      that an earlier tile shows. */
  lemma {:induction false} TilesShowWallExactly(walls: seq<Wall>, maxCells: nat, rules: Rules, i: nat)
    requires maxCells > 0 && i < |walls|
    requires Laid(Tiled(walls, walls[i]))
    ensures (forall px, py :: TilePaint(Tiles(walls, walls[i], maxCells, rules),
                                        AllNodes(walls, maxCells, rules, |walls|).byKey, px, py)
                              == Paint(Tiled(walls, walls[i]), px, py))
            <==> NothingHidden(Tiles(walls, walls[i], maxCells, rules), AllNodes(walls, maxCells, rules, |walls|).byKey)
  {
    TilesConserved(walls, maxCells, rules, i);
    PlannedTilesContained(walls, maxCells, rules, i);
    LayersExact(Tiles(walls, walls[i], maxCells, rules), AllNodes(walls, maxCells, rules, |walls|).byKey,
                Tiled(walls, walls[i]));
  }

  lemma {:induction false} TilesConserved(walls: seq<Wall>, maxCells: nat, rules: Rules, i: nat)
    requires maxCells > 0 && i < |walls| && Laid(Tiled(walls, walls[i]))
    ensures multiset(Expand(Tiles(walls, walls[i], maxCells, rules), AllNodes(walls, maxCells, rules, |walls|).byKey))
            == multiset(Tiled(walls, walls[i]))
  {
    var wall := walls[i];
    var tiles := Tiles(walls, wall, maxCells, rules);
    var nodes := AllNodes(walls, maxCells, rules, |walls|).byKey;
    assert forall e :: e in Residual(walls, wall) ==> e in Tiled(walls, wall);
    if Residual(walls, wall) != [] {
      PositiveIsClean(Residual(walls, wall), maxCells, rules(wall), true);
    }
    TiledConservedExactly(walls, maxCells, rules, i);
    BagIsMultiset(Expand(tiles, nodes));
    BagIsMultiset(Tiled(walls, wall));
  }

  lemma {:induction false} LayersExact(tiles: seq<Tile>, nodes: map<NodeSig, Node>, elems: seq<Elem>)
    requires Contained(tiles, nodes) && Laid(elems) && multiset(Expand(tiles, nodes)) == multiset(elems)
    ensures (forall px, py :: TilePaint(tiles, nodes, px, py) == Paint(elems, px, py)) <==> NothingHidden(tiles, nodes)
  {
    forall px, py
      ensures TilePaint(tiles, nodes, px, py) == Paint(elems, px, py) <==> !HiddenAt(tiles, nodes, px, py)
    {
      PixelExact(tiles, nodes, elems, px, py);
    }
    HiddenSomewhere(tiles, nodes);
  }

  lemma {:induction false} PixelExact(tiles: seq<Tile>, nodes: map<NodeSig, Node>, elems: seq<Elem>, px: int, py: int)
    requires Contained(tiles, nodes) && Laid(elems) && multiset(Expand(tiles, nodes)) == multiset(elems)
    ensures TilePaint(tiles, nodes, px, py) == Paint(elems, px, py) <==> !HiddenAt(tiles, nodes, px, py)
  {
    if HiddenAt(tiles, nodes, px, py) {
      HiddenIsSeen(tiles, nodes, elems, px, py);
    } else {
      VisibleWhenNotHidden(tiles, nodes, elems, px, py);
    }
  }

  // ----- The whole picture

  /** An overlay that the assembler draws lies over the pixel. */
  predicate DirectAt(walls: seq<Wall>, wall: Wall, px: int, py: int) {
    exists e :: e in DirectElems(walls, wall) && Covers(e, px, py)
  }

  /** The last overlay of the wall over the pixel is a shared one. */
  predicate SharedOnTop(walls: seq<Wall>, overlays: seq<Elem>, px: int, py: int) {
    exists k: nat :: k < |overlays| && Shared(walls, overlays[k].sig) && Covers(overlays[k], px, py)
                     && forall l :: k < l < |overlays| ==> !Covers(overlays[l], px, py)
  }

  lemma {:induction false} PaintLast(elems: seq<Elem>, px: int, py: int) returns (k: nat)
    requires Paint(elems, px, py).Some?
    ensures k < |elems| && Covers(elems[k], px, py) && Paint(elems, px, py) == Some(At(elems[k], px, py))
    ensures forall l :: k < l < |elems| ==> !Covers(elems[l], px, py)
  {
    assert forall l :: 1 <= l < |elems| ==> elems[l] == elems[1..][l - 1];
    if Paint(elems[1..], px, py).Some? {
      k := PaintLast(elems[1..], px, py);
      k := k + 1;
    } else {
      k := 0;
      PaintNone(elems[1..], px, py);
    }
  }

  /** The last element over the pixel stays the last when only own ones are drawn, if it is one. */
  lemma {:induction false} OwnOnTop(walls: seq<Wall>, elems: seq<Elem>, k: nat, px: int, py: int)
    requires k < |elems| && Covers(elems[k], px, py) && !Shared(walls, elems[k].sig)
    requires forall l :: k < l < |elems| ==> !Covers(elems[l], px, py)
    ensures Paint(OwnElems(walls, elems), px, py) == Some(At(elems[k], px, py))
  {
    assert forall l :: 1 <= l < |elems| ==> elems[l] == elems[1..][l - 1];
    if k > 0 {
      OwnOnTop(walls, elems[1..], k - 1, px, py);
      if !Shared(walls, elems[0].sig) {
        assert OwnElems(walls, elems)[1..] == OwnElems(walls, elems[1..]);
      }
    } else {
      SharedOwnMembers(walls, elems[1..]);
      PaintNone(OwnElems(walls, elems[1..]), px, py);
      assert OwnElems(walls, elems)[1..] == OwnElems(walls, elems[1..]);
    }
  }

  /** Drawing the own overlays last shows the same, where there is one, exactly when the last overlay over the
      pixel is an own one. */
  lemma {:induction false} OverlaysExact(walls: seq<Wall>, elems: seq<Elem>, px: int, py: int)
    requires Paint(OwnElems(walls, elems), px, py).Some?
    ensures Paint(OwnElems(walls, elems), px, py) == Paint(elems, px, py) <==> !SharedOnTop(walls, elems, px, py)
    ensures Paint(elems, px, py).Some?
  {
    var own := PaintOrigin(OwnElems(walls, elems), px, py);
    SharedOwnMembers(walls, elems);
    PaintNone(elems, px, py);
    var k := PaintLast(elems, px, py);
    if !Shared(walls, elems[k].sig) {
      OwnOnTop(walls, elems, k, px, py);
    }
  }

  /** At every pixel, the fabric shows the wall exactly when no shared overlay lies last over an overlay that the
      assembler draws, and no tile is drawn over an element of an earlier one, unless the assembler draws an
      overlay there. */
  lemma {:induction false} PictureExactly(walls: seq<Wall>, maxCells: nat, rules: Rules, i: nat, px: int, py: int)
    requires maxCells > 0 && i < |walls| && Laid(Tiled(walls, walls[i]))
    ensures FabricPicture(walls, walls[i], maxCells, rules, px, py) == WallPicture(walls[i], px, py)
            <==> if DirectAt(walls, walls[i], px, py) then !SharedOnTop(walls, Overlays(walls[i]), px, py)
                 else !HiddenAt(Tiles(walls, walls[i], maxCells, rules),
                                AllNodes(walls, maxCells, rules, |walls|).byKey, px, py)
  {
    hide HiddenAt, SharedOnTop, Laid, Tiled, Tiles, AllNodes, Elements;
    var wall := walls[i];
    PaintNone(DirectElems(walls, wall), px, py);
    if DirectAt(walls, wall, px, py) {
      OverlaysExact(walls, Overlays(wall), px, py);
      PaintElements(wall, px, py);
    } else {
      UnderLayer(walls, wall, px, py);
      TilesConserved(walls, maxCells, rules, i);
      PlannedTilesContained(walls, maxCells, rules, i);
      PixelExact(Tiles(walls, wall, maxCells, rules), AllNodes(walls, maxCells, rules, |walls|).byKey,
                 Tiled(walls, wall), px, py);
    }
  }

  lemma {:induction false} PaintElements(wall: Wall, px: int, py: int)
    requires Paint(Overlays(wall), px, py).Some?
    ensures WallPicture(wall, px, py) == Paint(Overlays(wall), px, py)
  {
    PaintConcat(Cells(wall), Overlays(wall), px, py);
  }

  /** Sufficient on rectangles: nothing is hidden, and no shared overlay comes after an overlay that the assembler
      draws and that it meets. One that comes before it does no harm. */
  lemma {:induction false} PicturePreserved(walls: seq<Wall>, maxCells: nat, rules: Rules, i: nat, px: int, py: int)
    requires maxCells > 0 && i < |walls|
    requires Laid(Tiled(walls, walls[i]))
    requires NothingHidden(Tiles(walls, walls[i], maxCells, rules), AllNodes(walls, maxCells, rules, |walls|).byKey)
    requires var overlays := Overlays(walls[i]);
             forall k, l :: 0 <= k < l < |overlays| && !Shared(walls, overlays[k].sig)
                            && Shared(walls, overlays[l].sig) ==>
               !Meets(overlays[k], overlays[l])
    ensures FabricPicture(walls, walls[i], maxCells, rules, px, py) == WallPicture(walls[i], px, py)
  {
    hide FabricPicture, WallPicture, NothingHidden, HiddenAt, Tiles, AllNodes, Laid, Tiled;
    HiddenSomewhere(Tiles(walls, walls[i], maxCells, rules), AllNodes(walls, maxCells, rules, |walls|).byKey);
    PictureExactly(walls, maxCells, rules, i, px, py);
    var overlays := Overlays(walls[i]);
    if DirectAt(walls, walls[i], px, py) && SharedOnTop(walls, overlays, px, py) {
      var e :| e in DirectElems(walls, walls[i]) && Covers(e, px, py);
      SharedOwnMembers(walls, overlays);
      var k :| 0 <= k < |overlays| && overlays[k] == e;
      var l: nat :| l < |overlays| && Shared(walls, overlays[l].sig) && Covers(overlays[l], px, py)
                    && forall m :: l < m < |overlays| ==> !Covers(overlays[m], px, py);
      MeetsAtPixel(overlays[k], overlays[l], px, py);
    }
  }

  lemma {:induction false} UnderLayer(walls: seq<Wall>, wall: Wall, px: int, py: int)
    requires Laid(Tiled(walls, wall)) && Paint(DirectElems(walls, wall), px, py).None?
    ensures WallPicture(wall, px, py) == Paint(Tiled(walls, wall), px, py)
  {
    var tiled := Tiled(walls, wall);
    ElementsSplit(walls, wall);
    BagIsMultiset(tiled);
    BagIsMultiset(DirectElems(walls, wall));
    BagIsMultiset(Elements(wall));
    PaintNone(DirectElems(walls, wall), px, py);
    PaintNone(tiled, px, py);
    PaintNone(Elements(wall), px, py);
    forall e | Covers(e, px, py)
      ensures e in tiled <==> e in Elements(wall)
    {
      assert e !in multiset(DirectElems(walls, wall));
      assert e in tiled <==> e in multiset(tiled);
      assert e in Elements(wall) <==> e in multiset(Elements(wall));
    }
    if Paint(Elements(wall), px, py).Some? {
      var e := PaintOrigin(Elements(wall), px, py);
      LaidPaint(tiled, e, px, py);
    }
  }
}
