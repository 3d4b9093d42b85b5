/** When sharding keeps the picture, and two layouts where it does not. */
module PictureLimits {
  import opened Collections
  import opened Signatures
  import opened Geometry
  import opened Guillotine
  import opened Plan
  import opened Conservation
  import opened Picture

  lemma {:induction false} SharedTilesAt(elems: seq<Elem>, k: int)
    ensures |SharedTiles(elems)| == |elems|
    ensures 0 <= k < |elems| ==> SharedTiles(elems)[k] == SharedTile(elems[k])
  {
    if elems != [] {
      SharedTilesAt(elems[1..], k - 1);
    }
  }

  lemma {:induction false} ShardTilesAt(groups: seq<seq<Elem>>, style: Style, k: int)
    ensures |ShardTiles(groups, style)| == |groups|
    ensures 0 <= k < |groups| ==> ShardTiles(groups, style)[k] == ShardTile(groups[k], style)
  {
    if groups != [] {
      ShardTilesAt(groups[1..], style, k - 1);
    }
  }

  lemma {:induction false} ApartNotMet(e: Elem, b: Box, d: Box, t: Tile)
    requires b.x <= e.x && e.x + e.w <= b.x + b.w && b.y <= e.y && e.y + e.h <= b.y + b.h
    requires BoxesDisjoint(b, d) && t.x == d.x && t.y == d.y && t.w == d.w && t.h == d.h
    ensures !TileMeets(e, t)
  {
  }

  lemma {:induction false} EvenTileIsElement(d: Elem, e: Elem)
    requires EvenAligned(e) && TileMeets(d, SharedTile(e))
    ensures Meets(d, e)
  {
  }

  /** The three ways in which a later tile could cover an earlier element do not occur. */
  ghost predicate KeptApart(shared: seq<Elem>, groups: seq<seq<Elem>>, style: Style) {
    && (forall a, b :: 0 <= a < b < |shared| ==> !TileMeets(shared[a], SharedTile(shared[b])))
    && (forall a, b :: 0 <= a < |shared| && 0 <= b < |groups| ==> !TileMeets(shared[a], ShardTile(groups[b], style)))
    && (forall a, b, e :: 0 <= a < b < |groups| && e in groups[a] ==> !TileMeets(e, ShardTile(groups[b], style)))
  }

  lemma {:induction false} TileAt(shared: seq<Elem>, groups: seq<seq<Elem>>, style: Style, k: int)
    requires 0 <= k < |SharedTiles(shared) + ShardTiles(groups, style)|
    ensures |SharedTiles(shared) + ShardTiles(groups, style)| == |shared| + |groups|
    ensures (SharedTiles(shared) + ShardTiles(groups, style))[k]
            == if k < |shared| then SharedTile(shared[k]) else ShardTile(groups[k - |shared|], style)
  {
    SharedTilesAt(shared, k);
    ShardTilesAt(groups, style, k - |shared|);
  }

  /** What the tile at a position shows lies in the element or the group it was made for. */
  lemma {:induction false} ShownAt(shared: seq<Elem>, groups: seq<seq<Elem>>, style: Style, nodes: map<NodeSig, Node>,
                                   k: int, e: Elem)
    requires forall d :: d in shared ==> Signed(d) && Stored(SharedSig(d.sig), nodes)
    requires forall g :: g in groups ==> Stored(RegionOf(g, style), nodes)
    requires 0 <= k < |SharedTiles(shared) + ShardTiles(groups, style)|
    requires e in Shown((SharedTiles(shared) + ShardTiles(groups, style))[k], nodes)
    ensures |SharedTiles(shared) + ShardTiles(groups, style)| == |shared| + |groups|
    ensures if k < |shared| then e == shared[k] else e in groups[k - |shared|]
  {
    TileAt(shared, groups, style, k);
    if k < |shared| {
      assert shared[k] in shared;
      SharedTileShows(shared[k], nodes);
    } else {
      assert groups[k - |shared|] in groups;
      ShardTileHolds(groups[k - |shared|], style, nodes);
    }
  }

  lemma {:induction false} ApartHidesNothing(shared: seq<Elem>, groups: seq<seq<Elem>>, style: Style,
                                             nodes: map<NodeSig, Node>)
    requires KeptApart(shared, groups, style)
    requires forall e :: e in shared ==> Signed(e) && Stored(SharedSig(e.sig), nodes)
    requires forall g :: g in groups ==> Stored(RegionOf(g, style), nodes)
    ensures NothingHidden(SharedTiles(shared) + ShardTiles(groups, style), nodes)
  {
    var tiles := SharedTiles(shared) + ShardTiles(groups, style);
    forall i, j, e | 0 <= i < j < |tiles| && e in Shown(tiles[i], nodes)
      ensures !TileMeets(e, tiles[j])
    {
      hide TileMeets, Shown, Stored, Signed, SharedTile, ShardTile;
      ShownAt(shared, groups, style, nodes, i, e);
      TileAt(shared, groups, style, j);
    }
  }

  /** An even wall whose shared elements stay out of the boxes of its shards, and whose own cells can be
      cut by straight lines, hides nothing: its picture is preserved. */
  lemma {:induction false} EvenWallHidesNothing(walls: seq<Wall>, maxCells: nat, rules: Rules, w: nat)
    requires maxCells > 0 && w < |walls| && Laid(Tiled(walls, walls[w]))
    requires forall d :: d in Tiled(walls, walls[w]) ==> EvenAligned(d)
    requires Residual(walls, walls[w]) == [] || Cuttable(Residual(walls, walls[w]), maxCells, rules(walls[w]), true)
    requires forall d, g :: d in SharedElems(walls, Elements(walls[w])) && g in Groups(walls, walls[w], maxCells, rules)
                            ==> !TileMeets(d, ShardTile(g, walls[w].style))
    ensures NothingHidden(Tiles(walls, walls[w], maxCells, rules), AllNodes(walls, maxCells, rules, |walls|).byKey)
  {
    var wall := walls[w];
    var shared, groups := SharedElems(walls, Elements(wall)), Groups(walls, wall, maxCells, rules);
    WallNodesStored(walls, maxCells, rules, w);
    assert forall d :: d in shared ==> d in Tiled(walls, wall);
    assert forall d :: d in Residual(walls, wall) ==> d in Tiled(walls, wall);
    hide Laid, Tiled, TileMeets, ShardTile, SharedTile, EvenAligned, Stored, Signed, Groups, SharedElems, Residual,
      Cuttable, NothingHidden;
    forall a, b | 0 <= a < b < |shared|
      ensures !TileMeets(shared[a], SharedTile(shared[b]))
    {
      SharedApart(walls, wall, a, b);
    }
    forall a, b, e | 0 <= a < b < |groups| && e in groups[a]
      ensures !TileMeets(e, ShardTile(groups[b], wall.style))
    {
      ShardsApart(walls, wall, maxCells, rules, a, b, e);
    }
    ApartHidesNothing(shared, groups, wall.style, AllNodes(walls, maxCells, rules, |walls|).byKey);
  }

  lemma {:induction false} SharedApart(walls: seq<Wall>, wall: Wall, i: int, j: int)
    requires Laid(Tiled(walls, wall)) && 0 <= i < j < |SharedElems(walls, Elements(wall))|
    requires EvenAligned(SharedElems(walls, Elements(wall))[j])
    ensures !TileMeets(SharedElems(walls, Elements(wall))[i], SharedTile(SharedElems(walls, Elements(wall))[j]))
  {
    var shared := SharedElems(walls, Elements(wall));
    assert Tiled(walls, wall)[i] == shared[i] && Tiled(walls, wall)[j] == shared[j];
    if TileMeets(shared[i], SharedTile(shared[j])) {
      EvenTileIsElement(shared[i], shared[j]);
    }
  }

  lemma {:induction false} ShardsApart(walls: seq<Wall>, wall: Wall, maxCells: nat, rules: Rules, i: int, j: int,
                                       e: Elem)
    requires maxCells > 0 && 0 <= i < j < |Groups(walls, wall, maxCells, rules)|
    requires forall d :: d in Residual(walls, wall) ==> EvenAligned(d)
    requires Residual(walls, wall) == [] || Cuttable(Residual(walls, wall), maxCells, rules(wall), true)
    requires e in Groups(walls, wall, maxCells, rules)[i]
    ensures !TileMeets(e, ShardTile(Groups(walls, wall, maxCells, rules)[j], wall.style))
  {
    var groups := Groups(walls, wall, maxCells, rules);
    EvenGroupsDisjoint(Residual(walls, wall), maxCells, rules(wall), true, i, j);
    BBoxHolds(groups[i], e);
    ApartNotMet(e, BBox(groups[i]), BBox(groups[j]), ShardTile(groups[j], wall.style));
  }

  // ----- A shared overlay over an own cell is lost

  lemma {:induction false} ShardTexelsAreCells(groups: seq<seq<Elem>>, style: Style, nodes: map<NodeSig, Node>, t: Tile,
                                               px: int, py: int)
    requires t in ShardTiles(groups, style)
    requires forall g :: g in groups ==> Stored(RegionOf(g, style), nodes)
    requires forall g, e :: g in groups && e in g ==> e.sig.CellSig?
    ensures Paint(Shown(t, nodes), px, py).Some? ==> Paint(Shown(t, nodes), px, py).value.sig.CellSig?
  {
    ShardTilesMember(groups, style, t);
    var g :| g in groups && t == ShardTile(g, style);
    ShardTileHolds(g, style, nodes);
    if Paint(Shown(t, nodes), px, py).Some? {
      var e := PaintOrigin(Shown(t, nodes), px, py);
    }
  }

  lemma {:induction false} TopOfConcat(a: seq<Tile>, b: seq<Tile>, px: int, py: int)
    ensures TopTile(a + b, px, py) == if TopTile(b, px, py).Some? then TopTile(b, px, py) else TopTile(a, px, py)
  {
    if a == [] {
      assert a + b == b;
    } else {
      assert (a + b)[1..] == a[1..] + b;
      TopOfConcat(a[1..], b, px, py);
    }
  }

  lemma {:induction false} TopTileMember(tiles: seq<Tile>, px: int, py: int)
    ensures TopTile(tiles, px, py).Some? ==> TopTile(tiles, px, py).value in tiles
    ensures forall t :: t in tiles && TileCovers(t, px, py) ==> TopTile(tiles, px, py).Some?
  {
    if tiles != [] {
      TopTileMember(tiles[1..], px, py);
      assert forall t :: t in tiles <==> t == tiles[0] || t in tiles[1..];
    }
  }

  lemma {:induction false} GroupOfCell(walls: seq<Wall>, wall: Wall, maxCells: nat, rules: Rules,
                                       e: Elem) returns (k: int)
    requires maxCells > 0 && e in Residual(walls, wall) && WallClean(walls, wall, maxCells, rules)
    ensures 0 <= k < |Groups(walls, wall, maxCells, rules)| && e in Groups(walls, wall, maxCells, rules)[k]
  {
    var groups := Groups(walls, wall, maxCells, rules);
    GroupsConserveExactly(walls, wall, maxCells, rules);
    SameMembers(Flatten(groups), Residual(walls, wall));
    k := FlattenOrigin(groups, e);
  }

  lemma {:induction false} GroupsHoldCells(walls: seq<Wall>, wall: Wall, maxCells: nat, rules: Rules)
    requires maxCells > 0
    ensures forall g, e :: g in Groups(walls, wall, maxCells, rules) && e in g ==> e in Cells(wall) && e.sig.CellSig?
  {
    ElementsFacts(wall);
    SharedOwnMembers(walls, Cells(wall));
    forall g, e | g in Groups(walls, wall, maxCells, rules) && e in g
      ensures e in Cells(wall)
    {
      var k :| 0 <= k < |Groups(walls, wall, maxCells, rules)| && Groups(walls, wall, maxCells, rules)[k] == g;
      GroupMembers(Residual(walls, wall), maxCells, rules(wall), true, k, e);
    }
  }

  /** Where an own cell lies, the tiles never show an overlay. */
  lemma {:induction false} TilesShowNoOverlay(walls: seq<Wall>, maxCells: nat, rules: Rules, w: nat, e: Elem, px: int,
                                              py: int)
    requires maxCells > 0 && w < |walls| && WallClean(walls, walls[w], maxCells, rules)
    requires e in Residual(walls, walls[w]) && Covers(e, px, py)
    ensures var seen := TilePaint(Tiles(walls, walls[w], maxCells, rules),
                                  AllNodes(walls, maxCells, rules, |walls|).byKey, px, py);
            seen.Some? ==> seen.value.sig.CellSig?
  {
    var wall := walls[w];
    var nodes := AllNodes(walls, maxCells, rules, |walls|).byKey;
    var groups := Groups(walls, wall, maxCells, rules);
    var shards := ShardTiles(groups, wall.style);
    var k := GroupOfCell(walls, wall, maxCells, rules, e);
    BBoxHolds(groups[k], e);
    ShardTilesAt(groups, wall.style, k);
    assert shards[k] in shards && TileCovers(shards[k], px, py);
    TopTileMember(shards, px, py);
    TopOfConcat(SharedTiles(SharedElems(walls, Elements(wall))), shards, px, py);
    TilePaintShown(Tiles(walls, wall, maxCells, rules), nodes, px, py);
    WallNodesStored(walls, maxCells, rules, w);
    GroupsHoldCells(walls, wall, maxCells, rules);
    ShardTexelsAreCells(groups, wall.style, nodes, TopTile(shards, px, py).value, px, py);
  }

  /** A shared overlay over an own cell never reaches the output: where the topmost overlay of a wall is
      shared and lies over a cell of its own, the fabric shows something else than the wall. */
  lemma {:induction false} SharedOverlayLost(walls: seq<Wall>, maxCells: nat, rules: Rules, w: nat, o: Elem, e: Elem,
                                             px: int, py: int)
    requires maxCells > 0 && w < |walls| && WallClean(walls, walls[w], maxCells, rules)
    requires o in Overlays(walls[w]) && Shared(walls, o.sig)
    requires Paint(Overlays(walls[w]), px, py) == Some(At(o, px, py))
    requires e in Residual(walls, walls[w]) && Covers(e, px, py)
    ensures FabricPicture(walls, walls[w], maxCells, rules, px, py) != WallPicture(walls[w], px, py)
  {
    var wall := walls[w];
    ElementsFacts(wall);
    PaintConcat(Cells(wall), Overlays(wall), px, py);
    TilesShowNoOverlay(walls, maxCells, rules, w, e, px, py);
    if Paint(DirectElems(walls, wall), px, py).Some? {
      var d := PaintOrigin(DirectElems(walls, wall), px, py);
      SharedOwnMembers(walls, Overlays(wall));
    }
  }

  // ----- A shared cell inside the box of a shard is lost

  lemma {:induction false} TilesLong(shared: seq<Elem>, groups: seq<seq<Elem>>, style: Style)
    ensures |SharedTiles(shared) + ShardTiles(groups, style)| == |shared| + |groups|
  {
    SharedTilesAt(shared, 0);
    ShardTilesAt(groups, style, 0);
  }

  lemma {:induction false} LaterTileHides(shared: seq<Elem>, groups: seq<seq<Elem>>, style: Style,
                                         nodes: map<NodeSig, Node>, i: int, k: int)
    requires 0 <= i < |shared| && 0 <= k < |groups|
    requires Signed(shared[i]) && Stored(SharedSig(shared[i].sig), nodes)
    requires TileMeets(shared[i], ShardTile(groups[k], style))
    ensures !NothingHidden(SharedTiles(shared) + ShardTiles(groups, style), nodes)
  {
    var tiles := SharedTiles(shared) + ShardTiles(groups, style);
    SharedTileShows(shared[i], nodes);
    hide TileMeets, Shown, SharedTile, ShardTile, Stored, Signed, SharedTiles, ShardTiles;
    TilesLong(shared, groups, style);
    TileAt(shared, groups, style, i);
    TileAt(shared, groups, style, |shared| + k);
    assert shared[i] in Shown(tiles[i], nodes);
    assert TileMeets(shared[i], tiles[|shared| + k]);
  }

  /** A shared cell that the box of a shard reaches is covered by the shard, which is drawn later. */
  lemma {:induction false} SharedCellLost(walls: seq<Wall>, maxCells: nat, rules: Rules, w: nat, i: int, k: int)
    requires maxCells > 0 && w < |walls| && Laid(Tiled(walls, walls[w]))
    requires 0 <= i < |SharedElems(walls, Elements(walls[w]))| && 0 <= k < |Groups(walls, walls[w], maxCells, rules)|
    requires TileMeets(SharedElems(walls, Elements(walls[w]))[i],
                       ShardTile(Groups(walls, walls[w], maxCells, rules)[k], walls[w].style))
    ensures exists px, py :: TilePaint(Tiles(walls, walls[w], maxCells, rules),
                                       AllNodes(walls, maxCells, rules, |walls|).byKey, px, py)
                             != Paint(Tiled(walls, walls[w]), px, py)
  {
    TilesShowWallExactly(walls, maxCells, rules, w);
    WallNodesStored(walls, maxCells, rules, w);
    hide Laid, Tiled, TileMeets, ShardTile, SharedTile, Groups, SharedElems, AllNodes, TilePaint, Paint, Stored,
      Signed, NothingHidden;
    var shared := SharedElems(walls, Elements(walls[w]));
    assert shared[i] in shared;
    LaterTileHides(shared, Groups(walls, walls[w], maxCells, rules), walls[w].style,
                   AllNodes(walls, maxCells, rules, |walls|).byKey, i, k);
  }

  // A column of three windows beside a tall one; the middle window is also on a second wall, with another one.

  const PLAIN := Style(None, None, "", false)
  const TOP := CellCfg(false, "top", 0, 0, 2, 2, "")
  const MIDDLE := CellCfg(false, "middle", 0, 2, 2, 2, "")
  const BOTTOM := CellCfg(false, "bottom", 0, 4, 2, 2, "")
  const TALL := CellCfg(false, "tall", 2, 0, 2, 6, "")
  const FIRST := Wall(1, [TOP, MIDDLE, BOTTOM, TALL], [], 4, 6, PLAIN, "", "")
  const OTHER := CellCfg(false, "other", 2, 2, 2, 2, "")
  const SECOND := Wall(2, [MIDDLE, OTHER], [], 4, 6, PLAIN, "", "")

  function E(c: CellCfg): Elem {
    CellElem(c, PLAIN)
  }

  lemma {:induction false} HoleCells()
    ensures Cells(FIRST) == [E(TOP), E(MIDDLE), E(BOTTOM), E(TALL)] && Cells(SECOND) == [E(MIDDLE), E(OTHER)]
    ensures Overlays(FIRST) == [] && Overlays(SECOND) == []
  {
    assert FIRST.cells[1..] == [MIDDLE, BOTTOM, TALL];
    assert FIRST.cells[1..][1..] == [BOTTOM, TALL];
    assert FIRST.cells[1..][1..][1..] == [TALL];
    assert VisibleCells([TALL]) == [TALL];
    assert VisibleCells([BOTTOM, TALL]) == [BOTTOM, TALL];
    assert VisibleCells([MIDDLE, BOTTOM, TALL]) == [MIDDLE, BOTTOM, TALL];
    assert VisibleCells(FIRST.cells) == [TOP, MIDDLE, BOTTOM, TALL];
    assert CellElems([TALL], PLAIN) == [E(TALL)];
    assert CellElems([BOTTOM, TALL], PLAIN) == [E(BOTTOM), E(TALL)];
    assert CellElems([MIDDLE, BOTTOM, TALL], PLAIN) == [E(MIDDLE), E(BOTTOM), E(TALL)];
    assert SECOND.cells[1..] == [OTHER] && VisibleCells([OTHER]) == [OTHER];
    assert VisibleCells(SECOND.cells) == [MIDDLE, OTHER] && CellElems([OTHER], PLAIN) == [E(OTHER)];
  }

  lemma {:induction false} HoleOwners(sig: ElemSig)
    ensures OwnersUpTo([FIRST, SECOND], sig, 2)
            == (if sig in {E(TOP).sig, E(MIDDLE).sig, E(BOTTOM).sig, E(TALL).sig} then [1] else [])
               + (if sig in {E(MIDDLE).sig, E(OTHER).sig} then [2] else [])
  {
    HoleCells();
    HasSigMember(Elements(FIRST), sig);
    HasSigMember(Elements(SECOND), sig);
    assert OwnersUpTo([FIRST, SECOND], sig, 0) == [];
    assert OwnersUpTo([FIRST, SECOND], sig, 1) == if sig in {E(TOP).sig, E(MIDDLE).sig, E(BOTTOM).sig, E(TALL).sig}
           then [1] else [];
  }

  lemma {:induction false} SecondIsShared(walls: seq<Wall>, a: Elem, b: Elem, c: Elem, d: Elem)
    requires !Shared(walls, a.sig) && Shared(walls, b.sig) && !Shared(walls, c.sig) && !Shared(walls, d.sig)
    ensures OwnElems(walls, [a, b, c, d]) == [a, c, d] && SharedElems(walls, [a, b, c, d]) == [b]
  {
    hide Shared;
    assert [d][1..] == [] && [c, d][1..] == [d] && [b, c, d][1..] == [c, d] && [a, b, c, d][1..] == [b, c, d];
    assert OwnElems(walls, [d]) == [d] && SharedElems(walls, [d]) == [];
    assert OwnElems(walls, [c, d]) == [c, d] && SharedElems(walls, [c, d]) == [];
    assert OwnElems(walls, [b, c, d]) == [c, d] && SharedElems(walls, [b, c, d]) == [b];
  }

  lemma {:induction false} HoleSharing()
    ensures var walls := [FIRST, SECOND];
            && !Shared(walls, E(TOP).sig) && Shared(walls, E(MIDDLE).sig)
            && !Shared(walls, E(BOTTOM).sig) && !Shared(walls, E(TALL).sig) && !Shared(walls, E(OTHER).sig)
  {
    HoleOwners(E(TOP).sig);
    HoleOwners(E(MIDDLE).sig);
    HoleOwners(E(BOTTOM).sig);
    HoleOwners(E(TALL).sig);
    HoleOwners(E(OTHER).sig);
  }

  lemma {:induction false} HoleResidual()
    ensures Residual([FIRST, SECOND], FIRST) == [E(TOP), E(BOTTOM), E(TALL)]
    ensures SharedElems([FIRST, SECOND], Elements(FIRST)) == [E(MIDDLE)]
  {
    HoleCells();
    HoleSharing();
    hide E, Cells, Overlays, Shared, OwnElems, SharedElems;
    SecondIsShared([FIRST, SECOND], E(TOP), E(MIDDLE), E(BOTTOM), E(TALL));
    assert Elements(FIRST) == Cells(FIRST);
  }

  /** The second wall shows the shared window and one of its own. */
  lemma {:induction false} HoleSecond()
    ensures Residual([FIRST, SECOND], SECOND) == [E(OTHER)]
    ensures SharedElems([FIRST, SECOND], Elements(SECOND)) == [E(MIDDLE)]
  {
    HoleCells();
    HoleSharing();
    var walls := [FIRST, SECOND];
    var m, o := E(MIDDLE), E(OTHER);
    hide E, Cells, Overlays, Shared;
    assert [m, o][1..] == [o] && [o][1..] == [];
    assert OwnElems(walls, [o]) == [o] && SharedElems(walls, [o]) == [];
    assert Elements(SECOND) == Cells(SECOND);
  }

  lemma {:induction false} SidesOfThree(d: Elem, e: Elem, f: Elem, a: Axis, c: int)
    ensures Before([d, e, f], a, c)
            == (if Hi(d, a) <= c then [d] else [])
               + ((if Hi(e, a) <= c then [e] else []) + (if Hi(f, a) <= c then [f] else []))
    ensures After([d, e, f], a, c)
            == (if Lo(d, a) >= c then [d] else [])
               + ((if Lo(e, a) >= c then [e] else []) + (if Lo(f, a) >= c then [f] else []))
  {
    hide Hi, Lo;
    assert [d, e, f][1..] == [e, f] && [e, f][1..] == [f] && [f][1..] == [];
    assert Before([f], a, c) == if Hi(f, a) <= c then [f] else [];
    assert After([f], a, c) == if Lo(f, a) >= c then [f] else [];
  }

  lemma {:induction false} EndsOfThree(d: Elem, e: Elem, f: Elem, a: Axis)
    ensures Ends([d, e, f], a) == Insert(Insert([Hi(f, a)], Hi(e, a)), Hi(d, a))
  {
    assert [d, e, f][1..] == [e, f] && [e, f][1..] == [f] && [f][1..] == [];
    assert Ends([f], a) == [Hi(f, a)];
    hide Insert, Hi;
    assert Ends([e, f], a) == Insert([Hi(f, a)], Hi(e, a));
  }

  lemma {:induction false} CutsStep(cells: seq<Elem>, a: Axis, c: int, rest: seq<int>)
    ensures CutsAmong(cells, a, [c] + rest)
            == (if Accepted(cells, a, c) then [CutAt(cells, a, c)] else []) + CutsAmong(cells, a, rest)
  {
  }

  /** Top, bottom and tall window, with the middle one taken out. */
  predicate Column(t: Elem, b: Elem, l: Elem) {
    && t.x == 0 && t.y == 0 && t.w == 2 && t.h == 2
    && b.x == 0 && b.y == 4 && b.w == 2 && b.h == 2
    && l.x == 2 && l.y == 0 && l.w == 2 && l.h == 6
  }

  lemma {:induction false} InsertTwo(u: int, v: int)
    ensures Insert([v], u) == if u < v then [u] + [v] else if u == v then [v] else [v] + [u]
  {
  }

  lemma {:induction false} ColumnEnds(t: Elem, b: Elem, l: Elem)
    requires Column(t, b, l)
    ensures Ends([t, b, l], X) == [2] + [4]
    ensures Ends([t, b, l], Y) == [2] + [6]
  {
    EndsOfThree(t, b, l, X);
    EndsOfThree(t, b, l, Y);
    InsertTwo(2, 4);
    InsertTwo(6, 6);
    InsertTwo(2, 6);
    assert ([2] + [4])[0] == 2;
  }

  /** The only free cut of the three windows runs along the tall one. */
  lemma {:induction false} ColumnCuts(t: Elem, b: Elem, l: Elem)
    requires Column(t, b, l)
    ensures FreeCuts([t, b, l], X) == [Cut(X, 2, [t, b], [l])]
    ensures FreeCuts([t, b, l], Y) == []
  {
    var cells := [t, b, l];
    ColumnEnds(t, b, l);
    ColumnSides(t, b, l);
    hide Before, After, Ends;
    CutsStep(cells, X, 2, [4]);
    CutsStep(cells, X, 4, []);
    CutsStep(cells, Y, 2, [6]);
    CutsStep(cells, Y, 6, []);
    var none: seq<int> := [];
    assert [4] + none == [4] && [6] + none == [6];
  }

  lemma {:induction false} ColumnSides(t: Elem, b: Elem, l: Elem)
    requires Column(t, b, l)
    ensures Before([t, b, l], X, 2) == [t, b] && After([t, b, l], X, 2) == [l]
    ensures After([t, b, l], X, 4) == []
    ensures |Before([t, b, l], Y, 2)| + |After([t, b, l], Y, 2)| == 2
    ensures After([t, b, l], Y, 6) == []
  {
    SidesOfThree(t, b, l, X, 2);
    SidesOfThree(t, b, l, X, 4);
    SidesOfThree(t, b, l, Y, 2);
    SidesOfThree(t, b, l, Y, 6);
  }

  lemma {:induction false} ColumnBoxes(t: Elem, b: Elem, l: Elem)
    requires Column(t, b, l)
    ensures BBox([t, b]) == Box(0, 0, 2, 6) && BBox([l]) == Box(2, 0, 2, 6)
  {
    assert [t, b][1..] == [b];
    hide Even, BBox;
    assert MinLo([b], X) == 0 && MinLo([b], Y) == 4 && MaxHi([b], X) == 2 && MaxHi([b], Y) == 6;
    assert MinLo([t, b], X) == 0 && MinLo([t, b], Y) == 0 && MaxHi([t, b], X) == 2 && MaxHi([t, b], Y) == 6;
    assert MinLo([l], X) == 2 && MinLo([l], Y) == 0 && MaxHi([l], X) == 4 && MaxHi([l], Y) == 6;
    BoxOfBounds([t, b], 0, 0, 2, 6);
    BoxOfBounds([l], 2, 0, 4, 6);
  }

  lemma {:induction false} BoxOfBounds(cells: seq<Elem>, x0: int, y0: int, x1: int, y1: int)
    requires cells != [] && x0 % 2 == 0 && y0 % 2 == 0 && x1 % 2 == 0 && y1 % 2 == 0
    requires MinLo(cells, X) == x0 && MinLo(cells, Y) == y0 && MaxHi(cells, X) == x1 && MaxHi(cells, Y) == y1
    ensures BBox(cells) == Box(x0, y0, x1 - x0, y1 - y0)
  {
  }

  lemma {:induction false} ColumnChoice(t: Elem, b: Elem, l: Elem, budget: Budget)
    requires Column(t, b, l)
    ensures Chosen([t, b, l], AreaPolicy(budget)) == Some(Cut(X, 2, [t, b], [l]))
  {
    AreaPolicyTakesBestCut([t, b, l], budget);
    ColumnCuts(t, b, l);
    hide FreeCuts, AreaPolicy, Chosen;
    var cut := Cut(X, 2, [t, b], [l]);
    assert FreeCuts([t, b, l], X) + FreeCuts([t, b, l], Y) == [cut];
    assert [cut][1..] == [];
  }

  lemma {:induction false} ColumnFits(cells: seq<Elem>, budget: Budget)
    requires 0 < |cells| <= 4 && BBox(cells).w == 2 && BBox(cells).h == 6 && budget == Limited(12.0)
    ensures Fits(cells, 4, AreaPolicy(budget))
  {
  }

  lemma {:induction false} ColumnGroups(t: Elem, b: Elem, l: Elem, budget: Budget)
    requires Column(t, b, l) && budget == Limited(12.0)
    ensures Partition([t, b, l], 4, AreaPolicy(budget), true) == [[t, b], [l]]
  {
    ColumnChoice(t, b, l, budget);
    ColumnBoxes(t, b, l);
    ColumnFits([t, b], budget);
    ColumnFits([l], budget);
    hide Chosen, BBox, AreaPolicy, Fits;
    assert Partition([t, b], 4, AreaPolicy(budget), false) == [[t, b]];
    assert Partition([l], 4, AreaPolicy(budget), false) == [[l]];
  }

  /** With the source's rules and groups of at most four windows, the top and bottom windows make one
      shard whose box encloses the shared middle window. */
  lemma {:induction false} HoleGroups()
    ensures Groups([FIRST, SECOND], FIRST, 4, SourceRules()) == [[E(TOP), E(BOTTOM)], [E(TALL)]]
  {
    HoleResidual();
    assert WallBudget(FIRST) == Limited(12.0);
    ColumnGroups(E(TOP), E(BOTTOM), E(TALL), Limited(12.0));
    hide Partition, AreaPolicy, Residual, WallBudget;
    assert SourceRules()(FIRST) == AreaPolicy(WallBudget(FIRST));
  }

  lemma {:induction false} ColumnLaid(m: Elem, t: Elem, b: Elem, l: Elem)
    requires Column(t, b, l) && m.x == 0 && m.y == 2 && m.w == 2 && m.h == 2
    ensures Laid([m, t, b, l])
    ensures TileMeets(m, ShardTile([t, b], PLAIN))
  {
    ColumnBoxes(t, b, l);
    hide BBox;
    var elems := [m, t, b, l];
    assert !Meets(m, t) && !Meets(m, b) && !Meets(m, l) && !Meets(t, b) && !Meets(t, l) && !Meets(b, l);
  }

  lemma {:induction false} EnclosedIsLost(walls: seq<Wall>, rules: Rules, m: Elem, t: Elem, b: Elem, l: Elem)
    requires walls != [] && walls[0].style == PLAIN
    requires Column(t, b, l) && m.x == 0 && m.y == 2 && m.w == 2 && m.h == 2
    requires SharedElems(walls, Elements(walls[0])) == [m] && Residual(walls, walls[0]) == [t, b, l]
    requires Groups(walls, walls[0], 4, rules) == [[t, b], [l]]
    ensures exists px, py ::
              TilePaint(Tiles(walls, walls[0], 4, rules), AllNodes(walls, 4, rules, |walls|).byKey, px, py)
              != Paint(Tiled(walls, walls[0]), px, py)
  {
    ColumnLaid(m, t, b, l);
    assert [m] + [t, b, l] == [m, t, b, l];
    assert Tiled(walls, walls[0]) == [m, t, b, l];
    hide Laid, TileMeets, Tiled, Groups, SharedElems, Elements, TilePaint, Tiles, AllNodes, Paint;
    assert [[t, b], [l]][0] == [t, b];
    SharedCellLost(walls, 4, rules, 0, 0, 0);
  }

  /** So some pixel of the first wall is not shown: sharding does not always preserve the picture,
      even for aligned, disjoint windows that straight lines separate. */
  lemma {:induction false} HoleHidesSharedCell()
    ensures exists px, py ::
              TilePaint(Tiles([FIRST, SECOND], FIRST, 4, SourceRules()),
                        AllNodes([FIRST, SECOND], 4, SourceRules(), 2).byKey, px, py)
              != Paint(Tiled([FIRST, SECOND], FIRST), px, py)
  {
    HoleResidual();
    HoleGroups();
    hide SharedElems, Elements, Residual, Groups, SourceRules, TilePaint, Tiles, AllNodes, Paint, Tiled;
    EnclosedIsLost([FIRST, SECOND], SourceRules(), E(MIDDLE), E(TOP), E(BOTTOM), E(TALL));
  }
}
