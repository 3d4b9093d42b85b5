/** Expanding the tiles of a wall gives back its placements (app/compositor_fabric.py:393-445). */
module Conservation {
  import opened Collections
  import opened Signatures
  import opened Geometry
  import opened Guillotine
  import opened Plan

  /** What a tile shows: the windows of its node at the place of the tile. */
  function Shown(t: Tile, nodes: map<NodeSig, Node>): seq<Elem> {
    if t.sig in nodes then Shift(nodes[t.sig].windows, t.x, t.y) else []
  }

  /** Everything that a list of tiles shows. */
  function Expand(tiles: seq<Tile>, nodes: map<NodeSig, Node>): seq<Elem> {
    if tiles == [] then [] else Shown(tiles[0], nodes) + Expand(tiles[1..], nodes)
  }

  lemma {:induction false} ExpandConcat(a: seq<Tile>, b: seq<Tile>, nodes: map<NodeSig, Node>)
    ensures Expand(a + b, nodes) == Expand(a, nodes) + Expand(b, nodes)
  {
    if a == [] {
      assert a + b == b;
    } else {
      assert (a + b)[1..] == a[1..] + b;
      ExpandConcat(a[1..], b, nodes);
    }
  }

  // ----- Shifting

  function Moved(e: Elem, dx: int, dy: int): Elem {
    e.(x := e.x + dx, y := e.y + dy)
  }

  lemma {:induction false} ShiftBack(elems: seq<Elem>, dx: int, dy: int)
    ensures Shift(Shift(elems, -dx, -dy), dx, dy) == elems
  {
    if elems != [] {
      ShiftBack(elems[1..], dx, dy);
      assert Shift(elems, -dx, -dy)[1..] == Shift(elems[1..], -dx, -dy);
    }
  }

  lemma {:induction false} BagStep(elems: seq<Elem>, e: Elem)
    requires elems != []
    ensures Bag(elems)[e] == (if elems[0] == e then 1 else 0) + Bag(elems[1..])[e]
  {
  }

  lemma {:induction false} ShiftStep(elems: seq<Elem>, dx: int, dy: int)
    requires elems != []
    ensures Shift(elems, dx, dy) == [Moved(elems[0], dx, dy)] + Shift(elems[1..], dx, dy)
    ensures Shift(elems, dx, dy)[1..] == Shift(elems[1..], dx, dy)
  {
  }

  lemma {:induction false} ShiftCount(elems: seq<Elem>, dx: int, dy: int, e: Elem)
    ensures Bag(Shift(elems, dx, dy))[e] == Bag(elems)[Moved(e, -dx, -dy)]
  {
    if elems != [] {
      ShiftStep(elems, dx, dy);
      BagStep(elems, Moved(e, -dx, -dy));
      BagStep(Shift(elems, dx, dy), e);
      hide Bag, Shift;
      ShiftCount(elems[1..], dx, dy, e);
      assert Moved(elems[0], dx, dy) == e <==> elems[0] == Moved(e, -dx, -dy);
    }
  }

  lemma {:induction false} ShiftSameBag(a: seq<Elem>, b: seq<Elem>, dx: int, dy: int)
    requires Bag(a) == Bag(b)
    ensures Bag(Shift(a, dx, dy)) == Bag(Shift(b, dx, dy))
  {
    forall e
      ensures Bag(Shift(a, dx, dy))[e] == Bag(Shift(b, dx, dy))[e]
    {
      ShiftCount(a, dx, dy, e);
      ShiftCount(b, dx, dy, e);
    }
  }

  // ----- Single tiles

  lemma {:induction false} SharedTileShows(e: Elem, nodes: map<NodeSig, Node>)
    requires Signed(e) && SharedSig(e.sig) in nodes && NodeOk(SharedSig(e.sig), nodes[SharedSig(e.sig)])
    ensures Shown(SharedTile(e), nodes) == [e]
  {
    assert Shift([Elem(e.sig, 0, 0, e.w, e.h)], e.x, e.y)[1..] == [];
  }

  lemma {:induction false} RelativeInPlace(g: seq<Elem>)
    ensures Shift(Relative(g), Frame(g).x, Frame(g).y) == g
  {
    ShiftBack(g, Frame(g).x, Frame(g).y);
  }

  /** A shard tile shows its group, whichever wall or group first stored the node. */
  lemma {:induction false} ShardTileShows(g: seq<Elem>, style: Style, nodes: map<NodeSig, Node>)
    requires RegionOf(g, style) in nodes && NodeOk(RegionOf(g, style), nodes[RegionOf(g, style)])
    ensures multiset(Shown(ShardTile(g, style), nodes)) == multiset(g)
  {
    var windows := nodes[RegionOf(g, style)].windows;
    assert Bag(windows) == Bag(Relative(g));
    hide Frame, Relative, Bag;
    ShiftSameBag(windows, Relative(g), Frame(g).x, Frame(g).y);
    RelativeInPlace(g);
    BagIsMultiset(Shift(windows, Frame(g).x, Frame(g).y));
    BagIsMultiset(g);
  }

  // ----- All tiles of a wall

  ghost predicate Stored(sig: NodeSig, nodes: map<NodeSig, Node>) {
    sig in nodes && NodeOk(sig, nodes[sig])
  }

  lemma {:induction false} SharedTilesShow(elems: seq<Elem>, nodes: map<NodeSig, Node>)
    requires forall e :: e in elems ==> Signed(e) && Stored(SharedSig(e.sig), nodes)
    ensures Expand(SharedTiles(elems), nodes) == elems
  {
    if elems != [] {
      SharedTilesShow(elems[1..], nodes);
      assert elems[0] in elems;
      SharedTileShows(elems[0], nodes);
    }
  }

  lemma {:induction false} ShardTilesShow(groups: seq<seq<Elem>>, style: Style, nodes: map<NodeSig, Node>)
    requires forall g :: g in groups ==> Stored(RegionOf(g, style), nodes)
    ensures multiset(Expand(ShardTiles(groups, style), nodes)) == multiset(Flatten(groups))
  {
    if groups != [] {
      assert groups[0] in groups;
      ShardTilesShow(groups[1..], style, nodes);
      ShardTileShows(groups[0], style, nodes);
      assert ShardTiles(groups, style)[1..] == ShardTiles(groups[1..], style);
    }
  }

  /** The part of a wall that becomes tiles: shared elements and own cells. */
  function Tiled(walls: seq<Wall>, wall: Wall): seq<Elem> {
    SharedElems(walls, Elements(wall)) + Residual(walls, wall)
  }

  function DirectElems(walls: seq<Wall>, wall: Wall): seq<Elem> {
    OwnElems(walls, Overlays(wall))
  }

  /** No cut taken for this wall has a cell of non-positive extent on it. */
  predicate WallClean(walls: seq<Wall>, wall: Wall, maxCells: nat, rules: Rules)
    requires maxCells > 0
  {
    Residual(walls, wall) == [] || CutsClean(Residual(walls, wall), maxCells, rules(wall), true)
  }

  lemma {:induction false} WallNodesStored(walls: seq<Wall>, maxCells: nat, rules: Rules, i: nat)
    requires maxCells > 0 && i < |walls|
    ensures forall e :: e in SharedElems(walls, Elements(walls[i])) ==>
              Signed(e) && Stored(SharedSig(e.sig), AllNodes(walls, maxCells, rules, |walls|).byKey)
    ensures forall g :: g in Groups(walls, walls[i], maxCells, rules) ==>
              Stored(RegionOf(g, walls[i].style), AllNodes(walls, maxCells, rules, |walls|).byKey)
  {
    AllNodesOk(walls, maxCells, rules, |walls|);
    forall e | e in SharedElems(walls, Elements(walls[i]))
      ensures Signed(e) && Stored(SharedSig(e.sig), AllNodes(walls, maxCells, rules, |walls|).byKey)
    {
      SharedTileNode(walls, maxCells, rules, i, e);
    }
    forall g | g in Groups(walls, walls[i], maxCells, rules)
      ensures Stored(RegionOf(g, walls[i].style), AllNodes(walls, maxCells, rules, |walls|).byKey)
    {
      ShardNodesHave(walls, maxCells, rules, i, g);
    }
  }

  lemma {:induction false} TilesExpand(walls: seq<Wall>, maxCells: nat, rules: Rules, i: nat)
    requires maxCells > 0 && i < |walls|
    ensures multiset(Expand(Tiles(walls, walls[i], maxCells, rules), AllNodes(walls, maxCells, rules, |walls|).byKey))
            == multiset(SharedElems(walls, Elements(walls[i])))
               + multiset(Flatten(Groups(walls, walls[i], maxCells, rules)))
  {
    var nodes := AllNodes(walls, maxCells, rules, |walls|).byKey;
    var shared, groups := SharedElems(walls, Elements(walls[i])), Groups(walls, walls[i], maxCells, rules);
    WallNodesStored(walls, maxCells, rules, i);
    ExpandConcat(SharedTiles(shared), ShardTiles(groups, walls[i].style), nodes);
    SharedTilesShow(shared, nodes);
    ShardTilesShow(groups, walls[i].style, nodes);
  }

  lemma {:induction false} GroupsConserveExactly(walls: seq<Wall>, wall: Wall, maxCells: nat, rules: Rules)
    requires maxCells > 0
    ensures multiset(Flatten(Groups(walls, wall, maxCells, rules))) == multiset(Residual(walls, wall))
            <==> WallClean(walls, wall, maxCells, rules)
  {
    if Residual(walls, wall) != [] {
      PartitionConservesExactly(Residual(walls, wall), maxCells, rules(wall), true);
    }
  }

  lemma {:induction false} MultisetCancel<T>(a: multiset<T>, b: multiset<T>, c: multiset<T>)
    ensures a + b == a + c <==> b == c
  {
    if a + b == a + c {
      assert (a + b) - a == b;
      assert (a + c) - a == c;
    }
  }

  /** The tiles of a wall show its tiled part exactly when its cuts are clean. */
  lemma {:induction false} TiledConservedExactly(walls: seq<Wall>, maxCells: nat, rules: Rules, i: nat)
    requires maxCells > 0 && i < |walls|
    ensures Bag(Expand(Tiles(walls, walls[i], maxCells, rules), AllNodes(walls, maxCells, rules, |walls|).byKey))
            == Bag(Tiled(walls, walls[i]))
            <==> WallClean(walls, walls[i], maxCells, rules)
  {
    hide Bag, Expand, Tiles, AllNodes, Groups, WallClean;
    BagIsMultiset(Expand(Tiles(walls, walls[i], maxCells, rules), AllNodes(walls, maxCells, rules, |walls|).byKey));
    BagIsMultiset(Tiled(walls, walls[i]));
    TilesExpand(walls, maxCells, rules, i);
    GroupsConserveExactly(walls, walls[i], maxCells, rules);
    MultisetCancel(multiset(SharedElems(walls, Elements(walls[i]))),
                   multiset(Flatten(Groups(walls, walls[i], maxCells, rules))),
                   multiset(Residual(walls, walls[i])));
  }

  lemma {:induction false} ElementsSplit(walls: seq<Wall>, wall: Wall)
    ensures Bag(Tiled(walls, wall)) + Bag(DirectElems(walls, wall)) == Bag(Elements(wall))
  {
    BagIsMultiset(Tiled(walls, wall));
    BagIsMultiset(DirectElems(walls, wall));
    BagIsMultiset(Elements(wall));
    SharedElemsConcat(walls, Cells(wall), Overlays(wall));
    SharedOrOwn(walls, Cells(wall));
    SharedOrOwn(walls, Overlays(wall));
  }

  /** Placement conservation. Whatever the walls share or repeat, the tiles of a wall expanded by their
      nodes, with the overlays its assembler draws, are the elements of the wall with their positions,
      exactly when no cut taken for the wall runs through a cell of non-positive extent. */
  lemma {:induction false} PlacementsConservedExactly(walls: seq<Wall>, maxCells: nat, rules: Rules, i: nat)
    requires maxCells > 0 && i < |walls|
    ensures Bag(Expand(Tiles(walls, walls[i], maxCells, rules), AllNodes(walls, maxCells, rules, |walls|).byKey))
            + Bag(OverlayElems(DirectOverlays(walls, VisibleOverlays(walls[i].overlays), walls[i].style),
                               walls[i].style))
            == Bag(Elements(walls[i]))
            <==> WallClean(walls, walls[i], maxCells, rules)
  {
    hide Bag, Expand, Tiles, AllNodes, Groups, WallClean, Tiled;
    DirectAreOwn(walls, VisibleOverlays(walls[i].overlays), walls[i].style);
    TiledConservedExactly(walls, maxCells, rules, i);
    ElementsSplit(walls, walls[i]);
    assert Bag(DirectElems(walls, walls[i])) + Bag(Tiled(walls, walls[i]))
           == Bag(Tiled(walls, walls[i])) + Bag(DirectElems(walls, walls[i]));
    MultisetCancel(Bag(DirectElems(walls, walls[i])),
                   Bag(Expand(Tiles(walls, walls[i], maxCells, rules),
                              AllNodes(walls, maxCells, rules, |walls|).byKey)),
                   Bag(Tiled(walls, walls[i])));
  }

  /** Walls whose cells have a positive size lose and repeat nothing. */
  lemma {:induction false} PositiveWallClean(walls: seq<Wall>, wall: Wall, maxCells: nat, rules: Rules)
    requires maxCells > 0 && AllPositive(Cells(wall))
    ensures WallClean(walls, wall, maxCells, rules)
  {
    SharedOwnMembers(walls, Cells(wall));
    if Residual(walls, wall) != [] {
      PositiveIsClean(Residual(walls, wall), maxCells, rules(wall), true);
    }
  }
}
