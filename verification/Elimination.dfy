/** Dropping the walls that would get a single tile (app/compositor_fabric.py:746-748, 909-925). */
module Elimination {
  import opened Collections
  import opened Signatures
  import opened Guillotine
  import opened Plan

  function TileCount(walls: seq<Wall>, wall: Wall, maxCells: nat, rules: Rules): nat
    requires maxCells > 0
  {
    |Tiles(walls, wall, maxCells, rules)|
  }

  /** The walls that get at least two tiles when the first `n` are considered; tiles are counted in the
      plan of all walls. */
  function KeptUpTo(walls: seq<Wall>, maxCells: nat, rules: Rules, n: nat): seq<Wall>
    requires maxCells > 0 && n <= |walls|
  {
    if n == 0 then [] else
    KeptUpTo(walls, maxCells, rules, n - 1)
    + (if TileCount(walls, walls[n - 1], maxCells, rules) >= 2 then [walls[n - 1]] else [])
  }

  function Kept(walls: seq<Wall>, maxCells: nat, rules: Rules): seq<Wall>
    requires maxCells > 0
  {
    KeptUpTo(walls, maxCells, rules, |walls|)
  }

  lemma {:induction false} KeptMember(walls: seq<Wall>, maxCells: nat, rules: Rules, n: nat, wall: Wall)
    requires maxCells > 0 && n <= |walls| && wall in KeptUpTo(walls, maxCells, rules, n)
    ensures wall in walls && TileCount(walls, wall, maxCells, rules) >= 2
  {
    hide TileCount;
    if wall !in KeptUpTo(walls, maxCells, rules, n - 1) {
      assert wall == walls[n - 1];
    } else {
      KeptMember(walls, maxCells, rules, n - 1, wall);
    }
  }

  lemma {:induction false} TileCountIs(walls: seq<Wall>, wall: Wall, maxCells: nat, rules: Rules)
    requires maxCells > 0
    ensures TileCount(walls, wall, maxCells, rules)
            == |SharedElems(walls, Elements(wall))| + |Groups(walls, wall, maxCells, rules)|
  {
    TilesLengths(SharedElems(walls, Elements(wall)), Groups(walls, wall, maxCells, rules), wall.style);
  }

  lemma {:induction false} TilesLengths(elems: seq<Elem>, groups: seq<seq<Elem>>, style: Style)
    ensures |SharedTiles(elems)| == |elems| && |ShardTiles(groups, style)| == |groups|
    decreases |elems| + |groups|
  {
    if elems != [] {
      TilesLengths(elems[1..], groups, style);
    } else if groups != [] {
      TilesLengths(elems, groups[1..], style);
    }
  }

  /** A wall with at least two visible cells and fewer than two tiles has no shared element. */
  lemma {:induction false} SoloSharesNothing(walls: seq<Wall>, wall: Wall, maxCells: nat, rules: Rules)
    requires maxCells > 0 && VisibleCount(wall) >= 2 && TileCount(walls, wall, maxCells, rules) < 2
    ensures SharedElems(walls, Elements(wall)) == []
  {
    TileCountIs(walls, wall, maxCells, rules);
    ElementsFacts(wall);
    SharedElemsConcat(walls, Cells(wall), Overlays(wall));
    SharedOrOwn(walls, Cells(wall));
    OwnLength(walls, Cells(wall));
    if Residual(walls, wall) != [] {
      GroupSizes(Residual(walls, wall), maxCells, rules(wall), true);
    }
  }

  lemma {:induction false} OwnLength(walls: seq<Wall>, elems: seq<Elem>)
    ensures |SharedElems(walls, elems)| + |OwnElems(walls, elems)| == |elems|
  {
    if elems != [] {
      OwnLength(walls, elems[1..]);
    }
  }

  // ----- Dropping such walls changes what nobody else shares

  /** A wall that shares nothing does not show a shared signature. */
  lemma {:induction false} NothingSharedShown(walls: seq<Wall>, wall: Wall, sig: ElemSig)
    requires SharedElems(walls, Elements(wall)) == [] && Shared(walls, sig)
    ensures !HasSig(Elements(wall), sig)
  {
    HasSigMember(Elements(wall), sig);
    SharedOwnMembers(walls, Elements(wall));
  }

  /** The walls that get at least two tiles, and those of the given keys, among the first `n`. */
  function ThinnedUpTo(walls: seq<Wall>, maxCells: nat, rules: Rules, stay: set<nat>, n: nat): seq<Wall>
    requires maxCells > 0 && n <= |walls|
  {
    if n == 0 then [] else
    ThinnedUpTo(walls, maxCells, rules, stay, n - 1)
    + (if TileCount(walls, walls[n - 1], maxCells, rules) >= 2 || walls[n - 1].key in stay then [walls[n - 1]] else [])
  }

  function Thinned(walls: seq<Wall>, maxCells: nat, rules: Rules, stay: set<nat>): seq<Wall>
    requires maxCells > 0
  {
    ThinnedUpTo(walls, maxCells, rules, stay, |walls|)
  }

  lemma {:induction false} ThinnedToKept(walls: seq<Wall>, maxCells: nat, rules: Rules, n: nat)
    requires maxCells > 0 && n <= |walls|
    ensures ThinnedUpTo(walls, maxCells, rules, {}, n) == KeptUpTo(walls, maxCells, rules, n)
  {
    hide TileCount;
    if n > 0 {
      ThinnedToKept(walls, maxCells, rules, n - 1);
    }
  }

  lemma {:induction false} ThinnedStep(walls: seq<Wall>, maxCells: nat, rules: Rules, stay: set<nat>, n: nat)
    requires maxCells > 0 && 0 < n <= |walls|
    ensures ThinnedUpTo(walls, maxCells, rules, stay, n)
            == if TileCount(walls, walls[n - 1], maxCells, rules) >= 2 || walls[n - 1].key in stay
               then ThinnedUpTo(walls, maxCells, rules, stay, n - 1) + [walls[n - 1]]
               else ThinnedUpTo(walls, maxCells, rules, stay, n - 1)
  {
  }

  /** Owners of a shared signature are unaffected by dropping one-tile walls. */
  lemma {:induction false} OwnersOfShared(walls: seq<Wall>, maxCells: nat, rules: Rules, stay: set<nat>, n: nat,
                                          sig: ElemSig)
    requires maxCells > 0 && n <= |walls| && Shared(walls, sig)
    requires forall w :: w in walls ==> VisibleCount(w) >= 2
    ensures Owners(ThinnedUpTo(walls, maxCells, rules, stay, n), sig) == OwnersUpTo(walls, sig, n)
  {
    hide HasSig, Shared, Elements, SharedElems, VisibleCount, TileCount;
    if n > 0 {
      var last := walls[n - 1];
      assert last in walls;
      OwnersOfShared(walls, maxCells, rules, stay, n - 1, sig);
      ThinnedStep(walls, maxCells, rules, stay, n);
      if TileCount(walls, last, maxCells, rules) >= 2 || last.key in stay {
        OwnersSnoc(ThinnedUpTo(walls, maxCells, rules, stay, n - 1), last, sig);
      } else {
        SoloSharesNothing(walls, last, maxCells, rules);
        NothingSharedShown(walls, last, sig);
      }
    }
  }

  lemma {:induction false} OwnersPrefix(walls: seq<Wall>, more: seq<Wall>, sig: ElemSig, n: nat)
    requires n <= |walls|
    ensures OwnersUpTo(walls + more, sig, n) == OwnersUpTo(walls, sig, n)
  {
    hide HasSig, Elements;
    if n > 0 {
      OwnersPrefix(walls, more, sig, n - 1);
    }
  }

  lemma {:induction false} OwnersSnoc(walls: seq<Wall>, last: Wall, sig: ElemSig)
    ensures Owners(walls + [last], sig) == Owners(walls, sig) + (if HasSig(Elements(last), sig) then [last.key] else [])
  {
    OwnersPrefix(walls, [last], sig, |walls|);
  }

  /** A signature has no more owners among the walls that remain than among all. */
  lemma {:induction false} FewerOwners(walls: seq<Wall>, maxCells: nat, rules: Rules, stay: set<nat>, n: nat,
                                       sig: ElemSig)
    requires maxCells > 0 && n <= |walls|
    ensures |Owners(ThinnedUpTo(walls, maxCells, rules, stay, n), sig)| <= |OwnersUpTo(walls, sig, n)|
  {
    hide HasSig, Elements, TileCount;
    if n > 0 {
      FewerOwners(walls, maxCells, rules, stay, n - 1, sig);
      ThinnedStep(walls, maxCells, rules, stay, n);
      OwnersSnoc(ThinnedUpTo(walls, maxCells, rules, stay, n - 1), walls[n - 1], sig);
    }
  }

  /** Dropping one-tile walls, all or some of them, changes no sharing. */
  lemma {:induction false} SharingStays(walls: seq<Wall>, maxCells: nat, rules: Rules, stay: set<nat>, sig: ElemSig)
    requires maxCells > 0 && forall w :: w in walls ==> VisibleCount(w) >= 2
    ensures Shared(Thinned(walls, maxCells, rules, stay), sig) <==> Shared(walls, sig)
  {
    FewerOwners(walls, maxCells, rules, stay, |walls|, sig);
    if Shared(walls, sig) {
      OwnersOfShared(walls, maxCells, rules, stay, |walls|, sig);
    }
  }

  lemma {:induction false} SharingKept(walls: seq<Wall>, maxCells: nat, rules: Rules, sig: ElemSig)
    requires maxCells > 0 && forall w :: w in walls ==> VisibleCount(w) >= 2
    ensures Shared(Kept(walls, maxCells, rules), sig) <==> Shared(walls, sig)
  {
    SharingStays(walls, maxCells, rules, {}, sig);
    ThinnedToKept(walls, maxCells, rules, |walls|);
  }

  lemma {:induction false} SameSharing(v: seq<Wall>, w: seq<Wall>, elems: seq<Elem>)
    requires forall e :: e in elems ==> (Shared(v, e.sig) <==> Shared(w, e.sig))
    ensures SharedElems(v, elems) == SharedElems(w, elems) && OwnElems(v, elems) == OwnElems(w, elems)
  {
    if elems != [] {
      SameSharing(v, w, elems[1..]);
    }
  }

  /** One elimination is enough. Plan some walls, each with at least two visible cells, with groups of up
      to `wide` cells; drop those that get fewer than two tiles; plan the others again with groups of up to
      `narrow` cells, no more than `wide`. Every wall planned again gets at least two tiles. */
  lemma {:induction false} OneEliminationSuffices(walls: seq<Wall>, wide: nat, narrow: nat, rules: Rules, wall: Wall)
    requires 0 < narrow <= wide && forall w :: w in walls ==> VisibleCount(w) >= 2
    requires wall in Kept(walls, wide, rules)
    ensures TileCount(Kept(walls, wide, rules), wall, narrow, rules) >= 2
  {
    var kept := Kept(walls, wide, rules);
    KeptMember(walls, wide, rules, |walls|, wall);
    forall sig {
      SharingKept(walls, wide, rules, sig);
    }
    SameSharing(kept, walls, Elements(wall));
    SameSharing(kept, walls, Cells(wall));
    TileCountIs(walls, wall, wide, rules);
    TileCountIs(kept, wall, narrow, rules);
    FewerGroupsOfWall(kept, wall, narrow, wide, rules);
    assert Groups(kept, wall, wide, rules) == Groups(walls, wall, wide, rules);
  }

  lemma {:induction false} FewerGroupsOfWall(walls: seq<Wall>, wall: Wall, m: nat, n: nat, rules: Rules)
    requires 0 < m <= n
    ensures |Groups(walls, wall, n, rules)| <= |Groups(walls, wall, m, rules)|
  {
    if Residual(walls, wall) != [] {
      FewerGroups(Residual(walls, wall), m, n, rules(wall), true);
    }
  }

  // ----- Dropping only some of them

  /** Every wall gets the same tiles as before, whatever the size of groups. */
  lemma {:induction false} SameTilesAmongFewer(walls: seq<Wall>, maxCells: nat, rules: Rules, stay: set<nat>,
                                               wall: Wall, cells: nat)
    requires maxCells > 0 && cells > 0 && forall w :: w in walls ==> VisibleCount(w) >= 2
    ensures OutputOf(Thinned(walls, maxCells, rules, stay), wall, cells, rules) == OutputOf(walls, wall, cells, rules)
    ensures Tiles(Thinned(walls, maxCells, rules, stay), wall, cells, rules) == Tiles(walls, wall, cells, rules)
  {
    hide Shared, Thinned, Elements, Cells, VisibleCount;
    forall sig {
      SharingStays(walls, maxCells, rules, stay, sig);
    }
    SameSharing(Thinned(walls, maxCells, rules, stay), walls, Elements(wall));
    SameSharing(Thinned(walls, maxCells, rules, stay), walls, Cells(wall));
    SameDirect(Thinned(walls, maxCells, rules, stay), walls, VisibleOverlays(wall.overlays), wall.style);
  }

  lemma {:induction false} SameDirect(v: seq<Wall>, w: seq<Wall>, overlays: seq<OverlayCfg>, style: Style)
    requires forall sig :: Shared(v, sig) <==> Shared(w, sig)
    ensures DirectOverlays(v, overlays, style) == DirectOverlays(w, overlays, style)
  {
    hide Shared;
    if overlays != [] {
      SameDirect(v, w, overlays[1..], style);
    }
  }

  lemma {:induction false} ThinnedPrefix(walls: seq<Wall>, maxCells: nat, rules: Rules, stay: set<nat>, m: nat, n: nat)
    requires maxCells > 0 && m <= n <= |walls|
    ensures ThinnedUpTo(walls, maxCells, rules, stay, m) <= ThinnedUpTo(walls, maxCells, rules, stay, n)
    decreases n - m
  {
    hide TileCount;
    if m < n {
      ThinnedPrefix(walls, maxCells, rules, stay, m, n - 1);
    }
  }

  lemma {:induction false} KeptAmongFewerUpTo(walls: seq<Wall>, maxCells: nat, rules: Rules, stay: set<nat>, n: nat)
    requires maxCells > 0 && n <= |walls| && forall w :: w in walls ==> VisibleCount(w) >= 2
    ensures var fewer := Thinned(walls, maxCells, rules, stay);
            var m := |ThinnedUpTo(walls, maxCells, rules, stay, n)|;
            m <= |fewer| && KeptUpTo(fewer, maxCells, rules, m) == KeptUpTo(walls, maxCells, rules, n)
  {
    hide Tiles, VisibleCount;
    ThinnedPrefix(walls, maxCells, rules, stay, n, |walls|);
    if n > 0 {
      KeptAmongFewerUpTo(walls, maxCells, rules, stay, n - 1);
      ThinnedStep(walls, maxCells, rules, stay, n);
      SameTilesAmongFewer(walls, maxCells, rules, stay, walls[n - 1], maxCells);
    }
  }

  /** The walls that get at least two tiles are the same. */
  lemma {:induction false} KeptAmongFewer(walls: seq<Wall>, maxCells: nat, rules: Rules, stay: set<nat>)
    requires maxCells > 0 && forall w :: w in walls ==> VisibleCount(w) >= 2
    ensures Kept(Thinned(walls, maxCells, rules, stay), maxCells, rules) == Kept(walls, maxCells, rules)
  {
    KeptAmongFewerUpTo(walls, maxCells, rules, stay, |walls|);
  }

  lemma {:induction false} ThinnedMember(walls: seq<Wall>, maxCells: nat, rules: Rules, stay: set<nat>, n: nat, w: Wall)
    requires maxCells > 0 && n <= |walls| && w in ThinnedUpTo(walls, maxCells, rules, stay, n)
    ensures w in walls
  {
    hide TileCount;
    if w in ThinnedUpTo(walls, maxCells, rules, stay, n - 1) {
      ThinnedMember(walls, maxCells, rules, stay, n - 1, w);
    }
  }

  /** Fewer walls need no more nodes, whatever the size of groups. */
  lemma {:induction false} NoMoreNodes(walls: seq<Wall>, maxCells: nat, rules: Rules, stay: set<nat>, cells: nat)
    requires maxCells > 0 && cells > 0 && forall w :: w in walls ==> VisibleCount(w) >= 2
    ensures |PlanOf(Thinned(walls, maxCells, rules, stay), cells, rules).nodes.byKey|
            <= |PlanOf(walls, cells, rules).nodes.byKey|
  {
    hide Tiles, VisibleCount, PlanOf, ThinnedUpTo;
    var fewer := Thinned(walls, maxCells, rules, stay);
    var keys, more := PlanOf(fewer, cells, rules).nodes.byKey.Keys, PlanOf(walls, cells, rules).nodes.byKey.Keys;
    forall sig | sig in keys
      ensures sig in more
    {
      NodesAreShown(fewer, cells, rules, sig);
      var i: nat :| i < |fewer| && ShownInWall(fewer, cells, rules, i, sig);
      ThinnedMember(walls, maxCells, rules, stay, |walls|, fewer[i]);
      SameTilesAmongFewer(walls, maxCells, rules, stay, fewer[i], cells);
      var j: nat :| j < |walls| && walls[j] == fewer[i];
      assert ShownInWall(walls, cells, rules, j, sig);
      NodesAreShown(walls, cells, rules, sig);
    }
    SubsetSize(keys, more);
  }

  /** Smaller groups never give a wall fewer tiles. */
  lemma {:induction false} MoreTiles(walls: seq<Wall>, wall: Wall, m: nat, n: nat, rules: Rules)
    requires 0 < m <= n
    ensures TileCount(walls, wall, n, rules) <= TileCount(walls, wall, m, rules)
  {
    TileCountIs(walls, wall, m, rules);
    TileCountIs(walls, wall, n, rules);
    FewerGroupsOfWall(walls, wall, m, n, rules);
  }

  // ----- Plans with the same outputs

  lemma {:induction false} OutputKeys(walls: seq<Wall>, cells: nat, rules: Rules, n: nat, v: nat)
    requires cells > 0 && n <= |walls|
    ensures v in Outputs(walls, cells, rules, n) <==> exists i :: 0 <= i < n && walls[i].key == v
  {
    hide OutputOf;
    if n > 0 {
      OutputKeys(walls, cells, rules, n - 1, v);
    }
  }

  /** Plans that give every wall the same tiles have the same nodes. */
  lemma {:induction false} SameOutputsSameNodes(v: seq<Wall>, m: nat, w: seq<Wall>, n: nat, rules: Rules, sig: NodeSig)
    requires m > 0 && n > 0 && DistinctKeys(v) && DistinctKeys(w)
    requires PlanOf(v, m, rules).outputs == PlanOf(w, n, rules).outputs
    requires sig in PlanOf(v, m, rules).nodes.byKey
    ensures sig in PlanOf(w, n, rules).nodes.byKey
  {
    hide Tiles, AllNodes;
    NodesAreShown(v, m, rules, sig);
    var i: nat :| i < |v| && ShownInWall(v, m, rules, i, sig);
    OutputsAt(v, m, rules, |v|, i);
    OutputKeys(w, n, rules, |w|, v[i].key);
    var j: nat :| j < |w| && w[j].key == v[i].key;
    OutputsAt(w, n, rules, |w|, j);
    assert ShownInWall(w, n, rules, j, sig);
    NodesAreShown(w, n, rules, sig);
  }
}
