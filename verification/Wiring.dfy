/** What the assemblers are told to read (app/compositor_fabric.py:663-672, 927-932, 1005-1008). */
module Wiring {
  import opened Collections
  import opened Signatures
  import opened Plan
  import opened Fabric
  import opened Lines
  import opened Rebinding

  lemma {:induction false} WindowsAt(tiles: seq<Tile>, shm: map<NodeSig, Shm>, k: nat)
    requires k < |tiles| && forall t :: t in tiles ==> t.sig in shm
    ensures |Windows(tiles, shm)| == |tiles|
    ensures Windows(tiles, shm)[k] == Window(shm[tiles[k].sig], tiles[k].x, tiles[k].y, tiles[k].w, tiles[k].h)
  {
    if k > 0 {
      WindowsAt(tiles[1..], shm, k - 1);
    } else if |tiles| > 1 {
      WindowsAt(tiles[1..], shm, 0);
    }
  }

  /** No tile is missing: when step 1 completes, the assembler of every planned wall gets one window for
      each tile, at the place of the tile, on the output of the tile's row, and the row is in the registry. */
  lemma {:induction false} EveryTileIsWired(s: State, p: Pass, walls: seq<Wall>, cells: nat, i: nat, k: nat)
    requires Distinct(p.scan) && DistinctKeys(walls) && cells > 0 && i < |walls|
    requires !BenchOf(s, p, walls, PlanOf(walls, cells, p.rules)).stale
    requires k < |Tiles(walls, walls[i], cells, p.rules)|
    ensures var plan := PlanOf(walls, cells, p.rules);
            var b := BenchOf(s, p, walls, plan);
            var t := Tiles(walls, walls[i], cells, p.rules)[k];
            && walls[i].key in plan.outputs
            && var windows := AsmOf(plan.outputs[walls[i].key], b.shm).windows;
            && |windows| == |Tiles(walls, walls[i], cells, p.rules)|
            && t.sig in b.rows && windows[k] == Window(b.rows[t.sig].shm, t.x, t.y, t.w, t.h)
  {
    hide Materialise, Safe, SameSlot, Tiles, AllNodes;
    var plan := PlanOf(walls, cells, p.rules);
    var b := BenchOf(s, p, walls, plan);
    var tiles := Tiles(walls, walls[i], cells, p.rules);
    OutputsAt(walls, cells, p.rules, |walls|, i);
    AllMaterialised(s, p, walls, plan, |plan.nodes.order|);
    AllNodesOk(walls, cells, p.rules, |walls|);
    forall t | t in tiles
      ensures t.sig in b.shm
    {
      TilesHaveNodes(walls, cells, p.rules, i, t);
      assert t.sig in plan.nodes.order;
    }
    WindowsAt(tiles, b.shm, k);
    assert tiles[k] in tiles;
  }

  // ----- Rebinds leave the windows alone

  lemma {:induction false} TileHasPlace(tiles: seq<Tile>, key: nat, t: Tile)
    requires t in tiles
    ensures Place(key, t.x, t.y, t.w, t.h) in TilePlaces(tiles, key, t.sig)
  {
    if t != tiles[0] {
      TileHasPlace(tiles[1..], key, t);
    }
  }

  lemma {:induction false} WallHasPlace(walls: seq<Wall>, outputs: map<nat, Output>, i: nat, t: Tile)
    requires i < |walls| && walls[i].key in outputs && t in outputs[walls[i].key].tiles
    ensures Place(walls[i].key, t.x, t.y, t.w, t.h) in Places(walls, outputs, t.sig)
  {
    if i == 0 {
      TileHasPlace(outputs[walls[0].key].tiles, walls[0].key, t);
    } else {
      WallHasPlace(walls[1..], outputs, i - 1, t);
    }
  }

  function Outlets(rows: map<NodeSig, Row>): map<NodeSig, Shm> {
    map sig | sig in rows :: rows[sig].shm
  }

  /** The row could be rebound, at this place. */
  predicate Frees(row: Row, node: nat, place: Place) {
    FreedSlot(row, node).Some? && FreedSlot(row, node).value.place == place
  }

  /** The tiles of a wall before the pass, as the registry knows them: every one has a row, and a row that
      could be rebound at the place of a tile is the row of that tile. */
  predicate SlotsAreCurrent(rows: map<NodeSig, Row>, node: nat, v: nat, tiles: seq<Tile>) {
    && (forall t :: t in tiles ==> t.sig in rows)
    && (forall t, sig :: t in tiles && sig in rows && Frees(rows[sig], node, Place(v, t.x, t.y, t.w, t.h)) ==>
          sig == t.sig)
  }

  predicate SameRectangles(a: seq<Tile>, c: seq<Tile>) {
    |a| == |c| && forall k :: 0 <= k < |a| ==>
        a[k].x == c[k].x && a[k].y == c[k].y && a[k].w == c[k].w && a[k].h == c[k].h
  }

  /** The tile `t` may take the place of the tile `was`: it is the same, or a missing node whose rebind is accepted
      and which needs exactly the slot that the row of `was` frees, place and format. */
  predicate Replaces(s: State, p: Pass, walls: seq<Wall>, plan: FabricPlan, was: Tile, t: Tile) {
    && was.sig in s.rows && t.sig in plan.nodes.byKey
    && (t.sig == was.sig
        || (&& t.sig !in s.rows && t.sig in p.rebindOk && was.sig !in plan.nodes.byKey && was.sig in p.scan
            && NeedOf(p, walls, plan, t.sig).Some?
            && FreedSlot(s.rows[was.sig], p.node) == NeedOf(p, walls, plan, t.sig)))
  }

  /** No two tiles lie on the same rectangle. */
  predicate OwnRectangles(tiles: seq<Tile>) {
    forall t, u :: t in tiles && u in tiles && t.x == u.x && t.y == u.y && t.w == u.w && t.h == u.h ==> t == u
  }

  lemma {:induction false} PlaceHasTile(tiles: seq<Tile>, key: nat, sig: NodeSig, place: Place)
    requires place in TilePlaces(tiles, key, sig)
    ensures place.wall == key && Tile(sig, place.x, place.y, place.w, place.h) in tiles
  {
    if place in TilePlaces(tiles[1..], key, sig) {
      PlaceHasTile(tiles[1..], key, sig, place);
    }
  }

  lemma {:induction false} PlaceHasWall(walls: seq<Wall>, outputs: map<nat, Output>, sig: NodeSig, place: Place)
    requires place in Places(walls, outputs, sig)
    ensures place.wall in outputs && Tile(sig, place.x, place.y, place.w, place.h) in outputs[place.wall].tiles
  {
    hide TilePlaces;
    if walls[0].key in outputs && place in TilePlaces(outputs[walls[0].key].tiles, walls[0].key, sig) {
      PlaceHasTile(outputs[walls[0].key].tiles, walls[0].key, sig, place);
    } else {
      PlaceHasWall(walls[1..], outputs, sig, place);
    }
  }

  /** Nobody else needs the slot of a tile that is alone on its rectangle. */
  lemma {:induction false} SlotIsOwn(p: Pass, walls: seq<Wall>, plan: FabricPlan, v: nat, t: Tile, other: NodeSig)
    requires v in plan.outputs && t in plan.outputs[v].tiles && OwnRectangles(plan.outputs[v].tiles)
    requires t.sig in plan.nodes.byKey && NeedOf(p, walls, plan, t.sig).Some?
    requires NeedOf(p, walls, plan, t.sig).value.place == Place(v, t.x, t.y, t.w, t.h)
    requires other in plan.nodes.byKey && NeedOf(p, walls, plan, other) == NeedOf(p, walls, plan, t.sig)
    ensures other == t.sig
  {
    hide FormatOf, OwnRectangles, Places;
    assert Places(walls, plan.outputs, other)[0] == Place(v, t.x, t.y, t.w, t.h);
    assert Place(v, t.x, t.y, t.w, t.h) in Places(walls, plan.outputs, other);
    PlaceHasWall(walls, plan.outputs, other, Place(v, t.x, t.y, t.w, t.h));
    SameRectangleSameTile(plan.outputs[v].tiles, t, Tile(other, t.x, t.y, t.w, t.h));
  }

  lemma {:induction false} SameRectangleSameTile(tiles: seq<Tile>, t: Tile, u: Tile)
    requires OwnRectangles(tiles) && t in tiles && u in tiles
    requires t.x == u.x && t.y == u.y && t.w == u.w && t.h == u.h
    ensures t == u
  {
  }

  lemma {:induction false} NobodyClaims(s: State, p: Pass, walls: seq<Wall>, plan: FabricPlan, slot: Slot, n: nat)
    requires n <= |plan.nodes.order|
    requires forall j :: 0 <= j < n ==> !Claims(s, p, walls, plan, slot, plan.nodes.order[j])
    ensures Claimants(s, p, walls, plan, slot, n) == 0
  {
    hide Claims;
    if n > 0 {
      NobodyClaims(s, p, walls, plan, slot, n - 1);
    }
  }

  lemma {:induction false} RowIsOffered(rows: map<NodeSig, Row>, node: nat, want: set<NodeSig>, scan: seq<NodeSig>,
                                        sig: NodeSig)
    requires sig in scan && sig in rows && sig !in want && FreedSlot(rows[sig], node).Some?
    ensures sig in Listed(FreedSlots(rows, node, want, scan), FreedSlot(rows[sig], node).value)
  {
    hide FreedSlot;
    var last, front := scan[|scan| - 1], scan[..|scan| - 1];
    assert scan == front + [last];
    if sig in front {
      RowIsOffered(rows, node, want, front, sig);
    }
  }

  /** From the state before the pass: a replaced tile is rebound. */
  lemma {:induction false} ReplacedIsRebound(s: State, p: Pass, walls: seq<Wall>, plan: FabricPlan, v: nat, was: Tile,
                                             t: Tile)
    requires Distinct(p.scan) && ListedOnce(plan.nodes) && NoneStale(s, p, walls, plan, |plan.nodes.order|)
    requires v in plan.outputs && t in plan.outputs[v].tiles && OwnRectangles(plan.outputs[v].tiles)
    requires t.x == was.x && t.y == was.y && t.w == was.w && t.h == was.h
    requires SlotsAreCurrent(s.rows, p.node, v, [was]) && Replaces(s, p, walls, plan, was, t) && t.sig != was.sig
    requires NeedOf(p, walls, plan, t.sig).value.place == Place(v, t.x, t.y, t.w, t.h)
    ensures t.sig in BenchOf(s, p, walls, plan).rebound
  {
    hide NeedOf, FreedSlot, FreedSlots, MaterialiseAll, OwnRectangles, SlotsAreCurrent, NoneStale, Claimants;
    var slot := NeedOf(p, walls, plan, t.sig).value;
    var k: nat :| k < |plan.nodes.order| && plan.nodes.order[k] == t.sig;
    forall j | 0 <= j < k
      ensures !Claims(s, p, walls, plan, slot, plan.nodes.order[j])
    {
      if Claims(s, p, walls, plan, slot, plan.nodes.order[j]) {
        SlotIsOwn(p, walls, plan, v, t, plan.nodes.order[j]);
      }
    }
    NobodyClaims(s, p, walls, plan, slot, k);
    NeedsCanRebind(p, walls, plan, t.sig);
    RowIsOffered(s.rows, p.node, plan.nodes.byKey.Keys, p.scan, was.sig);
    assert !Lacks(s, p, walls, plan, k);
    CreatedExactly(s, p, walls, plan);
    assert !Missing(s, p, walls, plan, t.sig);
    PlannedHasRow(s, p, walls, plan, t.sig);
    OtherRowsUntouched(s, p, walls, plan, t.sig);
  }

  lemma {:induction false} NeedsCanRebind(p: Pass, walls: seq<Wall>, plan: FabricPlan, sig: NodeSig)
    requires sig in plan.nodes.byKey && NeedOf(p, walls, plan, sig).Some?
    ensures p.canRebind
  {
  }

  lemma {:induction false} PlannedHasRow(s: State, p: Pass, walls: seq<Wall>, plan: FabricPlan, sig: NodeSig)
    requires Distinct(p.scan) && ListedOnce(plan.nodes) && NoneStale(s, p, walls, plan, |plan.nodes.order|)
    requires sig in plan.nodes.byKey
    ensures sig in BenchOf(s, p, walls, plan).rows && sig in BenchOf(s, p, walls, plan).shm
  {
    hide MaterialiseAll, Safe, SameSlot, NoneStale, Missing;
    AllMaterialised(s, p, walls, plan, |plan.nodes.order|);
    CreatedExactly(s, p, walls, plan);
  }

  /** One tile, unchanged or replaced, keeps its output. */
  lemma {:induction false} SameOutlet(s: State, p: Pass, walls: seq<Wall>, plan: FabricPlan, i: nat, was: Tile, t: Tile)
    requires Distinct(p.scan) && i < |walls| && walls[i].key in plan.outputs && t in plan.outputs[walls[i].key].tiles
    requires t.x == was.x && t.y == was.y && t.w == was.w && t.h == was.h
    requires SlotsAreCurrent(s.rows, p.node, walls[i].key, [was])
    requires t.sig == was.sig || t.sig in BenchOf(s, p, walls, plan).rebound
    requires t.sig in BenchOf(s, p, walls, plan).shm
    ensures BenchOf(s, p, walls, plan).shm[t.sig] == s.rows[was.sig].shm
  {
    hide Materialise, FreedSlots, Places, FormatOf, NewRef;
    AllMaterialised(s, p, walls, plan, |plan.nodes.order|);
    assert was in [was];
    if t.sig in BenchOf(s, p, walls, plan).rebound {
      var place := RebindIsSafe(s, p, walls, plan, t.sig);
      WallHasPlace(walls, plan.outputs, i, t);
    }
  }

  lemma {:induction false} ReplacedKeepsOutlet(s: State, p: Pass, walls: seq<Wall>, plan: FabricPlan, i: nat, was: Tile,
                                               t: Tile)
    requires Distinct(p.scan) && ListedOnce(plan.nodes) && NoneStale(s, p, walls, plan, |plan.nodes.order|)
    requires i < |walls| && walls[i].key in plan.outputs && t in plan.outputs[walls[i].key].tiles
    requires OwnRectangles(plan.outputs[walls[i].key].tiles)
    requires t.x == was.x && t.y == was.y && t.w == was.w && t.h == was.h
    requires SlotsAreCurrent(s.rows, p.node, walls[i].key, [was]) && Replaces(s, p, walls, plan, was, t)
    ensures t.sig in BenchOf(s, p, walls, plan).shm && BenchOf(s, p, walls, plan).shm[t.sig] == s.rows[was.sig].shm
    ensures t.sig == was.sig || t.sig in BenchOf(s, p, walls, plan).rebound
  {
    hide BenchOf, OwnRectangles, SlotsAreCurrent, NoneStale;
    PlannedHasRow(s, p, walls, plan, t.sig);
    if t.sig != was.sig {
      WallHasPlace(walls, plan.outputs, i, t);
      NeededPlace(p, walls, plan, t.sig, Place(walls[i].key, t.x, t.y, t.w, t.h));
      ReplacedIsRebound(s, p, walls, plan, walls[i].key, was, t);
    }
    SameOutlet(s, p, walls, plan, i, was, t);
  }

  lemma {:induction false} NeededPlace(p: Pass, walls: seq<Wall>, plan: FabricPlan, sig: NodeSig, place: Place)
    requires sig in plan.nodes.byKey && NeedOf(p, walls, plan, sig).Some? && place in Places(walls, plan.outputs, sig)
    ensures NeedOf(p, walls, plan, sig).value.place == place
  {
  }

  /** When a wall keeps its rectangles, slots are current, and every tile is unchanged or replaced by a node whose
      rebind is accepted, with the same format, its assembler is given exactly the windows it had. */
  lemma {:induction false} RebindsLeaveWindows(s: State, p: Pass, walls: seq<Wall>, plan: FabricPlan, i: nat,
                                               before: seq<Tile>)
    requires Distinct(p.scan) && ListedOnce(plan.nodes) && NoneStale(s, p, walls, plan, |plan.nodes.order|)
    requires i < |walls| && walls[i].key in plan.outputs
    requires var after := plan.outputs[walls[i].key].tiles;
             && SameRectangles(before, after) && OwnRectangles(after)
             && SlotsAreCurrent(s.rows, p.node, walls[i].key, before)
             && forall k :: 0 <= k < |after| ==> Replaces(s, p, walls, plan, before[k], after[k])
    ensures AsmOf(plan.outputs[walls[i].key], BenchOf(s, p, walls, plan).shm).windows
            == Windows(before, Outlets(s.rows))
    ensures forall t :: t in plan.outputs[walls[i].key].tiles && t.sig !in s.rows ==>
              t.sig in BenchOf(s, p, walls, plan).rebound
  {
    hide BenchOf, FreedSlot, Replaces, OwnRectangles, NoneStale;
    var after, shm := plan.outputs[walls[i].key].tiles, BenchOf(s, p, walls, plan).shm;
    forall k | 0 <= k < |after|
      ensures after[k].sig in shm && before[k].sig in s.rows && shm[after[k].sig] == s.rows[before[k].sig].shm
      ensures after[k].sig == before[k].sig || after[k].sig in BenchOf(s, p, walls, plan).rebound
    {
      assert before[k] in before && after[k] in after;
      assert Replaces(s, p, walls, plan, before[k], after[k]);
      ReplacedKeepsOutlet(s, p, walls, plan, i, before[k], after[k]);
    }
    SameWindows(before, after, Outlets(s.rows), shm);
  }

  lemma {:induction false} SameWindows(a: seq<Tile>, c: seq<Tile>, shmA: map<NodeSig, Shm>, shmC: map<NodeSig, Shm>)
    requires SameRectangles(a, c)
    requires forall k :: 0 <= k < |a| ==> a[k].sig in shmA && c[k].sig in shmC && shmA[a[k].sig] == shmC[c[k].sig]
    ensures Windows(a, shmA) == Windows(c, shmC)
  {
    if a != [] {
      assert forall k :: 0 <= k < |a[1..]| ==> a[1..][k] == a[k + 1] && c[1..][k] == c[k + 1];
      SameWindows(a[1..], c[1..], shmA, shmC);
    }
  }
}
