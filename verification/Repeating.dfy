/** Repeating a pass that did what it had to do changes nothing (app/compositor_fabric.py:840, 1009-1036). */
module Repeating {
  import opened Collections
  import opened Signatures
  import opened Plan
  import opened Elimination
  import opened Fabric
  import opened Lines
  import opened Orchestrator
  import opened Rebinding
  import opened Wiring
  import opened Assemblers
  import opened Waiting
  import opened Settled

  /** The same pass, but for what it observes and when. */
  ghost predicate SamePass(p: Pass, q: Pass) {
    q == p.(now := q.now, canRebind := q.canRebind, rebindOk := q.rebindOk, asksReady := q.asksReady, ready := q.ready,
            asksReport := q.asksReport, report := q.report, reportAfter := q.reportAfter, staleCreate := q.staleCreate,
            staleSwitch := q.staleSwitch, refs := q.refs, scan := q.scan, known := q.known, stuck := q.stuck)
  }

  /** The wall is told both to stop being an assembler and to become one. */
  predicate Torn(p: Pass, wall: Wall) {
    wall.key in p.restorable && Saturated(p, wall.key) && VisibleCount(wall) >= p.minCells
  }

  /** The pass completed, deferred no switch, left no orphan for later, and step 3 took no planned row and no
      planned wall with it. */
  predicate Done(s: State, p: Pass)
    requires ValidPass(p)
  {
    var r := Reconcile(s, p);
    && !r.stale && (forall v :: v in r.outcomes ==> r.outcomes[v] != Deferred)
    && (forall sig :: sig in r.state.rows && r.state.rows[sig].node == p.node ==> sig in r.plan.nodes.byKey)
    && r.plan.nodes.byKey.Keys <= r.state.rows.Keys
    && (forall w :: w in r.heavy ==> w.key !in r.fallen)
  }

  /** The pass completed, and step 3 took no planned wall with it. */
  predicate WallsStand(s: State, p: Pass)
    requires ValidPass(p)
  {
    var r := Reconcile(s, p);
    !r.stale && forall w :: w in r.heavy ==> w.key !in r.fallen
  }

  lemma {:induction false} DoneStands(s: State, p: Pass)
    requires ValidPass(p) && Done(s, p)
    ensures WallsStand(s, p)
  {
    hide Reconcile;
  }

  /** What the walls report is what the pass planned; a pass that does not ask them comes soon enough. */
  predicate Confirmed(r: Result, q: Pass) {
    forall w :: w in r.heavy && w.key in r.plan.outputs ==>
      if q.asksReport then InPlace(ReportOf(q.report, w.key), ConfigOf(r, w.key))
      else w.key in r.state.pushed && q.now - r.state.pushed[w.key].at < REFRESH_S
  }

  // ----- The same walls are wanted, but for unsaturated ones that got a single tile

  /** Whether the repeated pass wants a wall. */
  lemma {:induction false} WantedAgain(s: State, p: Pass, q: Pass, i: nat)
    requires ValidPass(p) && SamePass(p, q) && WallsStand(s, p) && i < |p.walls| && !Torn(p, p.walls[i])
    ensures var wall, r := p.walls[i], Reconcile(s, p);
            && (wall.key in r.state.asm ==> Wanted(r.state.asm, q, wall))
            && (Wanted(r.state.asm, q, wall)
                <==> Wanted(s.asm, p, wall) && (FirstTileCount(s, p, wall) >= 2 || Saturated(p, wall.key)))
  {
    hide Reconcile, PlanOf, TileCount, VisibleCount, Select, KeptUpTo, MergedCells, FirstTileCount;
    var wall, r := p.walls[i], Reconcile(s, p);
    SelectedWall(s, p, |p.walls|, i);
    PlannedWalls(s, p, i);
    if wall.key in s.asm {
      LeavesExactlyWhen(s, p, i);
    } else {
      EntersExactlyWhen(s, p, i);
    }
  }

  lemma {:induction false} SelectGrows(s: State, p: Pass, m: nat, n: nat)
    requires m <= n <= |p.walls|
    ensures Select(s, p, m).heavy <= Select(s, p, n).heavy
    decreases n - m
  {
    hide Wanted, Restored;
    if m < n {
      SelectGrows(s, p, m, n - 1);
    }
  }

  /** Saturated walls among those wanted. */
  function SaturatedKeys(s: State, p: Pass): set<nat> {
    set w | w in HeavyOf(s, p) && Saturated(p, w.key) :: w.key
  }

  /** What the repeated pass selects: nobody is restored, and the walls wanted are those of the first pass
      without the unsaturated ones that got a single tile. */
  lemma {:induction false} SelectedAgain(s: State, p: Pass, q: Pass, n: nat)
    requires ValidPass(p) && SamePass(p, q) && WallsStand(s, p) && n <= |p.walls|
    requires forall i :: 0 <= i < |p.walls| ==> !Torn(p, p.walls[i])
    ensures var t, heavy, m := Reconcile(s, p).state, HeavyOf(s, p), |Select(s, p, n).heavy|;
            && m <= |heavy| && Select(t, q, n).state == t && Select(t, q, n).restored == []
            && Select(t, q, n).heavy == ThinnedUpTo(heavy, MergedCells(p, heavy), p.rules, SaturatedKeys(s, p), m)
  {
    hide Reconcile, WallsStand, TileCount, Wanted, MergedCells, ThinnedUpTo, Saturated, VisibleCount;
    var t, heavy := Reconcile(s, p).state, HeavyOf(s, p);
    var cells, stay := MergedCells(p, heavy), SaturatedKeys(s, p);
    SelectGrows(s, p, n, |p.walls|);
    if n == 0 {
      NothingSelected(s, p, t, q, heavy, cells, stay);
    } else {
      hide Select, SaturatedKeys;
      var wall := p.walls[n - 1];
      SelectedAgain(s, p, q, n - 1);
      SelectNext(s, p, n);
      SelectNext(t, q, n);
      assert !Torn(p, wall);
      WantedAgain(s, p, q, n - 1);
      var m := |Select(s, p, n).heavy|;
      if Wanted(s.asm, p, wall) {
        assert heavy[m - 1] == wall;
        SaturatedMember(s, p, m - 1);
        ThinnedStep(heavy, cells, p.rules, stay, m);
      }
    }
  }

  lemma {:induction false} NothingSelected(s: State, p: Pass, t: State, q: Pass, heavy: seq<Wall>, cells: nat,
                                           stay: set<nat>)
    requires cells > 0
    ensures Select(t, q, 0).state == t && Select(t, q, 0).restored == [] && Select(t, q, 0).heavy == []
    ensures Select(s, p, 0).heavy == [] && ThinnedUpTo(heavy, cells, p.rules, stay, 0) == []
  {
  }

  lemma {:induction false} SaturatedMember(s: State, p: Pass, k: nat)
    requires k < |HeavyOf(s, p)|
    ensures HeavyOf(s, p)[k].key in SaturatedKeys(s, p) <==> Saturated(p, HeavyOf(s, p)[k].key)
  {
    hide Select, Saturated;
    assert HeavyOf(s, p)[k] in HeavyOf(s, p);
  }

  // ----- The plan is the same

  /** The same groups are merged: the first plan fitted without merging, or every wall with a single tile is
      saturated, and so is wanted again. Otherwise the machine may hold the second plan with smaller groups. */
  predicate NoMergeToUndo(s: State, p: Pass)
    requires ValidPass(p)
  {
    || MergedCells(p, HeavyOf(s, p)) == p.maxCells
    || (forall w :: w in HeavyOf(s, p) ==> TileCount(HeavyOf(s, p), w, MergedCells(p, HeavyOf(s, p)), p.rules) >= 2
                                           || Saturated(p, w.key))
  }

  lemma {:induction false} AllStay(walls: seq<Wall>, cells: nat, rules: Rules, stay: set<nat>, n: nat)
    requires cells > 0 && n <= |walls|
    requires forall w :: w in walls ==> TileCount(walls, w, cells, rules) >= 2 || w.key in stay
    ensures ThinnedUpTo(walls, cells, rules, stay, n) == walls[..n]
  {
    hide TileCount;
    if n > 0 {
      AllStay(walls, cells, rules, stay, n - 1);
      assert walls[n - 1] in walls;
      assert walls[..n] == walls[..n - 1] + [walls[n - 1]];
    }
  }

  /** The machine holds the plan of fewer walls without merging. */
  lemma {:induction false} NoMoreMerging(p: Pass, walls: seq<Wall>, stay: set<nat>)
    requires p.maxCells > 0 && MergedCells(p, walls) == p.maxCells && forall w :: w in walls ==> VisibleCount(w) >= 2
    ensures MergedCells(p, Thinned(walls, p.maxCells, p.rules, stay)) == p.maxCells
  {
    hide PlanOf, Thinned, VisibleCount;
    NoMoreNodes(walls, p.maxCells, p.rules, stay, p.maxCells);
    if p.maxNodes.Some? && p.maxNodes.value > 0 && NodeCount(walls, p.maxCells, p.rules) > p.maxNodes.value
       && p.maxCells < MERGE_LIMIT {
      assert false;
    }
  }

  lemma {:induction false} PlannedAgain(s: State, p: Pass, q: Pass)
    requires ValidPass(p) && SamePass(p, q) && Done(s, p) && NoMergeToUndo(s, p) && p.minCells >= 2
    requires forall i :: 0 <= i < |p.walls| ==> !Torn(p, p.walls[i])
    ensures var r, t := Reconcile(s, p), Reconcile(s, p).state;
            var heavy := HeavyOf(t, q);
            var cells := MergedCells(q, heavy);
            && Select(t, q, |q.walls|).state == t
            && Kept(heavy, cells, q.rules) == r.heavy
            && PlanOf(Kept(heavy, cells, q.rules), FinalCells(q, heavy, cells), q.rules) == r.plan
  {
    hide Reconcile, Done, WallsStand, TileCount, Wanted, MergedCells, KeptUpTo, Saturated, VisibleCount, PlanOf, Select,
      SaturatedKeys, ThinnedUpTo,
      Torn;
    DoneStands(s, p);
    var first, t := HeavyOf(s, p), Reconcile(s, p).state;
    var cells, stay := MergedCells(p, first), SaturatedKeys(s, p);
    SelectedAgain(s, p, q, |p.walls|);
    CarryOutHeavy(s, p);
    assert HeavyOf(t, q) == Thinned(first, cells, p.rules, stay);
    SameMerging(p, q, first);
    SameMerging(p, q, HeavyOf(t, q));
    if cells == p.maxCells {
      forall w | w in first
        ensures VisibleCount(w) >= 2
      {
        SelectedHaveEnough(s, p, |p.walls|, w);
      }
      NoMoreMerging(p, first, stay);
      KeptAmongFewer(first, cells, p.rules, stay);
    } else {
      forall w | w in first
        ensures TileCount(first, w, cells, p.rules) >= 2 || w.key in stay
      {
        var k :| 0 <= k < |first| && first[k] == w;
        SaturatedMember(s, p, k);
      }
      AllStay(first, cells, p.rules, stay, |first|);
      assert first[..|first|] == first;
    }
  }

  lemma {:induction false} SameMerging(p: Pass, q: Pass, heavy: seq<Wall>)
    requires SamePass(p, q) && p.maxCells > 0
    ensures MergedCells(q, heavy) == MergedCells(p, heavy)
  {
    hide NodeCount;
  }

  // ----- Every wall is left alone

  /** What a wall that waits for nothing was last given. */
  lemma {:induction false} SwitchSettles(b: Board, p: Pass, walls: seq<Wall>, plan: FabricPlan, shm: map<NodeSig, Shm>,
                                         refOf: map<Shm, Ref>, n: nat, i: nat)
    requires i < n <= |walls| && DistinctKeys(walls) && b.outcomes == map[] && walls[i].key in plan.outputs
    requires var c := SwitchAll(b, p, walls, plan, shm, refOf, n);
             !c.stale && (walls[i].key in c.outcomes ==> c.outcomes[walls[i].key] != Deferred)
    ensures var v := walls[i].key;
            SameAsPushed(SwitchAll(b, p, walls, plan, shm, refOf, n).state, v, AsmOf(plan.outputs[v], shm))
  {
    hide AsmOf, Silent, OutcomeOf, Apply, SameAsPushed;
    var c := SwitchAll(b, p, walls, plan, shm, refOf, n - 1);
    var v, last := walls[i].key, walls[n - 1].key;
    SwitchedWalls(b, p, walls, plan, shm, refOf, n - 1, last);
    SwitchNext(b, p, walls, plan, shm, refOf, n);
    var after := SwitchAll(b, p, walls, plan, shm, refOf, n).outcomes;
    assert forall j :: 0 <= j < n - 1 ==> walls[j].key != last;
    assert forall u :: u in c.outcomes ==> u != last && u in after && after[u] == c.outcomes[u];
    if i == n - 1 {
      assert v in after && after[v] != Deferred;
      LeftAloneIsPushed(c.state, p, v, AsmOf(plan.outputs[v], shm), refOf);
    } else {
      assert v != last;
      SwitchSettles(b, p, walls, plan, shm, refOf, n - 1, i);
      if last in plan.outputs {
        OthersRemembered(c.state, p, last, AsmOf(plan.outputs[last], shm), refOf, v, AsmOf(plan.outputs[v], shm));
      }
    }
  }

  lemma {:induction false} LeftAloneIsPushed(s: State, p: Pass, v: nat, config: AsmConfig, refOf: map<Shm, Ref>)
    ensures var o := OutcomeOf(s, p, v, config, refOf);
            o.Skipped? || o.Switched? ==>
                SameAsPushed(Apply(s, p, v, config, Silent(p, v, config, refOf), o), v, config)
  {
    hide Silent, InPlace;
  }

  lemma {:induction false} OthersRemembered(s: State, p: Pass, v: nat, config: AsmConfig, refOf: map<Shm, Ref>,
                                            u: nat, other: AsmConfig)
    requires u != v && SameAsPushed(s, u, other)
    ensures var o := OutcomeOf(s, p, v, config, refOf);
            SameAsPushed(Apply(s, p, v, config, Silent(p, v, config, refOf), o), u, other)
  {
    hide Silent, InPlace;
  }

  lemma {:induction false} PlannedWasPushed(s: State, p: Pass, i: nat)
    requires ValidPass(p) && !Reconcile(s, p).stale && i < |Reconcile(s, p).heavy|
             && Reconcile(s, p).heavy[i].key in Reconcile(s, p).plan.outputs
    requires OutcomeIn(Reconcile(s, p), Reconcile(s, p).heavy[i].key) != Some(Deferred)
    ensures var r := Reconcile(s, p);
            SameAsPushed(r.state, r.heavy[i].key, ConfigOf(r, r.heavy[i].key))
  {
    hide Reconcile, SwitchAll, AsmOf, FallenIn, TearAmong, CondemnedAmong, OutcomeOf;
    var r := Reconcile(s, p);
    PassShape(s, p);
    BeforeTeardown(s, p);
    OutcomesOfBoard(s, p);
    SwitchSettles(Board(Decided(s, p).(rows := r.bench.rows), map[], false), p, r.heavy, r.plan, r.bench.shm,
                  r.bench.refOf, |r.heavy|, i);
  }

  lemma {:induction false} NothingDeferred(s: State, p: Pass, v: nat)
    requires ValidPass(p) && Done(s, p)
    ensures !Reconcile(s, p).stale && OutcomeIn(Reconcile(s, p), v) != Some(Deferred)
    ensures Reconcile(s, p).plan.nodes.byKey.Keys <= Reconcile(s, p).state.rows.Keys
  {
    hide Reconcile;
  }

  /** The planned configuration names the outputs of the rows that remain. */
  lemma {:induction false} ConfigStands(s: State, p: Pass, i: nat)
    requires ValidPass(p) && !Reconcile(s, p).stale && i < |Reconcile(s, p).heavy|
    requires Reconcile(s, p).plan.nodes.byKey.Keys <= Reconcile(s, p).state.rows.Keys
    ensures var r := Reconcile(s, p);
            && r.heavy[i].key in r.plan.outputs
            && ConfigOf(r, r.heavy[i].key) == AsmOf(r.plan.outputs[r.heavy[i].key], Outlets(r.state.rows))
  {
    hide Reconcile, Tiles, AllNodes, MaterialiseAll, StartBench, NodeOk, MergedCells, Select, KeptUpTo, Dragged,
      MayBeRead, Safe, SameSlot,
      Windows;
    var r := Reconcile(s, p);
    var cells := FinalCells(p, HeavyOf(s, p), MergedCells(p, HeavyOf(s, p)));
    PassShape(s, p);
    CarryOutHeavy(s, p);
    OutputsAt(r.heavy, cells, p.rules, |r.heavy|, i);
    BenchNotStale(Decided(s, p), p, r.heavy, SolosOf(s, p), r.plan);
    AllMaterialised(Decided(s, p), p, r.heavy, r.plan, |r.plan.nodes.order|);
    AllNodesOk(r.heavy, cells, p.rules, |r.heavy|);
    var tiles, shm := Tiles(r.heavy, r.heavy[i], cells, p.rules), r.bench.shm;
    forall k | 0 <= k < |tiles|
      ensures tiles[k].sig in shm && tiles[k].sig in r.state.rows && shm[tiles[k].sig] == r.state.rows[tiles[k].sig].shm
    {
      TilesHaveNodes(r.heavy, cells, p.rules, i, tiles[k]);
      assert tiles[k].sig in r.plan.nodes.order;
      PassTears(s, p, tiles[k].sig);
    }
    SameWindows(tiles, tiles, shm, Outlets(r.state.rows));
  }

  lemma {:induction false} StayInPlace(s: State, p: Pass, q: Pass)
    requires ValidPass(p) && Done(s, p) && Confirmed(Reconcile(s, p), q)
    ensures AllInPlace(Reconcile(s, p).state, q, Reconcile(s, p).heavy, Reconcile(s, p).plan)
  {
    hide Reconcile, Done, AsmOf, InPlace;
    var r := Reconcile(s, p);
    forall i | 0 <= i < |r.heavy|
      ensures r.heavy[i].key in r.plan.outputs
      ensures Skips(r.state, q, r.heavy[i].key, AsmOf(r.plan.outputs[r.heavy[i].key], Outlets(r.state.rows)))
    {
      assert r.heavy[i] in r.heavy;
      NothingDeferred(s, p, r.heavy[i].key);
      ConfigStands(s, p, i);
      PlannedWasPushed(s, p, i);
    }
  }

  // ----- Exactly when the repeated pass changes nothing

  /** The walls that the repeated pass wants, from the state before the first one. */
  function NextWanted(s: State, p: Pass): seq<Wall>
    requires ValidPass(p)
  {
    Thinned(HeavyOf(s, p), MergedCells(p, HeavyOf(s, p)), p.rules, SaturatedKeys(s, p))
  }

  function NextWalls(s: State, p: Pass): seq<Wall>
    requires ValidPass(p)
  {
    Kept(NextWanted(s, p), MergedCells(p, NextWanted(s, p)), p.rules)
  }

  /** Cells per shard in its plan. */
  function NextCells(s: State, p: Pass): (r: nat)
    requires ValidPass(p)
    ensures r > 0
  {
    FinalCells(p, NextWanted(s, p), MergedCells(p, NextWanted(s, p)))
  }

  function NextPlan(s: State, p: Pass): FabricPlan
    requires ValidPass(p)
  {
    PlanOf(NextWalls(s, p), NextCells(s, p), p.rules)
  }

  function ThisCells(s: State, p: Pass): (r: nat)
    requires ValidPass(p)
    ensures r > 0
  {
    FinalCells(p, HeavyOf(s, p), MergedCells(p, HeavyOf(s, p)))
  }

  lemma {:induction false} NextIs(s: State, p: Pass, q: Pass)
    requires ValidPass(p) && ValidPass(q) && SamePass(p, q) && WallsStand(s, p)
    requires forall i :: 0 <= i < |p.walls| ==> !Torn(p, p.walls[i])
    ensures var t := Reconcile(s, p).state;
            HeavyOf(t, q) == NextWanted(s, p) && WallsFor(t, q) == NextWalls(s, p) && PlanFor(t, q) == NextPlan(s, p)
  {
    hide Reconcile, WallsStand, TileCount, Select, SaturatedKeys, ThinnedUpTo, Torn, KeptUpTo, PlanOf, MergedCells;
    SelectedAgain(s, p, q, |p.walls|);
    SameMerging(p, q, NextWanted(s, p));
  }

  lemma {:induction false} WantedHaveTwo(s: State, p: Pass)
    requires p.minCells >= 2
    ensures forall w :: w in HeavyOf(s, p) ==> VisibleCount(w) >= 2
  {
    hide VisibleCount, Select;
    forall w | w in HeavyOf(s, p)
      ensures VisibleCount(w) >= 2
    {
      SelectedHaveEnough(s, p, |p.walls|, w);
    }
  }

  lemma {:induction false} GrowFewer(fewer: seq<Wall>, walls: seq<Wall>, cells: nat, rules: Rules, capacity: nat)
    requires cells > 0 && forall c: nat :: c > 0 ==> NodeCount(fewer, c, rules) <= NodeCount(walls, c, rules)
    ensures Grow(fewer, cells, rules, capacity) <= Grow(walls, cells, rules, capacity)
    decreases MERGE_LIMIT - cells
  {
    hide NodeCount;
    if NodeCount(fewer, cells, rules) > capacity && cells < MERGE_LIMIT {
      GrowFewer(fewer, walls, 2 * cells, rules, capacity);
    }
  }

  /** The repeated pass merges no more than the first. */
  lemma {:induction false} MergesNoMore(s: State, p: Pass)
    requires ValidPass(p) && p.minCells >= 2
    ensures MergedCells(p, NextWanted(s, p)) <= MergedCells(p, HeavyOf(s, p))
  {
    hide VisibleCount, Select, PlanOf, Thinned;
    WantedHaveTwo(s, p);
    var heavy := HeavyOf(s, p);
    forall c: nat | c > 0
      ensures NodeCount(NextWanted(s, p), c, p.rules) <= NodeCount(heavy, c, p.rules)
    {
      NoMoreNodes(heavy, MergedCells(p, heavy), p.rules, SaturatedKeys(s, p), c);
    }
    if p.maxNodes.Some? && p.maxNodes.value > 0 {
      GrowFewer(NextWanted(s, p), heavy, p.maxCells, p.rules, p.maxNodes.value);
    }
  }

  lemma {:induction false} ThinnedKeeps(walls: seq<Wall>, maxCells: nat, rules: Rules, stay: set<nat>, n: nat, w: Wall)
    requires maxCells > 0 && n <= |walls|
    ensures w in ThinnedUpTo(walls, maxCells, rules, stay, n)
            <==> w in walls[..n] && (TileCount(walls, w, maxCells, rules) >= 2 || w.key in stay)
  {
    hide TileCount;
    if n > 0 {
      ThinnedKeeps(walls, maxCells, rules, stay, n - 1, w);
      assert walls[..n] == walls[..n - 1] + [walls[n - 1]];
    }
  }

  /** Every wall planned by the first pass is planned by the repeated one. */
  lemma {:induction false} StillPlanned(s: State, p: Pass, w: Wall)
    requires ValidPass(p) && p.minCells >= 2 && w in WallsFor(s, p)
    ensures w in NextWalls(s, p) && w in NextWanted(s, p)
  {
    hide TileCount, VisibleCount, Select, MergedCells, ThinnedUpTo, KeptUpTo, Tiles, SaturatedKeys;
    var heavy := HeavyOf(s, p);
    var wide, narrow, fewer := MergedCells(p, heavy), MergedCells(p, NextWanted(s, p)), NextWanted(s, p);
    assert heavy[..|heavy|] == heavy && fewer[..|fewer|] == fewer;
    KeptIsKept(heavy, wide, p.rules, |heavy|, w);
    ThinnedKeeps(heavy, wide, p.rules, SaturatedKeys(s, p), |heavy|, w);
    WantedHaveTwo(s, p);
    MergesNoMore(s, p);
    MoreTiles(heavy, w, narrow, wide, p.rules);
    SameCount(s, p, w, narrow);
    KeptIsKept(fewer, narrow, p.rules, |fewer|, w);
  }

  lemma {:induction false} SameCount(s: State, p: Pass, w: Wall, cells: nat)
    requires ValidPass(p) && p.minCells >= 2 && cells > 0
    ensures TileCount(NextWanted(s, p), w, cells, p.rules) == TileCount(HeavyOf(s, p), w, cells, p.rules)
  {
    hide VisibleCount, Select, MergedCells, ThinnedUpTo, Tiles, SaturatedKeys;
    WantedHaveTwo(s, p);
    SameTilesAmongFewer(HeavyOf(s, p), MergedCells(p, HeavyOf(s, p)), p.rules, SaturatedKeys(s, p), w, cells);
  }

  lemma {:induction false} NextWallsAreWanted(s: State, p: Pass, w: Wall)
    requires ValidPass(p) && w in NextWalls(s, p)
    ensures w in NextWanted(s, p) && w in HeavyOf(s, p)
  {
    hide Select, MergedCells, ThinnedUpTo, KeptUpTo, SaturatedKeys, TileCount;
    KeptMember(NextWanted(s, p), MergedCells(p, NextWanted(s, p)), p.rules, |NextWanted(s, p)|, w);
    ThinnedMember(HeavyOf(s, p), MergedCells(p, HeavyOf(s, p)), p.rules, SaturatedKeys(s, p), |HeavyOf(s, p)|, w);
  }

  /** The outputs of both plans, in terms of the walls that the first pass wants. */
  lemma {:induction false} OutputsFromWanted(s: State, p: Pass, w: Wall)
    requires ValidPass(p) && p.minCells >= 2
    ensures OutputOf(WallsFor(s, p), w, ThisCells(s, p), p.rules)
            == OutputOf(HeavyOf(s, p), w, ThisCells(s, p), p.rules)
    ensures OutputOf(NextWalls(s, p), w, NextCells(s, p), p.rules)
            == OutputOf(HeavyOf(s, p), w, NextCells(s, p), p.rules)
  {
    hide VisibleCount, Select, MergedCells, ThinnedUpTo, KeptUpTo, SaturatedKeys, OutputOf, FinalCells;
    var heavy, fewer := HeavyOf(s, p), NextWanted(s, p);
    var cells, next := MergedCells(p, heavy), MergedCells(p, fewer);
    WantedHaveTwo(s, p);
    forall v | v in fewer
      ensures VisibleCount(v) >= 2
    {
      ThinnedMember(heavy, cells, p.rules, SaturatedKeys(s, p), |heavy|, v);
    }
    ThinnedToKept(heavy, cells, p.rules, |heavy|);
    ThinnedToKept(fewer, next, p.rules, |fewer|);
    SameTilesAmongFewer(heavy, cells, p.rules, {}, w, ThisCells(s, p));
    SameTilesAmongFewer(fewer, next, p.rules, {}, w, NextCells(s, p));
    SameTilesAmongFewer(heavy, cells, p.rules, SaturatedKeys(s, p), w, NextCells(s, p));
  }

  lemma {:induction false} KeysStayApart(s: State, p: Pass)
    requires ValidPass(p)
    ensures DistinctKeys(HeavyOf(s, p)) && DistinctKeys(WallsFor(s, p)) && DistinctKeys(NextWalls(s, p))
  {
    hide Select, MergedCells, TileCount;
    SelectedDistinct(s, p, |p.walls|);
    KeptDistinct(HeavyOf(s, p), MergedCells(p, HeavyOf(s, p)), p.rules, |HeavyOf(s, p)|);
    ThinnedDistinct(HeavyOf(s, p), MergedCells(p, HeavyOf(s, p)), p.rules, SaturatedKeys(s, p), |HeavyOf(s, p)|);
    KeptDistinct(NextWanted(s, p), MergedCells(p, NextWanted(s, p)), p.rules, |NextWanted(s, p)|);
  }

  lemma {:induction false} ThinnedDistinct(walls: seq<Wall>, cells: nat, rules: Rules, stay: set<nat>, n: nat)
    requires cells > 0 && n <= |walls| && DistinctKeys(walls)
    ensures forall w :: w in ThinnedUpTo(walls, cells, rules, stay, n) ==> w in walls[..n]
    ensures DistinctKeys(ThinnedUpTo(walls, cells, rules, stay, n))
  {
    hide TileCount;
    if n > 0 {
      ThinnedDistinct(walls, cells, rules, stay, n - 1);
      OneMoreKey(walls, ThinnedUpTo(walls, cells, rules, stay, n - 1), n);
      assert walls[..n] == walls[..n - 1] + [walls[n - 1]];
    }
  }

  lemma {:induction false} ThisOutput(s: State, p: Pass, w: Wall)
    requires ValidPass(p) && p.minCells >= 2 && w in WallsFor(s, p)
    ensures w.key in PlanFor(s, p).outputs
    ensures PlanFor(s, p).outputs[w.key] == OutputOf(HeavyOf(s, p), w, ThisCells(s, p), p.rules)
  {
    hide Select, MergedCells, FinalCells, WallsFor, OutputOf, AllNodes;
    KeysStayApart(s, p);
    OutputsFromWanted(s, p, w);
    var first := WallsFor(s, p);
    var i :| 0 <= i < |first| && first[i] == w;
    OutputsAt(first, ThisCells(s, p), p.rules, |first|, i);
  }

  lemma {:induction false} NextOutput(s: State, p: Pass, w: Wall)
    requires ValidPass(p) && p.minCells >= 2 && w in NextWalls(s, p)
    ensures w.key in NextPlan(s, p).outputs
    ensures NextPlan(s, p).outputs[w.key] == OutputOf(HeavyOf(s, p), w, NextCells(s, p), p.rules)
  {
    hide Select, MergedCells, FinalCells, NextWalls, OutputOf, AllNodes, NextCells;
    KeysStayApart(s, p);
    OutputsFromWanted(s, p, w);
    var next := NextWalls(s, p);
    var i :| 0 <= i < |next| && next[i] == w;
    OutputsAt(next, NextCells(s, p), p.rules, |next|, i);
  }

  /** Every output is that of a wall. */
  lemma {:induction false} OutputHasWall(walls: seq<Wall>, cells: nat, rules: Rules, v: nat) returns (w: Wall)
    requires cells > 0 && v in PlanOf(walls, cells, rules).outputs
    ensures w in walls && w.key == v
  {
    hide OutputOf, AllNodes;
    OutputKeys(walls, cells, rules, |walls|, v);
    var i :| 0 <= i < |walls| && walls[i].key == v;
    w := walls[i];
  }

  lemma {:induction false} SameTilesSameOutput(walls: seq<Wall>, w: Wall, m: nat, n: nat, rules: Rules)
    requires m > 0 && n > 0
    ensures OutputOf(walls, w, m, rules) == OutputOf(walls, w, n, rules)
            <==> Tiles(walls, w, m, rules) == Tiles(walls, w, n, rules)
  {
    hide Tiles;
  }

  /** No other wall gets a second tile, and every wall gets the same tiles with groups of the two sizes. */
  predicate SameTiling(s: State, p: Pass)
    requires ValidPass(p)
  {
    && (forall w :: w in NextWalls(s, p) ==> w in WallsFor(s, p))
    && (forall w :: w in WallsFor(s, p) ==>
          Tiles(HeavyOf(s, p), w, NextCells(s, p), p.rules) == Tiles(HeavyOf(s, p), w, ThisCells(s, p), p.rules))
  }

  lemma {:induction false} SameTilingSameOutputs(s: State, p: Pass)
    requires ValidPass(p) && p.minCells >= 2 && SameTiling(s, p)
    ensures NextPlan(s, p).outputs == PlanFor(s, p).outputs
  {
    hide Select, MergedCells, FinalCells, NextWalls, WallsFor, NextCells, ThisCells, OutputOf, PlanFor, NextPlan, Tiles;
    var a, b := NextPlan(s, p).outputs, PlanFor(s, p).outputs;
    forall v | v in a
      ensures v in b && a[v] == b[v]
    {
      var w := NextHasWall(s, p, v);
      NextOutput(s, p, w);
      ThisOutput(s, p, w);
      SameTilesSameOutput(HeavyOf(s, p), w, NextCells(s, p), ThisCells(s, p), p.rules);
    }
    forall v | v in b
      ensures v in a
    {
      var w := ThisHasWall(s, p, v);
      StillPlanned(s, p, w);
      NextOutput(s, p, w);
    }
  }

  lemma {:induction false} NextHasWall(s: State, p: Pass, v: nat) returns (w: Wall)
    requires ValidPass(p) && v in NextPlan(s, p).outputs
    ensures w in NextWalls(s, p) && w.key == v
  {
    hide NextWalls, NextCells, PlanOf;
    w := OutputHasWall(NextWalls(s, p), NextCells(s, p), p.rules, v);
  }

  lemma {:induction false} ThisHasWall(s: State, p: Pass, v: nat) returns (w: Wall)
    requires ValidPass(p) && v in PlanFor(s, p).outputs
    ensures w in WallsFor(s, p) && w.key == v
  {
    hide WallsFor, FinalCells, PlanOf, Select, MergedCells;
    w := OutputHasWall(WallsFor(s, p), ThisCells(s, p), p.rules, v);
  }

  lemma {:induction false} SameOutputsSameTiling(s: State, p: Pass)
    requires ValidPass(p) && p.minCells >= 2 && NextPlan(s, p).outputs == PlanFor(s, p).outputs
    ensures SameTiling(s, p)
  {
    hide Select, MergedCells, FinalCells, NextWalls, WallsFor, NextCells, ThisCells, OutputOf, PlanFor, NextPlan, Tiles;
    forall w | w in NextWalls(s, p)
      ensures w in WallsFor(s, p)
    {
      NextOutput(s, p, w);
      var u := ThisHasWall(s, p, w.key);
      StillPlanned(s, p, u);
      NextWallsAreWanted(s, p, u);
      NextWallsAreWanted(s, p, w);
      KeysStayApart(s, p);
      SameKeySameWall(HeavyOf(s, p), u, w);
    }
    forall w | w in WallsFor(s, p)
      ensures Tiles(HeavyOf(s, p), w, NextCells(s, p), p.rules) == Tiles(HeavyOf(s, p), w, ThisCells(s, p), p.rules)
    {
      StillPlanned(s, p, w);
      NextOutput(s, p, w);
      ThisOutput(s, p, w);
      SameTilesSameOutput(HeavyOf(s, p), w, NextCells(s, p), ThisCells(s, p), p.rules);
    }
  }

  lemma {:induction false} SameKeySameWall(walls: seq<Wall>, u: Wall, w: Wall)
    requires DistinctKeys(walls) && u in walls && w in walls && u.key == w.key
    ensures u == w
  {
  }

  /** The role of merging: the two plans give the same outputs exactly when no other wall gets a second tile, and
      every wall gets the same tiles with groups of the two sizes. */
  lemma {:induction false} SameOutputsExactly(s: State, p: Pass)
    requires ValidPass(p) && p.minCells >= 2
    ensures NextPlan(s, p).outputs == PlanFor(s, p).outputs <==> SameTiling(s, p)
  {
    hide SameTiling, NextPlan, PlanFor;
    if SameTiling(s, p) {
      SameTilingSameOutputs(s, p);
    } else if NextPlan(s, p).outputs == PlanFor(s, p).outputs {
      SameOutputsSameTiling(s, p);
    }
  }

  // ----- The role of what is remembered

  /** Nothing is remembered as pushed to a wall that only the repeated pass plans. */
  predicate Forgotten(s: State, p: Pass)
    requires ValidPass(p)
  {
    forall w :: w in NextWalls(s, p) && w !in WallsFor(s, p) ==> w.key !in Reconcile(s, p).state.pushed
  }

  lemma {:induction false} SkipsIsPushed(s: State, p: Pass, v: nat, config: AsmConfig)
    ensures Skips(s, p, v, config) ==> SameAsPushed(s, v, config)
  {
  }

  /** With distinct outputs, a configuration determines the tiles. */
  lemma {:induction false} SameConfigSameTiles(a: Output, c: Output, rows: map<NodeSig, Row>)
    requires AsmOf(a, Outlets(rows)) == AsmOf(c, Outlets(rows)) && ShmDistinct(rows)
    requires (forall t :: t in a.tiles ==> t.sig in rows) && (forall t :: t in c.tiles ==> t.sig in rows)
    ensures a == c
  {
    hide ShmDistinct;
    WindowsDetermine(a.tiles, c.tiles, rows);
  }

  lemma {:induction false} WindowsDetermine(a: seq<Tile>, c: seq<Tile>, rows: map<NodeSig, Row>)
    requires Windows(a, Outlets(rows)) == Windows(c, Outlets(rows)) && ShmDistinct(rows)
    requires (forall t :: t in a ==> t.sig in rows) && (forall t :: t in c ==> t.sig in rows)
    ensures a == c
  {
    if a != [] {
      WindowsAt(a, Outlets(rows), 0);
    }
    if c != [] {
      WindowsAt(c, Outlets(rows), 0);
    }
    if a != [] && c != [] {
      assert a[0] in a && c[0] in c;
      assert Windows(a, Outlets(rows))[1..] == Windows(a[1..], Outlets(rows));
      assert Windows(c, Outlets(rows))[1..] == Windows(c[1..], Outlets(rows));
      assert forall t :: t in a[1..] ==> t in a;
      assert forall t :: t in c[1..] ==> t in c;
      WindowsDetermine(a[1..], c[1..], rows);
      assert a == [a[0]] + a[1..] && c == [c[0]] + c[1..];
    }
  }

  lemma {:induction false} TilesRegistered(walls: seq<Wall>, cells: nat, rules: Rules, rows: map<NodeSig, Row>, v: nat)
    requires cells > 0 && DistinctKeys(walls) && PlanOf(walls, cells, rules).nodes.byKey.Keys <= rows.Keys
    requires v in PlanOf(walls, cells, rules).outputs
    ensures forall t :: t in PlanOf(walls, cells, rules).outputs[v].tiles ==> t.sig in rows
  {
    hide Tiles, AllNodes;
    var w := OutputHasWall(walls, cells, rules, v);
    var i :| 0 <= i < |walls| && walls[i] == w;
    OutputsAt(walls, cells, rules, |walls|, i);
    forall t | t in PlanOf(walls, cells, rules).outputs[v].tiles
      ensures t.sig in rows
    {
      assert ShownInWall(walls, cells, rules, i, t.sig);
      NodesAreShown(walls, cells, rules, t.sig);
    }
  }

  /** At rest after the first pass, every wall was last pushed the outputs of both plans, so they are the same. */
  lemma {:induction false} RestSamePlan(s: State, p: Pass, q: Pass, w: Wall)
    requires ValidPass(p) && ValidPass(q) && SamePass(p, q) && p.minCells >= 2 && Done(s, p)
    requires forall i :: 0 <= i < |p.walls| ==> !Torn(p, p.walls[i])
    requires AtRest(Reconcile(s, p).state, q) && ShmDistinct(Reconcile(s, p).state.rows) && w in NextWalls(s, p)
    ensures w.key in Reconcile(s, p).state.pushed
    ensures w in WallsFor(s, p) ==> w.key in PlanFor(s, p).outputs && w.key in NextPlan(s, p).outputs
                                    && NextPlan(s, p).outputs[w.key] == PlanFor(s, p).outputs[w.key]
  {
    hide Reconcile, Done, WallsStand, Torn, NextWalls, WallsFor, NextCells, FinalCells, PlanOf, AsmOf, NobodyRestored,
      Select,
      MergedCells,
      Skips, ShmDistinct, OutputOf;
    DoneStands(s, p);
    var t, v := Reconcile(s, p).state, w.key;
    NextIs(s, p, q);
    var next := NextWalls(s, p);
    var i :| 0 <= i < |next| && next[i] == w;
    SkipsIsPushed(t, q, v, AsmOf(NextPlan(s, p).outputs[v], Outlets(t.rows)));
    if w in WallsFor(s, p) {
      WallsForIs(s, p);
      KeysStayApart(s, p);
      var first := WallsFor(s, p);
      var j :| 0 <= j < |first| && first[j] == w;
      NothingDeferred(s, p, v);
      ConfigStands(s, p, j);
      PlannedWasPushed(s, p, j);
      RowsHold(s, p);
      TilesRegistered(first, ThisCells(s, p), p.rules, t.rows, v);
      TilesRegistered(next, NextCells(s, p), p.rules, t.rows, v);
      SameConfigSameTiles(NextPlan(s, p).outputs[v], PlanFor(s, p).outputs[v], t.rows);
    }
  }

  lemma {:induction false} RowsHold(s: State, p: Pass)
    requires ValidPass(p) && Done(s, p)
    ensures PlanFor(s, p).nodes.byKey.Keys <= Reconcile(s, p).state.rows.Keys
    ensures forall sig :: sig in Reconcile(s, p).state.rows && Reconcile(s, p).state.rows[sig].node == p.node ==>
              sig in PlanFor(s, p).nodes.byKey
  {
    hide Reconcile, PlanOf, Kept, MergedCells, FinalCells;
    CarryOutHeavy(s, p);
  }

  lemma {:induction false} RestSameOutputs(s: State, p: Pass, q: Pass)
    requires ValidPass(p) && ValidPass(q) && SamePass(p, q) && p.minCells >= 2 && Done(s, p) && Forgotten(s, p)
    requires forall i :: 0 <= i < |p.walls| ==> !Torn(p, p.walls[i])
    requires AtRest(Reconcile(s, p).state, q) && ShmDistinct(Reconcile(s, p).state.rows)
    ensures NextPlan(s, p).outputs == PlanFor(s, p).outputs
  {
    hide Reconcile, Done, Torn, NextWalls, WallsFor, NextPlan, PlanFor, AtRest, ShmDistinct;
    var a, b := NextPlan(s, p).outputs, PlanFor(s, p).outputs;
    forall v | v in a
      ensures v in b && a[v] == b[v]
    {
      var w := NextHasWall(s, p, v);
      RestSamePlan(s, p, q, w);
    }
    forall v | v in b
      ensures v in a
    {
      var w := ThisHasWall(s, p, v);
      StillPlanned(s, p, w);
      NextOutput(s, p, w);
    }
  }

  /** Conversely, with the same outputs there is nothing to do. */
  lemma {:induction false} SameOutputsRest(s: State, p: Pass, q: Pass)
    requires ValidPass(p) && ValidPass(q) && SamePass(p, q) && Done(s, p) && Confirmed(Reconcile(s, p), q)
    requires forall i :: 0 <= i < |p.walls| ==> !Torn(p, p.walls[i])
    requires NextPlan(s, p).outputs == PlanFor(s, p).outputs
    ensures AtRest(Reconcile(s, p).state, q)
  {
    hide Reconcile, Torn, PlanOf, Select, MergedCells, FinalCells, KeptUpTo, Confirmed, NextWalls, WallsFor,
      NextCells, Done, WallsStand,
      AllInPlace, NobodyRestored;
    DoneStands(s, p);
    var t := Reconcile(s, p).state;
    NextIs(s, p, q);
    KeysStayApart(s, p);
    RowsHold(s, p);
    forall sig
      ensures sig in NextPlan(s, p).nodes.byKey <==> sig in PlanFor(s, p).nodes.byKey
    {
      if sig in NextPlan(s, p).nodes.byKey {
        SameOutputsSameNodes(NextWalls(s, p), NextCells(s, p), WallsFor(s, p), ThisCells(s, p), p.rules, sig);
      }
      if sig in PlanFor(s, p).nodes.byKey {
        SameOutputsSameNodes(WallsFor(s, p), ThisCells(s, p), NextWalls(s, p), NextCells(s, p), p.rules, sig);
      }
    }
    NextInPlace(s, p, q);
    NoneRestoredNext(s, p, q);
  }

  lemma {:induction false} NextInPlace(s: State, p: Pass, q: Pass)
    requires ValidPass(p) && ValidPass(q) && SamePass(p, q) && Done(s, p) && Confirmed(Reconcile(s, p), q)
    requires NextPlan(s, p).outputs == PlanFor(s, p).outputs
    ensures AllInPlace(Reconcile(s, p).state, q, NextWalls(s, p), NextPlan(s, p))
  {
    hide Reconcile, PlanOf, Select, MergedCells, FinalCells, KeptUpTo, Confirmed, NextWalls, WallsFor, NextCells,
      Done, Skips, AsmOf;
    WallsForIs(s, p);
    StayInPlace(s, p, q);
    var next, first := NextWalls(s, p), WallsFor(s, p);
    forall i | 0 <= i < |next|
      ensures next[i].key in NextPlan(s, p).outputs
      ensures Skips(Reconcile(s, p).state, q, next[i].key,
                    AsmOf(NextPlan(s, p).outputs[next[i].key], Outlets(Reconcile(s, p).state.rows)))
    {
      NextHas(s, p, next[i]);
      var u := ThisHasWall(s, p, next[i].key);
      var j :| 0 <= j < |first| && first[j] == u;
    }
  }

  lemma {:induction false} NextHas(s: State, p: Pass, w: Wall)
    requires ValidPass(p) && w in NextWalls(s, p)
    ensures w.key in NextPlan(s, p).outputs
  {
    hide NextWalls, NextCells, OutputOf, AllNodes;
    var next := NextWalls(s, p);
    OutputKeys(next, NextCells(s, p), p.rules, |next|, w.key);
    var i :| 0 <= i < |next| && next[i] == w;
  }

  lemma {:induction false} ThisHas(s: State, p: Pass, w: Wall)
    requires ValidPass(p) && w in WallsFor(s, p)
    ensures w.key in PlanFor(s, p).outputs
  {
    hide WallsFor, FinalCells, MergedCells, Select, OutputOf, AllNodes;
    var first := WallsFor(s, p);
    OutputKeys(first, ThisCells(s, p), p.rules, |first|, w.key);
    var i :| 0 <= i < |first| && first[i] == w;
  }

  /** Assemblers after a completed pass are walls that it planned. */
  lemma {:induction false} AssemblerWasPlanned(s: State, p: Pass, i: nat)
    requires ValidPass(p) && i < |p.walls| && p.walls[i].key in Reconcile(s, p).state.asm
    ensures p.walls[i] in WallsFor(s, p)
  {
    hide Reconcile, WallsFor, FirstTileCount, VisibleCount, Saturated;
    CarryOutHeavy(s, p);
    PlannedWalls(s, p, i);
    WallsForIs(s, p);
    if p.walls[i].key in s.asm {
      LeavesExactlyWhen(s, p, i);
    } else {
      EntersExactlyWhen(s, p, i);
    }
  }

  lemma {:induction false} WallsForIs(s: State, p: Pass)
    requires ValidPass(p)
    ensures Reconcile(s, p).heavy == WallsFor(s, p) && Reconcile(s, p).plan == PlanFor(s, p)
  {
    hide Reconcile, Kept, MergedCells, FinalCells, PlanOf, Select;
    CarryOutHeavy(s, p);
  }

  lemma {:induction false} NextHaveTwo(s: State, p: Pass, u: Wall)
    requires ValidPass(p) && u in NextWalls(s, p)
    ensures u in NextWanted(s, p) && TileCount(NextWanted(s, p), u, MergedCells(p, NextWanted(s, p)), p.rules) >= 2
  {
    hide MergedCells, TileCount, Thinned, KeptUpTo;
    KeptMember(NextWanted(s, p), MergedCells(p, NextWanted(s, p)), p.rules, |NextWanted(s, p)|, u);
  }

  lemma {:induction false} NoneRestoredNext(s: State, p: Pass, q: Pass)
    requires ValidPass(p) && ValidPass(q) && SamePass(p, q) && WallsStand(s, p)
    requires forall i :: 0 <= i < |p.walls| ==> !Torn(p, p.walls[i])
    requires NextPlan(s, p).outputs == PlanFor(s, p).outputs
    ensures NobodyRestored(Reconcile(s, p).state, q)
  {
    hide Reconcile, NextPlan, PlanFor, NextWanted, Select, MergedCells, NextWalls, WallsFor, WallsStand, Wanted,
      TileCount,
      Torn;
    var t := Reconcile(s, p).state;
    NextIs(s, p, q);
    SelectedDistinct(t, q, |q.walls|);
    forall i | 0 <= i < |q.walls| && q.walls[i].key in t.asm
      ensures Wanted(t.asm, q, q.walls[i]) && FirstTileCount(t, q, q.walls[i]) >= 2
    {
      assert !Torn(p, p.walls[i]);
      WantedAgain(s, p, q, i);
      SelectedWall(t, q, |q.walls|, i);
      AssemblerWasPlanned(s, p, i);
      ThisHas(s, p, q.walls[i]);
      var u := NextHasWall(s, p, q.walls[i].key);
      NextHaveTwo(s, p, u);
      SameKeySameWall(HeavyOf(t, q), u, q.walls[i]);
      SameMerging(p, q, NextWanted(s, p));
    }
  }

  /** Exactly when repeating settles. When a pass has done what it had to do, outputs are distinct, nothing stale is
      remembered and no wall is told both to leave and to enter, the same pass again, with walls that report what
      was planned, changes nothing if and only if the walls it wants get the same tiles: dropping an unsaturated
      one-tile wall may leave room for smaller groups, or for groups where none were merged. */
  lemma {:induction false} RepeatsExactly(s: State, p: Pass, q: Pass)
    requires ValidPass(p) && ValidPass(q) && SamePass(p, q) && p.minCells >= 2
    requires Done(s, p) && Confirmed(Reconcile(s, p), q) && Forgotten(s, p) && ShmDistinct(Reconcile(s, p).state.rows)
    requires forall i :: 0 <= i < |p.walls| ==> !Torn(p, p.walls[i])
    ensures var t := Reconcile(s, p).state;
            var r := Reconcile(t, q);
            !r.stale && r.state == t && (forall v :: v in r.outcomes ==> r.outcomes[v] != Switched)
            <==> SameTiling(s, p)
  {
    hide Reconcile, Done, Torn, SameTiling, NextPlan, PlanFor, AtRest, ShmDistinct, Confirmed, Forgotten;
    FixpointExactly(Reconcile(s, p).state, q);
    SameOutputsExactly(s, p);
    if AtRest(Reconcile(s, p).state, q) {
      RestSameOutputs(s, p, q);
    } else if SameTiling(s, p) {
      SameOutputsRest(s, p, q);
    }
  }

  /** In particular the number of nodes must be the same. */
  lemma {:induction false} SameTilingSameCount(s: State, p: Pass)
    requires ValidPass(p) && p.minCells >= 2 && SameTiling(s, p)
    ensures |NextPlan(s, p).nodes.byKey| == |PlanFor(s, p).nodes.byKey|
  {
    hide SameTiling, NextWalls, WallsFor, NextCells, FinalCells, PlanOf, MergedCells, Select;
    SameOutputsExactly(s, p);
    KeysStayApart(s, p);
    forall sig
      ensures sig in NextPlan(s, p).nodes.byKey.Keys <==> sig in PlanFor(s, p).nodes.byKey.Keys
    {
      if sig in NextPlan(s, p).nodes.byKey {
        SameOutputsSameNodes(NextWalls(s, p), NextCells(s, p), WallsFor(s, p), ThisCells(s, p), p.rules, sig);
      }
      if sig in PlanFor(s, p).nodes.byKey {
        SameOutputsSameNodes(WallsFor(s, p), ThisCells(s, p), NextWalls(s, p), NextCells(s, p), p.rules, sig);
      }
    }
    assert NextPlan(s, p).nodes.byKey.Keys == PlanFor(s, p).nodes.byKey.Keys;
  }

  /** Idempotence. When a pass has done what it had to do, no wall is told both to leave and to enter the fabric,
      and merging has nothing to undo, the same pass again, with walls that report what was planned, completes with
      the same plan, creates, rebinds and destroys nothing, sends no command, and leaves the registry and every
      dictionary as they are. Saturated walls that get a single tile are included: they are selected and dropped
      again. */
  lemma {:induction false} SettledStays(s: State, p: Pass, q: Pass)
    requires ValidPass(p) && ValidPass(q) && SamePass(p, q) && p.minCells >= 2
    requires Done(s, p) && NoMergeToUndo(s, p) && Confirmed(Reconcile(s, p), q)
    requires forall i :: 0 <= i < |p.walls| ==> !Torn(p, p.walls[i])
    ensures var r1 := Reconcile(s, p);
            var r2 := Reconcile(r1.state, q);
            && r2.state == r1.state && !r2.stale && r2.plan == r1.plan && r2.heavy == r1.heavy
            && r2.bench.created == [] && r2.bench.rebound == map[] && r2.fallen == {}
            && forall v :: v in r2.outcomes ==> r2.outcomes[v] == Skipped
  {
    hide Reconcile, Torn, NoMergeToUndo, Confirmed, Done, WallsStand, NextPlan, PlanOf, Kept, MergedCells, FinalCells,
      Select,
      AtRest;
    DoneStands(s, p);
    var t := Reconcile(s, p).state;
    PlannedAgain(s, p, q);
    NextIs(s, p, q);
    WallsForIs(s, p);
    WallsForIs(t, q);
    SameOutputsRest(s, p, q);
    RestStays(t, q);
  }

  /** A wall told both to leave and to enter is restored, then wanted again: repeating the pass does not
      settle. */
  lemma {:induction false} TornWallWantedAgain(s: State, p: Pass, q: Pass, i: nat)
    requires ValidPass(p) && SamePass(p, q) && i < |p.walls| && p.walls[i].key in s.asm && Torn(p, p.walls[i])
    ensures var t := Reconcile(s, p).state;
            p.walls[i].key !in t.asm && p.walls[i] in HeavyOf(t, q)
  {
    hide Reconcile, PlanOf, TileCount, VisibleCount, Select, KeptUpTo, MergedCells, FirstTileCount;
    LeavesExactlyWhen(s, p, i);
    SelectedWall(Reconcile(s, p).state, q, |q.walls|, i);
  }
}
