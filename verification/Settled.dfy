/** When a pass changes nothing (app/compositor_fabric.py:840-1144). */
module Settled {
  import opened Collections
  import opened Signatures
  import opened Plan
  import opened Elimination
  import opened Fabric
  import opened Lines
  import opened Orchestrator
  import opened Rebinding
  import opened Wiring
  import opened Assemblers
  import opened Waiting

  // ----- What a pass wants and plans, from the state before it

  function WallsFor(s: State, p: Pass): seq<Wall>
    requires ValidPass(p)
  {
    Kept(HeavyOf(s, p), MergedCells(p, HeavyOf(s, p)), p.rules)
  }

  function PlanFor(s: State, p: Pass): FabricPlan
    requires ValidPass(p)
  {
    PlanOf(WallsFor(s, p), FinalCells(p, HeavyOf(s, p), MergedCells(p, HeavyOf(s, p))), p.rules)
  }

  predicate IsRestored(s: State, p: Pass, wall: Wall) {
    wall.key in s.asm && !Wanted(s.asm, p, wall)
  }

  lemma {:induction false} SelectNext(s: State, p: Pass, n: nat)
    requires 0 < n <= |p.walls| && DistinctKeys(p.walls)
    ensures var wall := p.walls[n - 1];
            && Select(s, p, n).heavy == Select(s, p, n - 1).heavy + (if Wanted(s.asm, p, wall) then [wall] else [])
            && (IsRestored(s, p, wall) || Select(s, p, n).state == Select(s, p, n - 1).state)
            && (IsRestored(s, p, wall) || Select(s, p, n).restored == Select(s, p, n - 1).restored)
  {
    SelectedWall(s, p, n - 1, n - 1);
    SelectStep(s, p, n);
    hide Select, VisibleCount, Saturated;
  }

  /** Planned walls are those wanted that get at least two tiles, and each has an outcome. */
  lemma {:induction false} PlannedWalls(s: State, p: Pass, i: nat)
    requires ValidPass(p) && i < |p.walls|
    ensures var wall, r := p.walls[i], Reconcile(s, p);
            && (wall in r.heavy <==> Wanted(s.asm, p, wall) && FirstTileCount(s, p, wall) >= 2)
            && (wall.key in r.outcomes ==> wall in r.heavy)
  {
    hide CarryOut, PlanOf, TileCount, VisibleCount, Saturated, Select, DropSolos, KeptUpTo, MergedCells, SoloKeys,
      Wanted;
    var wall := p.walls[i];
    var sel := Select(s, p, |p.walls|);
    var cells := MergedCells(p, sel.heavy);
    var walls := Kept(sel.heavy, cells, p.rules);
    SelectedWall(s, p, |p.walls|, i);
    SelectedDistinct(s, p, |p.walls|);
    KeptDistinct(sel.heavy, cells, p.rules, |sel.heavy|);
    KeptIsKept(sel.heavy, cells, p.rules, |sel.heavy|, wall);
    CarryOutHeavy(s, p);
    CarryOutLines(DropSolos(sel.state, sel.heavy, cells, p.rules, |sel.heavy|), p, walls,
                  SoloKeys(sel.state, sel.heavy, cells, p.rules),
                  PlanOf(walls, FinalCells(p, sel.heavy, cells), p.rules), wall.key);
    KeyIdentifies(s, p, i);
    if wall.key in Reconcile(s, p).outcomes {
      var j :| 0 <= j < |walls| && walls[j].key == wall.key;
      assert walls[j] in walls;
      KeptMember(sel.heavy, cells, p.rules, |sel.heavy|, walls[j]);
    }
  }

  /** No wall with a single tile is an assembler any more. */
  lemma {:induction false} DropsNobody(s: State, walls: seq<Wall>, cells: nat, rules: Rules, n: nat)
    requires cells > 0 && n <= |walls|
    requires forall w :: w in walls && TileCount(walls, w, cells, rules) < 2 ==> w.key !in s.asm
    ensures DropSolos(s, walls, cells, rules, n) == s && SoloKeysUpTo(s, walls, cells, rules, n) == []
  {
    hide TileCount;
    if n > 0 {
      DropsNobody(s, walls, cells, rules, n - 1);
      assert walls[n - 1] in walls;
    }
  }

  /** When every planned node is registered, step 1 only reads the registry. */
  lemma {:induction false} CreatesNothing(s: State, p: Pass, walls: seq<Wall>, plan: FabricPlan, n: nat)
    requires n <= |plan.nodes.order| && plan.nodes.byKey.Keys <= s.rows.Keys
    ensures var b := MaterialiseAll(StartBench(s, p, plan), p, walls, plan, n);
            && b.rows == s.rows && !b.stale && b.created == [] && b.rebound == map[]
            && (forall k :: 0 <= k < n && plan.nodes.order[k] in plan.nodes.byKey ==> plan.nodes.order[k] in b.shm)
            && (forall sig :: sig in b.shm ==> sig in s.rows && b.shm[sig] == s.rows[sig].shm)
  {
    hide Places, NeededSlot, Create, Rebind, FreedSlots;
    if n > 0 {
      CreatesNothing(s, p, walls, plan, n - 1);
    }
  }

  /** Then an assembler is given the outputs of the registered rows. */
  lemma {:induction false} SameConfig(s: State, p: Pass, walls: seq<Wall>, cells: nat, i: nat)
    requires cells > 0 && i < |walls| && DistinctKeys(walls)
    requires PlanOf(walls, cells, p.rules).nodes.byKey.Keys <= s.rows.Keys
    ensures var plan := PlanOf(walls, cells, p.rules);
            && walls[i].key in plan.outputs
            && AsmOf(plan.outputs[walls[i].key], BenchOf(s, p, walls, plan).shm)
               == AsmOf(plan.outputs[walls[i].key], Outlets(s.rows))
  {
    hide Tiles, AllNodes, MaterialiseAll, StartBench, NodeOk;
    var plan := PlanOf(walls, cells, p.rules);
    var tiles, shm := Tiles(walls, walls[i], cells, p.rules), BenchOf(s, p, walls, plan).shm;
    OutputsAt(walls, cells, p.rules, |walls|, i);
    CreatesNothing(s, p, walls, plan, |plan.nodes.order|);
    AllNodesOk(walls, cells, p.rules, |walls|);
    forall k | 0 <= k < |tiles|
      ensures tiles[k].sig in shm && tiles[k].sig in s.rows && shm[tiles[k].sig] == s.rows[tiles[k].sig].shm
    {
      TilesHaveNodes(walls, cells, p.rules, i, tiles[k]);
      assert tiles[k].sig in plan.nodes.order;
    }
    SameWindows(tiles, tiles, shm, Outlets(s.rows));
  }

  /** One more wall; nothing is forgotten about those before it. */
  lemma {:induction false} SwitchNext(b: Board, p: Pass, walls: seq<Wall>, plan: FabricPlan, shm: map<NodeSig, Shm>,
                                      refOf: map<Shm, Ref>, n: nat)
    requires 0 < n <= |walls| && !SwitchAll(b, p, walls, plan, shm, refOf, n).stale
    ensures var c, v := SwitchAll(b, p, walls, plan, shm, refOf, n - 1), walls[n - 1].key;
            && !c.stale
            && (if v !in plan.outputs then SwitchAll(b, p, walls, plan, shm, refOf, n) == c else
                var config := AsmOf(plan.outputs[v], shm);
                var o := OutcomeOf(c.state, p, v, config, refOf);
                && o != Abandoned
                && SwitchAll(b, p, walls, plan, shm, refOf, n)
                   == Board(Apply(c.state, p, v, config, Silent(p, v, config, refOf), o), c.outcomes[v := o], false))
  {
    hide AsmOf, Silent, OutcomeOf, Apply;
  }

  /** Every wall would be left alone with the outputs of the registered rows. */
  predicate AllInPlace(s: State, p: Pass, walls: seq<Wall>, plan: FabricPlan) {
    forall i :: 0 <= i < |walls| ==>
      walls[i].key in plan.outputs && Skips(s, p, walls[i].key, AsmOf(plan.outputs[walls[i].key], Outlets(s.rows)))
  }

  lemma {:induction false} SwitchesNobody(s: State, p: Pass, walls: seq<Wall>, cells: nat, n: nat)
    requires cells > 0 && n <= |walls| && DistinctKeys(walls)
    requires PlanOf(walls, cells, p.rules).nodes.byKey.Keys <= s.rows.Keys
    requires AllInPlace(s, p, walls, PlanOf(walls, cells, p.rules))
    ensures var plan := PlanOf(walls, cells, p.rules);
            var b := BenchOf(s, p, walls, plan);
            var c := SwitchAll(Board(s, map[], false), p, walls, plan, b.shm, b.refOf, n);
            c.state == s && !c.stale && forall v :: v in c.outcomes ==> c.outcomes[v] == Skipped
  {
    hide Skips, AsmOf, PlanOf, BenchOf, Silent;
    if n > 0 {
      SwitchesNobody(s, p, walls, cells, n - 1);
      SameConfig(s, p, walls, cells, n - 1);
    }
  }

  lemma {:induction false} TearsNothing(s: State, p: Pass, want: set<NodeSig>, consulted: seq<nat>)
    requires forall sig :: sig in s.rows && s.rows[sig].node == p.node ==> sig in want
    ensures Teardown(s, p, want, consulted) == s && FallenIn(s, p, want, consulted) == {}
  {
    hide Held;
    assert CondemnedAmong(s, p, want, consulted, s.rows.Keys) == {};
    assert PostponedAmong(s, p, want, consulted, s.rows.Keys) == {};
    assert ContainersOf(s.rows, {}) == {};
    assert s.rows - {} == s.rows && s.tear - {} == s.tear && s.cmd - {} == s.cmd;
  }

  /** A pass that has nothing to create, to switch or to tear down leaves the state as it is. */
  lemma {:induction false} NothingToCarryOut(s: State, p: Pass, walls: seq<Wall>, cells: nat)
    requires cells > 0 && DistinctKeys(walls)
    requires var plan := PlanOf(walls, cells, p.rules);
             && plan.nodes.byKey.Keys <= s.rows.Keys
             && (forall sig :: sig in s.rows && s.rows[sig].node == p.node ==> sig in plan.nodes.byKey)
             && AllInPlace(s, p, walls, plan)
    ensures var r := CarryOut(s, p, walls, [], PlanOf(walls, cells, p.rules));
            && r.state == s && !r.stale && r.bench.created == [] && r.bench.rebound == map[] && r.fallen == {}
            && forall v :: v in r.outcomes ==> r.outcomes[v] == Skipped
  {
    hide TileCount, PlanOf, MaterialiseAll, StartBench, SwitchAll, Teardown, FallenIn, Keys, AllInPlace;
    var plan := PlanOf(walls, cells, p.rules);
    CreatesNothing(s, p, walls, plan, |plan.nodes.order|);
    SwitchesNobody(s, p, walls, cells, |walls|);
    assert s.(rows := s.rows) == s;
    TearsNothing(s, p, plan.nodes.byKey.Keys, Keys(walls) + []);
  }

  // ----- Passes that nothing makes out of date

  lemma {:induction false} SwitchesAll(b: Board, p: Pass, walls: seq<Wall>, plan: FabricPlan, shm: map<NodeSig, Shm>,
                                       refOf: map<Shm, Ref>, n: nat)
    requires n <= |walls| && !b.stale && p.staleSwitch == {}
    ensures !SwitchAll(b, p, walls, plan, shm, refOf, n).stale
  {
    hide AsmOf, Silent, Apply, Skips;
    if n > 0 {
      SwitchesAll(b, p, walls, plan, shm, refOf, n - 1);
    }
  }

  lemma {:induction false} Completes(s: State, p: Pass)
    requires ValidPass(p) && p.staleCreate == {} && p.staleSwitch == {}
    ensures !Reconcile(s, p).stale
  {
    hide Reconcile, SwitchAll, MaterialiseAll, StartBench, Teardown, FallenIn, Keys, Decided, SolosOf, AllNodes, Lacks;
    PassShape(s, p);
    CarryOutHeavy(s, p);
    var r, t := Reconcile(s, p), Decided(s, p);
    NodesListedOnce(r.heavy, FinalCells(p, HeavyOf(s, p), MergedCells(p, HeavyOf(s, p))), p.rules, |r.heavy|);
    CreatedExactly(t, p, r.heavy, r.plan);
    SwitchesAll(Board(t.(rows := r.bench.rows), map[], false), p, r.heavy, r.plan, r.bench.shm, r.bench.refOf,
                |r.heavy|);
  }

  // ----- The fixpoints of a pass

  /** No assembler is restored. */
  predicate NobodyRestored(s: State, p: Pass)
    requires ValidPass(p)
  {
    forall i :: 0 <= i < |p.walls| && p.walls[i].key in s.asm ==>
      Wanted(s.asm, p, p.walls[i]) && FirstTileCount(s, p, p.walls[i]) >= 2
  }

  /** There is nothing to do: nobody is restored, every planned node is registered, every row of the machine is
      planned, and every planned wall would be left alone. */
  predicate AtRest(s: State, p: Pass)
    requires ValidPass(p)
  {
    && NobodyRestored(s, p)
    && PlanFor(s, p).nodes.byKey.Keys <= s.rows.Keys
    && (forall sig :: sig in s.rows && s.rows[sig].node == p.node ==> sig in PlanFor(s, p).nodes.byKey)
    && AllInPlace(s, p, WallsFor(s, p), PlanFor(s, p))
  }

  lemma {:induction false} SelectsTheSame(s: State, p: Pass, n: nat)
    requires ValidPass(p) && n <= |p.walls| && NobodyRestored(s, p)
    ensures Select(s, p, n).state == s
  {
    if n == 0 {
      SelectNone(s, p);
    } else {
      hide Select, Wanted, FirstTileCount;
      SelectsTheSame(s, p, n - 1);
      SelectNext(s, p, n);
    }
  }

  lemma {:induction false} NobodyDropped(s: State, p: Pass)
    requires ValidPass(p) && NobodyRestored(s, p)
    ensures Decided(s, p) == s && SolosOf(s, p) == []
  {
    hide Select, Wanted, TileCount, MergedCells, SoloKeysUpTo, DropSolos;
    SelectsTheSame(s, p, |p.walls|);
    SelectedDistinct(s, p, |p.walls|);
    var heavy := HeavyOf(s, p);
    forall w | w in heavy && TileCount(heavy, w, MergedCells(p, heavy), p.rules) < 2
      ensures w.key !in s.asm
    {
      assert w in p.walls[..|p.walls|];
      var i :| 0 <= i < |p.walls| && p.walls[i] == w;
    }
    DropsNobody(s, heavy, MergedCells(p, heavy), p.rules, |heavy|);
  }

  lemma {:induction false} RestStays(s: State, p: Pass)
    requires ValidPass(p) && AtRest(s, p)
    ensures var r := Reconcile(s, p);
            && r.state == s && !r.stale && r.bench.created == [] && r.bench.rebound == map[] && r.fallen == {}
            && forall v :: v in r.outcomes ==> r.outcomes[v] == Skipped
  {
    hide Reconcile, PlanOf, Select, Kept, MergedCells, AllInPlace, CarryOut, NobodyRestored, Decided, SolosOf;
    NobodyDropped(s, p);
    PassShape(s, p);
    CarryOutHeavy(s, p);
    NothingToCarryOut(s, p, WallsFor(s, p), FinalCells(p, HeavyOf(s, p), MergedCells(p, HeavyOf(s, p))));
  }

  // ----- Only then

  /** When every outcome is to leave a wall alone, the state does not change, and every planned wall would be left
      alone in that state. */
  lemma {:induction false} AllSkipped(b: Board, p: Pass, walls: seq<Wall>, plan: FabricPlan, shm: map<NodeSig, Shm>,
                                      refOf: map<Shm, Ref>, n: nat, i: nat)
    requires n <= |walls| && DistinctKeys(walls) && b.outcomes == map[]
    requires var c := SwitchAll(b, p, walls, plan, shm, refOf, n);
             !c.stale && forall v :: v in c.outcomes ==> c.outcomes[v] == Skipped
    ensures SwitchAll(b, p, walls, plan, shm, refOf, n).state == b.state
    ensures i < n && walls[i].key in plan.outputs ==>
              Skips(b.state, p, walls[i].key, AsmOf(plan.outputs[walls[i].key], shm))
  {
    hide AsmOf, Silent, Skips;
    if n > 0 {
      var c, last := SwitchAll(b, p, walls, plan, shm, refOf, n - 1), walls[n - 1].key;
      SwitchedWalls(b, p, walls, plan, shm, refOf, n - 1, last);
      SwitchNext(b, p, walls, plan, shm, refOf, n);
      var after := SwitchAll(b, p, walls, plan, shm, refOf, n).outcomes;
      assert forall j :: 0 <= j < n - 1 ==> walls[j].key != last;
      assert forall u :: u in c.outcomes ==> u != last && u in after && after[u] == c.outcomes[u];
      AllSkipped(b, p, walls, plan, shm, refOf, n - 1, if i < n - 1 then i else 0);
      if last in plan.outputs {
        assert last in after && after[last] == Skipped;
        hide SwitchAll;
        SkippedSkips(c.state, p, last, AsmOf(plan.outputs[last], shm), refOf);
      }
    }
  }

  lemma {:induction false} SkippedSkips(s: State, p: Pass, v: nat, config: AsmConfig, refOf: map<Shm, Ref>)
    ensures OutcomeOf(s, p, v, config, refOf) == Skipped ==> Skips(s, p, v, config)
    ensures Apply(s, p, v, config, Silent(p, v, config, refOf), Skipped) == s
  {
  }

  /** A pass that leaves the state as it is, and sends no configuration, leaves every wall alone. */
  lemma {:induction false} OnlySkips(s: State, p: Pass)
    requires ValidPass(p) && !Reconcile(s, p).stale && Reconcile(s, p).state == s
    requires forall v :: v in Reconcile(s, p).outcomes ==> Reconcile(s, p).outcomes[v] != Switched
    ensures forall v :: v in Reconcile(s, p).outcomes ==> Reconcile(s, p).outcomes[v] == Skipped
  {
    hide Reconcile, ValidPass, BoardOf, SwitchAll;
    forall v | v in Reconcile(s, p).outcomes
      ensures Reconcile(s, p).outcomes[v] == Skipped
    {
      PassCounts(s, p, v);
      NotAbandoned(s, p, v);
    }
  }

  lemma {:induction false} NotAbandoned(s: State, p: Pass, v: nat)
    requires ValidPass(p) && !Reconcile(s, p).stale && v in Reconcile(s, p).outcomes
    ensures Reconcile(s, p).outcomes[v] != Abandoned
  {
    hide Reconcile, Decided, SwitchAll;
    OutcomesOfBoard(s, p);
    var r := Reconcile(s, p);
    PassShape(s, p);
    NoneAbandoned(Board(Decided(s, p).(rows := r.bench.rows), map[], false), p, r.heavy, r.plan, r.bench.shm,
                  r.bench.refOf, |r.heavy|, v);
  }

  lemma {:induction false} NoneAbandoned(b: Board, p: Pass, walls: seq<Wall>, plan: FabricPlan, shm: map<NodeSig, Shm>,
                                         refOf: map<Shm, Ref>, n: nat, v: nat)
    requires n <= |walls| && b.outcomes == map[] && !SwitchAll(b, p, walls, plan, shm, refOf, n).stale
    requires v in SwitchAll(b, p, walls, plan, shm, refOf, n).outcomes
    ensures SwitchAll(b, p, walls, plan, shm, refOf, n).outcomes[v] != Abandoned
  {
    hide AsmOf, Silent, OutcomeOf, Apply;
    if n > 0 {
      SwitchNext(b, p, walls, plan, shm, refOf, n);
      if v in SwitchAll(b, p, walls, plan, shm, refOf, n - 1).outcomes {
        NoneAbandoned(b, p, walls, plan, shm, refOf, n - 1, v);
      }
    }
  }

  /** Then nothing fell in step 3: a condemned row would be missing afterwards. */
  lemma {:induction false} OnlyThenNothingFell(s: State, p: Pass)
    requires ValidPass(p) && !Reconcile(s, p).stale && Reconcile(s, p).state.rows == s.rows
    ensures Reconcile(s, p).fallen == {}
  {
    hide Reconcile, MayBeRead, Count, Decided, ValidPass;
    FallsExactlyWhen(s, p);
    var r := Reconcile(s, p);
    if r.fallen != {} {
      var sig :| sig in r.bench.rows && RunsIn(r.bench.rows[sig], p.known) && Condemns(s, p, r, sig);
      DestroyedExactlyWhen(s, p, sig);
      BenchRowIsOldOrPlanned(s, p, sig);
    }
  }

  lemma {:induction false} BenchRowIsOldOrPlanned(s: State, p: Pass, sig: NodeSig)
    requires ValidPass(p) && sig in Reconcile(s, p).bench.rows
    ensures sig in s.rows || sig in Reconcile(s, p).plan.nodes.byKey
  {
    hide Reconcile, BenchOf, Decided, SolosOf;
    PassShape(s, p);
    OtherRowsUntouched(Decided(s, p), p, Reconcile(s, p).heavy, Reconcile(s, p).plan, sig);
  }

  /** And every row of the machine is planned: an orphan that waits is counted. */
  lemma {:induction false} OnlyThenPlanned(s: State, p: Pass, sig: NodeSig)
    requires ValidPass(p) && !Reconcile(s, p).stale && Reconcile(s, p).state == s
    requires sig in s.rows && s.rows[sig].node == p.node
    ensures sig in Reconcile(s, p).plan.nodes.byKey
  {
    hide Reconcile, MayBeRead, ValidPass;
    PassTears(s, p, sig);
  }

  lemma {:induction false} PlannedInBench(s: State, p: Pass, sig: NodeSig)
    requires ValidPass(p) && !Reconcile(s, p).stale && sig in Reconcile(s, p).plan.nodes.byKey
    ensures sig in Reconcile(s, p).bench.rows && sig in Reconcile(s, p).bench.shm
    ensures Reconcile(s, p).bench.shm[sig] == Reconcile(s, p).bench.rows[sig].shm
  {
    hide Reconcile, MaterialiseAll, StartBench, Safe, SameSlot, Decided, SolosOf, AllNodes;
    var r := Reconcile(s, p);
    PassShape(s, p);
    CarryOutHeavy(s, p);
    BenchNotStale(Decided(s, p), p, r.heavy, SolosOf(s, p), r.plan);
    AllMaterialised(Decided(s, p), p, r.heavy, r.plan, |r.plan.nodes.order|);
    NodesListedOnce(r.heavy, FinalCells(p, HeavyOf(s, p), MergedCells(p, HeavyOf(s, p))), p.rules, |r.heavy|);
  }

  lemma {:induction false} OnlyThenRegistered(s: State, p: Pass, sig: NodeSig)
    requires ValidPass(p) && !Reconcile(s, p).stale && Reconcile(s, p).state == s
    requires sig in Reconcile(s, p).plan.nodes.byKey
    ensures sig in s.rows
  {
    hide Reconcile, MayBeRead, ValidPass, Count;
    OnlyThenNothingFell(s, p);
    PlannedInBench(s, p, sig);
    PassTears(s, p, sig);
  }

  lemma {:induction false} OnlyThenNobodyRestored(s: State, p: Pass)
    requires ValidPass(p) && !Reconcile(s, p).stale && Reconcile(s, p).state == s
    ensures NobodyRestored(s, p)
  {
    hide Reconcile, Wanted, FirstTileCount, VisibleCount;
    forall i | 0 <= i < |p.walls| && p.walls[i].key in s.asm
      ensures Wanted(s.asm, p, p.walls[i]) && FirstTileCount(s, p, p.walls[i]) >= 2
    {
      LeavesExactlyWhen(s, p, i);
      WantedAssembler(s, p, p.walls[i]);
    }
  }

  lemma {:induction false} WantedAssembler(s: State, p: Pass, w: Wall)
    requires w.key in s.asm
    ensures Wanted(s.asm, p, w) <==> VisibleCount(w) >= p.minCells && w.key !in p.restorable
  {
  }

  lemma {:induction false} OnlyThenInPlace(s: State, p: Pass)
    requires ValidPass(p) && !Reconcile(s, p).stale && Reconcile(s, p).state == s && NobodyRestored(s, p)
    requires PlanFor(s, p).nodes.byKey.Keys <= s.rows.Keys
    requires forall v :: v in Reconcile(s, p).outcomes ==> Reconcile(s, p).outcomes[v] != Switched
    ensures AllInPlace(s, p, WallsFor(s, p), PlanFor(s, p))
  {
    hide Reconcile, PlanOf, Kept, MergedCells, MaterialiseAll, StartBench, SwitchAll, AsmOf, Skips, Decided, SolosOf,
      NobodyRestored;
    var r := Reconcile(s, p);
    var walls, cells := WallsFor(s, p), FinalCells(p, HeavyOf(s, p), MergedCells(p, HeavyOf(s, p)));
    NobodyDropped(s, p);
    PassShape(s, p);
    CarryOutHeavy(s, p);
    OnlySkips(s, p);
    OutcomesOfBoard(s, p);
    CreatesNothing(s, p, walls, r.plan, |r.plan.nodes.order|);
    assert s.(rows := s.rows) == s;
    forall i | 0 <= i < |walls|
      ensures walls[i].key in r.plan.outputs
      ensures Skips(s, p, walls[i].key, AsmOf(r.plan.outputs[walls[i].key], Outlets(s.rows)))
    {
      SameConfig(s, p, walls, cells, i);
      AllSkipped(Board(s, map[], false), p, walls, r.plan, r.bench.shm, r.bench.refOf, |walls|, i);
    }
  }

  /** The fixpoints of a pass. It completes, leaves the registry and every dictionary as they are and sends no
      configuration if and only if there is nothing to do. */
  lemma {:induction false} FixpointExactly(s: State, p: Pass)
    requires ValidPass(p)
    ensures var r := Reconcile(s, p);
            !r.stale && r.state == s && (forall v :: v in r.outcomes ==> r.outcomes[v] != Switched) <==> AtRest(s, p)
  {
    hide Reconcile, PlanOf, Kept, MergedCells, AllInPlace, NobodyRestored;
    CarryOutHeavy(s, p);
    var r := Reconcile(s, p);
    if AtRest(s, p) {
      RestStays(s, p);
    } else if !r.stale && r.state == s && forall v :: v in r.outcomes ==> r.outcomes[v] != Switched {
      OnlyThenNobodyRestored(s, p);
      forall sig | sig in r.plan.nodes.byKey
        ensures sig in s.rows
      {
        OnlyThenRegistered(s, p, sig);
      }
      forall sig | sig in s.rows && s.rows[sig].node == p.node
        ensures sig in r.plan.nodes.byKey
      {
        OnlyThenPlanned(s, p, sig);
      }
      OnlyThenInPlace(s, p);
    }
  }
}
