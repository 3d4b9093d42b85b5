/** Which walls are assemblers, over whole runs (app/compositor_fabric.py:844-925, 1005-1093). */
module Assemblers {
  import opened Signatures
  import opened Plan
  import opened Elimination
  import opened Fabric
  import opened Lines
  import opened Orchestrator

  // ----- The registry follows the commands

  /** The line of a wall exists exactly when the last command sent to the wall made it an assembler. */
  ghost predicate FollowsCommands(s: State) {
    forall v :: v in s.asm <==> v in s.cmd && s.cmd[v].Assemble?
  }

  lemma {:induction false} SelectFollows(s: State, p: Pass, n: nat)
    requires n <= |p.walls| && FollowsCommands(s)
    ensures FollowsCommands(Select(s, p, n).state)
  {
    hide Wanted;
    if n > 0 {
      SelectFollows(s, p, n - 1);
    }
  }

  lemma {:induction false} DropFollows(s: State, walls: seq<Wall>, cells: nat, rules: Rules, n: nat)
    requires cells > 0 && n <= |walls| && FollowsCommands(s)
    ensures FollowsCommands(DropSolos(s, walls, cells, rules, n))
  {
    hide TileCount;
    if n > 0 {
      DropFollows(s, walls, cells, rules, n - 1);
    }
  }

  lemma {:induction false} SwitchFollows(b: Board, p: Pass, walls: seq<Wall>, plan: FabricPlan, shm: map<NodeSig, Shm>,
                                         refOf: map<Shm, Ref>, n: nat)
    requires n <= |walls| && FollowsCommands(b.state)
    ensures FollowsCommands(SwitchAll(b, p, walls, plan, shm, refOf, n).state)
  {
    hide OutcomeOf, AsmOf, Silent;
    if n > 0 {
      SwitchFollows(b, p, walls, plan, shm, refOf, n - 1);
    }
  }

  lemma {:induction false} TeardownFollows(s: State, p: Pass, want: set<NodeSig>, consulted: seq<nat>)
    requires FollowsCommands(s)
    ensures FollowsCommands(Teardown(s, p, want, consulted))
  {
    hide CondemnedAmong, PostponedAmong, FallenIn;
  }

  lemma {:induction false} CarryOutFollows(s: State, p: Pass, walls: seq<Wall>, solos: seq<nat>, plan: FabricPlan)
    requires FollowsCommands(s)
    ensures FollowsCommands(CarryOut(s, p, walls, solos, plan).state)
  {
    hide MaterialiseAll, SwitchAll, Teardown, FallenIn, Keys;
    var bench := MaterialiseAll(StartBench(s, p, plan), p, walls, plan, |plan.nodes.order|);
    var b := Board(s.(rows := bench.rows), map[], false);
    SwitchFollows(b, p, walls, plan, bench.shm, bench.refOf, |walls|);
    TeardownFollows(SwitchAll(b, p, walls, plan, bench.shm, bench.refOf, |walls|).state, p, plan.nodes.byKey.Keys,
                    Keys(walls) + solos);
  }

  lemma {:induction false} ReconcileFollows(s: State, p: Pass)
    requires ValidPass(p) && FollowsCommands(s)
    ensures FollowsCommands(Reconcile(s, p).state)
  {
    hide FollowsCommands, CarryOut, PlanOf, TileCount;
    SelectFollows(s, p, |p.walls|);
    var sel := Select(s, p, |p.walls|);
    var cells := MergedCells(p, sel.heavy);
    DropFollows(sel.state, sel.heavy, cells, p.rules, |sel.heavy|);
    var walls := Kept(sel.heavy, cells, p.rules);
    CarryOutFollows(DropSolos(sel.state, sel.heavy, cells, p.rules, |sel.heavy|), p, walls,
                    SoloKeys(sel.state, sel.heavy, cells, p.rules),
                      PlanOf(walls, FinalCells(p, sel.heavy, cells), p.rules));
  }

  /** The state after the first `n` passes of a run. */
  function After(s: State, ps: seq<Pass>, n: nat): State
    requires n <= |ps| && forall i :: 0 <= i < |ps| ==> ValidPass(ps[i])
  {
    if n == 0 then s else Reconcile(After(s, ps, n - 1), ps[n - 1]).state
  }

  /** Over every run, completed or abandoned passes alike, the line of a wall exists exactly when the last
      command sent to it made it an assembler. */
  lemma {:induction false} LinesFollowCommands(s: State, ps: seq<Pass>, n: nat)
    requires n <= |ps| && forall i :: 0 <= i < |ps| ==> ValidPass(ps[i])
    requires FollowsCommands(s)
    ensures FollowsCommands(After(s, ps, n))
  {
    hide FollowsCommands, ValidPass, Reconcile;
    if n > 0 {
      LinesFollowCommands(s, ps, n - 1);
      ReconcileFollows(After(s, ps, n - 1), ps[n - 1]);
    }
  }

  // ----- When a wall stops being an assembler

  lemma {:induction false} SelectedWall(s: State, p: Pass, n: nat, i: nat)
    requires i < |p.walls| && n <= |p.walls| && DistinctKeys(p.walls)
    ensures var v := p.walls[i].key;
            var sel := Select(s, p, n);
            && (v in sel.state.asm <==> v in s.asm && (i < n ==> Wanted(s.asm, p, p.walls[i])))
            && (p.walls[i] in sel.heavy <==> i < n && Wanted(s.asm, p, p.walls[i]))
  {
    if n > 0 {
      SelectedWall(s, p, n - 1, i);
      SelectStep(s, p, n);
      hide Select, VisibleCount, Saturated;
      if i != n - 1 {
        assert p.walls[i].key != p.walls[n - 1].key;
      }
    }
  }

  lemma {:induction false} DroppedWall(s: State, walls: seq<Wall>, cells: nat, rules: Rules, n: nat, v: nat)
    requires cells > 0 && n <= |walls| && DistinctKeys(walls)
    ensures var t := DropSolos(s, walls, cells, rules, n);
            && (v in t.asm ==> v in s.asm)
            && (v in s.asm && (forall j :: 0 <= j < n ==> walls[j].key != v) ==> v in t.asm)
            && (forall j :: 0 <= j < n && walls[j].key == v ==>
                  (v in t.asm <==> v in s.asm && TileCount(walls, walls[j], cells, rules) >= 2))
  {
    hide TileCount;
    if n > 0 {
      DroppedWall(s, walls, cells, rules, n - 1, v);
    }
  }

  /** Switching only adds lines, for walls whose switch happened. */
  lemma {:induction false} SwitchedWalls(b: Board, p: Pass, walls: seq<Wall>, plan: FabricPlan, shm: map<NodeSig, Shm>,
                                         refOf: map<Shm, Ref>, n: nat, v: nat)
    requires n <= |walls| && DistinctKeys(walls) && b.outcomes == map[]
    ensures var c := SwitchAll(b, p, walls, plan, shm, refOf, n);
            && (v in c.state.asm <==> v in b.state.asm || (v in c.outcomes && c.outcomes[v] == Switched))
            && (v in c.outcomes ==> exists j :: 0 <= j < n && walls[j].key == v)
  {
    hide OutcomeOf, AsmOf, Silent;
    if n > 0 {
      SwitchedWalls(b, p, walls, plan, shm, refOf, n - 1, v);
      if walls[n - 1].key == v {
        assert forall j :: 0 <= j < n - 1 ==> walls[j].key != v;
      }
    }
  }

  lemma {:induction false} CarryOutLines(s: State, p: Pass, walls: seq<Wall>, solos: seq<nat>, plan: FabricPlan, v: nat)
    requires DistinctKeys(walls)
    ensures var r := CarryOut(s, p, walls, solos, plan);
            && (v in r.state.asm <==> (v in s.asm || (v in r.outcomes && r.outcomes[v] == Switched)) && v !in r.fallen)
            && (v in r.outcomes ==> exists j :: 0 <= j < |walls| && walls[j].key == v)
            && r.heavy == walls && r.plan == plan
  {
    hide MaterialiseAll, SwitchAll, CondemnedAmong, PostponedAmong, Keys, FallenIn;
    var bench := MaterialiseAll(StartBench(s, p, plan), p, walls, plan, |plan.nodes.order|);
    SwitchedWalls(Board(s.(rows := bench.rows), map[], false), p, walls, plan, bench.shm, bench.refOf, |walls|, v);
  }

  function HeavyOf(s: State, p: Pass): seq<Wall> {
    Select(s, p, |p.walls|).heavy
  }

  /** Tiles that a wall gets in the plan of all the walls that the pass wants. */
  function FirstTileCount(s: State, p: Pass, wall: Wall): nat
    requires p.maxCells > 0
  {
    TileCount(HeavyOf(s, p), wall, MergedCells(p, HeavyOf(s, p)), p.rules)
  }

  /** A wall that is an assembler leaves that state in a pass exactly when it has too few windows, or is
      restorable, or would get fewer than two tiles, or falls in step 3. Its measured latency plays no part. */
  lemma {:induction false} LeavesExactlyWhen(s: State, p: Pass, i: nat)
    requires ValidPass(p) && i < |p.walls| && p.walls[i].key in s.asm
    ensures var wall := p.walls[i];
            wall.key !in Reconcile(s, p).state.asm
            <==> || VisibleCount(wall) < p.minCells || wall.key in p.restorable || FirstTileCount(s, p, wall) < 2
                 || wall.key in Reconcile(s, p).fallen
  {
    hide CarryOut, PlanOf, TileCount, VisibleCount, Select, DropSolos, KeptUpTo, MergedCells, SoloKeys;
    var wall := p.walls[i];
    var sel := Select(s, p, |p.walls|);
    var cells := MergedCells(p, sel.heavy);
    var walls := Kept(sel.heavy, cells, p.rules);
    var s1 := DropSolos(sel.state, sel.heavy, cells, p.rules, |sel.heavy|);
    SelectedWall(s, p, |p.walls|, i);
    SelectedDistinct(s, p, |p.walls|);
    DroppedWall(sel.state, sel.heavy, cells, p.rules, |sel.heavy|, wall.key);
    KeptDistinct(sel.heavy, cells, p.rules, |sel.heavy|);
    CarryOutLines(s1, p, walls, SoloKeys(sel.state, sel.heavy, cells, p.rules),
                  PlanOf(walls, FinalCells(p, sel.heavy, cells), p.rules), wall.key);
    KeyIdentifies(s, p, i);
    if w :| w in walls && w.key == wall.key {
      KeptMember(sel.heavy, cells, p.rules, |sel.heavy|, w);
    }
  }

  /** Among the walls that a pass wants, a key stands for one wall. */
  lemma {:induction false} KeyIdentifies(s: State, p: Pass, i: nat)
    requires DistinctKeys(p.walls) && i < |p.walls|
    ensures forall w :: w in HeavyOf(s, p) && w.key == p.walls[i].key ==> w == p.walls[i]
    ensures p.walls[i] in HeavyOf(s, p)
            <==> exists j :: 0 <= j < |HeavyOf(s, p)| && HeavyOf(s, p)[j].key == p.walls[i].key
  {
    hide Select;
    SelectedDistinct(s, p, |p.walls|);
    assert p.walls[..|p.walls|] == p.walls;
    var heavy := HeavyOf(s, p);
    forall w | w in heavy && w.key == p.walls[i].key
      ensures w == p.walls[i]
    {
      assert w in p.walls;
    }
    if p.walls[i] in heavy {
      var j :| 0 <= j < |heavy| && heavy[j] == p.walls[i];
    } else if j :| 0 <= j < |heavy| && heavy[j].key == p.walls[i].key {
      assert heavy[j] in heavy;
    }
  }

  /** A wall becomes an assembler in a pass exactly when it is switched and does not fall in step 3, and then
      it was saturated, with enough windows and at least two tiles. */
  lemma {:induction false} EntersExactlyWhen(s: State, p: Pass, i: nat)
    requires ValidPass(p) && i < |p.walls| && p.walls[i].key !in s.asm
    ensures var wall, r := p.walls[i], Reconcile(s, p);
            && (wall.key in r.state.asm
                <==> wall.key in r.outcomes && r.outcomes[wall.key] == Switched && wall.key !in r.fallen)
            && (wall.key in r.outcomes ==>
                  Saturated(p, wall.key) && VisibleCount(wall) >= p.minCells && FirstTileCount(s, p, wall) >= 2)
  {
    hide CarryOut, PlanOf, TileCount, VisibleCount, Saturated, Select, DropSolos, KeptUpTo, MergedCells, SoloKeys;
    var wall := p.walls[i];
    var sel := Select(s, p, |p.walls|);
    var cells := MergedCells(p, sel.heavy);
    var walls := Kept(sel.heavy, cells, p.rules);
    var s1 := DropSolos(sel.state, sel.heavy, cells, p.rules, |sel.heavy|);
    SelectedWall(s, p, |p.walls|, i);
    SelectedDistinct(s, p, |p.walls|);
    DroppedWall(sel.state, sel.heavy, cells, p.rules, |sel.heavy|, wall.key);
    KeptDistinct(sel.heavy, cells, p.rules, |sel.heavy|);
    CarryOutLines(s1, p, walls, SoloKeys(sel.state, sel.heavy, cells, p.rules),
                  PlanOf(walls, FinalCells(p, sel.heavy, cells), p.rules), wall.key);
    KeyIdentifies(s, p, i);
    if wall.key in Reconcile(s, p).outcomes {
      var j :| 0 <= j < |walls| && walls[j].key == wall.key;
      assert walls[j] in walls;
      KeptMember(sel.heavy, cells, p.rules, |sel.heavy|, walls[j]);
    }
  }

  lemma {:induction false} SelectedHaveEnough(s: State, p: Pass, n: nat, w: Wall)
    requires n <= |p.walls| && w in Select(s, p, n).heavy
    ensures VisibleCount(w) >= p.minCells
  {
    hide VisibleCount, Restored, Saturated;
    if w !in Select(s, p, n - 1).heavy {
      assert w == p.walls[n - 1];
    } else {
      SelectedHaveEnough(s, p, n - 1, w);
    }
  }

  /** One elimination is enough: in the plan that is carried out, every wall has at least two tiles. */
  lemma {:induction false} PlannedInParallel(s: State, p: Pass, i: nat)
    requires ValidPass(p) && p.minCells >= 2 && i < |Reconcile(s, p).heavy|
    ensures var r := Reconcile(s, p);
            r.heavy[i].key in r.plan.outputs && |r.plan.outputs[r.heavy[i].key].tiles| >= 2
  {
    hide CarryOut, Select, DropSolos, KeptUpTo, SoloKeys, TileCount, VisibleCount, PlanOf;
    var heavy := HeavyOf(s, p);
    var cells := MergedCells(p, heavy);
    var walls := Kept(heavy, cells, p.rules);
    SelectedDistinct(s, p, |p.walls|);
    KeptDistinct(heavy, cells, p.rules, |heavy|);
    CarryOutHeavy(s, p);
    forall w | w in heavy
      ensures VisibleCount(w) >= 2
    {
      SelectedHaveEnough(s, p, |p.walls|, w);
    }
    assert walls[i] in walls;
    OneEliminationSuffices(heavy, cells, FinalCells(p, heavy, cells), p.rules, walls[i]);
    PlannedTiles(walls, FinalCells(p, heavy, cells), p.rules, i);
  }

  lemma {:induction false} CarryOutHeavy(s: State, p: Pass)
    requires ValidPass(p)
    ensures var heavy := HeavyOf(s, p);
            var cells := MergedCells(p, heavy);
            && Reconcile(s, p).heavy == Kept(heavy, cells, p.rules)
            && Reconcile(s, p).plan == PlanOf(Kept(heavy, cells, p.rules), FinalCells(p, heavy, cells), p.rules)
  {
    hide MaterialiseAll, SwitchAll, Teardown, FallenIn, Keys, Select, DropSolos, KeptUpTo, SoloKeys, PlanOf,
      MergedCells;
  }

  // ----- Commands and configurations

  /** What is remembered as sent to an assembler is the last command sent to it. */
  ghost predicate RemembersCommands(s: State) {
    forall v :: v in s.asm && v in s.pushed ==> v in s.cmd && s.cmd[v] == Assemble(s.pushed[v].config)
  }

  lemma {:induction false} SelectRemembers(s: State, p: Pass, n: nat)
    requires n <= |p.walls| && RemembersCommands(s)
    ensures RemembersCommands(Select(s, p, n).state)
  {
    hide Wanted;
    if n > 0 {
      SelectRemembers(s, p, n - 1);
    }
  }

  lemma {:induction false} DropRemembers(s: State, walls: seq<Wall>, cells: nat, rules: Rules, n: nat)
    requires cells > 0 && n <= |walls| && RemembersCommands(s)
    ensures RemembersCommands(DropSolos(s, walls, cells, rules, n))
  {
    hide TileCount;
    if n > 0 {
      DropRemembers(s, walls, cells, rules, n - 1);
    }
  }

  lemma {:induction false} SwitchRemembers(b: Board, p: Pass, walls: seq<Wall>, plan: FabricPlan,
                                           shm: map<NodeSig, Shm>,
                                           refOf: map<Shm, Ref>, n: nat)
    requires n <= |walls| && RemembersCommands(b.state) && p.asksReport
    ensures RemembersCommands(SwitchAll(b, p, walls, plan, shm, refOf, n).state)
  {
    hide OutcomeOf, AsmOf, Silent;
    if n > 0 {
      SwitchRemembers(b, p, walls, plan, shm, refOf, n - 1);
    }
  }

  lemma {:induction false} ReconcileRemembers(s: State, p: Pass)
    requires ValidPass(p) && RemembersCommands(s) && p.asksReport
    ensures RemembersCommands(Reconcile(s, p).state)
  {
    hide MaterialiseAll, SwitchAll, CondemnedAmong, PostponedAmong, FallenIn, Keys, PlanOf, TileCount, Select,
      DropSolos, SoloKeys;
    SelectRemembers(s, p, |p.walls|);
    var sel := Select(s, p, |p.walls|);
    var cells := MergedCells(p, sel.heavy);
    DropRemembers(sel.state, sel.heavy, cells, p.rules, |sel.heavy|);
    var s1 := DropSolos(sel.state, sel.heavy, cells, p.rules, |sel.heavy|);
    var walls := Kept(sel.heavy, cells, p.rules);
    var plan := PlanOf(walls, FinalCells(p, sel.heavy, cells), p.rules);
    var bench := MaterialiseAll(StartBench(s1, p, plan), p, walls, plan, |plan.nodes.order|);
    SwitchRemembers(Board(s1.(rows := bench.rows), map[], false), p, walls, plan, bench.shm, bench.refOf, |walls|);
  }

  /** Over every run of passes that ask the walls for their state. */
  lemma {:induction false} MemoryFollowsCommands(s: State, ps: seq<Pass>, n: nat)
    requires n <= |ps| && forall i :: 0 <= i < |ps| ==> ValidPass(ps[i]) && ps[i].asksReport
    requires RemembersCommands(s)
    ensures RemembersCommands(After(s, ps, n))
  {
    hide RemembersCommands, ValidPass, Reconcile;
    if n > 0 {
      MemoryFollowsCommands(s, ps, n - 1);
      ReconcileRemembers(After(s, ps, n - 1), ps[n - 1]);
    }
  }

  /** The planned configuration of a wall in the pass. */
  function ConfigOf(r: Result, v: nat): AsmConfig
    requires v in r.plan.outputs
  {
    AsmOf(r.plan.outputs[v], r.bench.shm)
  }

  lemma {:induction false} SwitchAgrees(b: Board, p: Pass, walls: seq<Wall>, plan: FabricPlan, shm: map<NodeSig, Shm>,
                                        refOf: map<Shm, Ref>, n: nat, v: nat)
    requires n <= |walls| && DistinctKeys(walls) && b.outcomes == map[] && p.asksReport && RemembersCommands(b.state)
    ensures var c := SwitchAll(b, p, walls, plan, shm, refOf, n);
            && (v in c.outcomes ==> exists j :: 0 <= j < n && walls[j].key == v)
            && (v in c.outcomes ==> v in plan.outputs)
            && (v in c.outcomes && (c.outcomes[v].Skipped? || c.outcomes[v].Switched?) && v in c.state.asm
                ==> v in c.state.cmd && c.state.cmd[v] == Assemble(AsmOf(plan.outputs[v], shm)))
  {
    hide AsmOf, Silent, InPlace, RemembersCommands;
    if n > 0 {
      var c := SwitchAll(b, p, walls, plan, shm, refOf, n - 1);
      SwitchAgrees(b, p, walls, plan, shm, refOf, n - 1, v);
      SwitchRemembers(b, p, walls, plan, shm, refOf, n - 1);
      if walls[n - 1].key == v && !c.stale && v in plan.outputs {
        assert forall j :: 0 <= j < n - 1 ==> walls[j].key != v;
        OneWallAgrees(c.state, p, v, AsmOf(plan.outputs[v], shm), refOf);
      }
    }
  }

  lemma {:induction false} OneWallAgrees(s: State, p: Pass, v: nat, asm: AsmConfig, refOf: map<Shm, Ref>)
    requires p.asksReport && RemembersCommands(s)
    ensures var o := OutcomeOf(s, p, v, asm, refOf);
            var t := Apply(s, p, v, asm, Silent(p, v, asm, refOf), o);
            (o.Skipped? || o.Switched?) && v in t.asm ==> v in t.cmd && t.cmd[v] == Assemble(asm)
  {
  }

  /** When walls report their state, an assembler that a pass leaves alone or switches has been sent, last,
      exactly the configuration that the pass planned for it. */
  lemma {:induction false} SettledWallsAreUpToDate(s: State, p: Pass, v: nat)
    requires ValidPass(p) && p.asksReport && RemembersCommands(s)
    requires var r := Reconcile(s, p);
             v in r.outcomes && (r.outcomes[v].Skipped? || r.outcomes[v].Switched?) && v in r.state.asm
    ensures var r := Reconcile(s, p);
            v in r.plan.outputs && v in r.state.cmd && r.state.cmd[v] == Assemble(ConfigOf(r, v))
  {
    hide MaterialiseAll, SwitchAll, CondemnedAmong, PostponedAmong, FallenIn, Keys, PlanOf, TileCount, Select,
      DropSolos, SoloKeys, AsmOf,
      KeptUpTo;
    SelectRemembers(s, p, |p.walls|);
    SelectedDistinct(s, p, |p.walls|);
    var sel := Select(s, p, |p.walls|);
    var cells := MergedCells(p, sel.heavy);
    KeptDistinct(sel.heavy, cells, p.rules, |sel.heavy|);
    DropRemembers(sel.state, sel.heavy, cells, p.rules, |sel.heavy|);
    var s1 := DropSolos(sel.state, sel.heavy, cells, p.rules, |sel.heavy|);
    var walls := Kept(sel.heavy, cells, p.rules);
    var plan := PlanOf(walls, FinalCells(p, sel.heavy, cells), p.rules);
    var bench := MaterialiseAll(StartBench(s1, p, plan), p, walls, plan, |plan.nodes.order|);
    SwitchAgrees(Board(s1.(rows := bench.rows), map[], false), p, walls, plan, bench.shm, bench.refOf, |walls|, v);
  }
}
