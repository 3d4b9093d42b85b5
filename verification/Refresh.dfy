/** The memory that stands in for reports: what was pushed to each wall, and when
    (app/compositor_fabric.py:844-872, 1009-1036). */
module Refresh {
  import opened Signatures
  import opened Plan
  import opened Elimination
  import opened Fabric
  import opened Lines
  import opened Orchestrator
  import opened Assemblers
  import opened Waiting

  /** What is remembered as pushed to a wall, and the last command sent to it. */
  predicate SameMemory(s: State, t: State, v: nat) {
    && (v in s.pushed <==> v in t.pushed) && (v in s.pushed ==> s.pushed[v] == t.pushed[v])
    && (v in s.cmd <==> v in t.cmd) && (v in s.cmd ==> s.cmd[v] == t.cmd[v])
  }

  lemma {:induction false} RestorableIsNotWanted(asm: set<nat>, p: Pass, wall: Wall)
    requires wall.key in asm && wall.key in p.restorable
    ensures !Wanted(asm, p, wall)
  {
  }

  lemma {:induction false} SelectKeepsMemory(s: State, p: Pass, n: nat, i: nat)
    requires n <= |p.walls| && i < |p.walls| && DistinctKeys(p.walls)
    ensures Select(s, p, n).state.pushed == s.pushed
    ensures i < n && p.walls[i].key in s.asm && !Wanted(s.asm, p, p.walls[i])
            ==> p.walls[i].key in Select(s, p, n).state.cmd && Select(s, p, n).state.cmd[p.walls[i].key] == Restore
  {
    if n > 0 {
      SelectKeepsMemory(s, p, n - 1, i);
      SelectedWall(s, p, n - 1, i);
      SelectStep(s, p, n);
      hide Select, VisibleCount, Saturated;
      if i != n - 1 {
        assert p.walls[i].key != p.walls[n - 1].key;
      }
    }
  }

  /** A wall that is not an assembler is sent nothing by the selection. */
  lemma {:induction false} SelectSpares(s: State, p: Pass, n: nat, v: nat)
    requires n <= |p.walls| && v !in s.asm
    ensures v !in Select(s, p, n).state.asm && SameMemory(s, Select(s, p, n).state, v)
  {
    hide Wanted;
    if n > 0 {
      SelectSpares(s, p, n - 1, v);
    }
  }

  lemma {:induction false} DropSpares(s: State, walls: seq<Wall>, cells: nat, rules: Rules, n: nat, v: nat)
    requires cells > 0 && n <= |walls|
    requires v !in s.asm
    ensures v !in DropSolos(s, walls, cells, rules, n).asm && SameMemory(s, DropSolos(s, walls, cells, rules, n), v)
  {
    hide TileCount;
    if n > 0 {
      DropSpares(s, walls, cells, rules, n - 1, v);
    }
  }

  lemma {:induction false} ApplySpares(s: State, p: Pass, u: nat, config: AsmConfig, refOf: map<Shm, Ref>, v: nat)
    ensures var o := OutcomeOf(s, p, u, config, refOf);
            (o == Skipped || u != v) ==> SameMemory(s, Apply(s, p, u, config, Silent(p, u, config, refOf), o), v)
  {
    hide Silent, Skips;
  }

  /** Only the wall itself is concerned by its outcome. */
  lemma {:induction false} SwitchSpares(b: Board, p: Pass, walls: seq<Wall>, plan: FabricPlan, shm: map<NodeSig, Shm>,
                                        refOf: map<Shm, Ref>, n: nat, v: nat)
    requires n <= |walls| && DistinctKeys(walls) && b.outcomes == map[]
    ensures var c := SwitchAll(b, p, walls, plan, shm, refOf, n);
            && (v in c.outcomes ==> v in plan.outputs && exists j :: 0 <= j < n && walls[j].key == v)
            && (v !in c.outcomes || c.outcomes[v] == Skipped ==> SameMemory(b.state, c.state, v))
            && (v in c.outcomes && !p.asksReport ==>
                  (c.outcomes[v] == Skipped <==> PushedRecently(b.state, p, v, AsmOf(plan.outputs[v], shm))))
  {
    hide OutcomeOf, Apply, AsmOf, Silent;
    if n > 0 {
      var c := SwitchAll(b, p, walls, plan, shm, refOf, n - 1);
      SwitchSpares(b, p, walls, plan, shm, refOf, n - 1, v);
      var u := walls[n - 1].key;
      if !c.stale && u in plan.outputs {
        var config := AsmOf(plan.outputs[u], shm);
        ApplySpares(c.state, p, u, config, refOf, v);
        if u == v {
          assert forall j :: 0 <= j < n - 1 ==> walls[j].key != v;
          SkipsWhen(b.state, c.state, p, v, config, refOf);
        }
      }
    }
  }

  lemma {:induction false} SkipsWhen(s: State, t: State, p: Pass, v: nat, config: AsmConfig, refOf: map<Shm, Ref>)
    requires SameMemory(s, t, v)
    ensures !p.asksReport ==> (OutcomeOf(t, p, v, config, refOf) == Skipped <==> PushedRecently(s, p, v, config))
  {
    hide Silent;
  }

  lemma {:induction false} MemoryOfPass(s: State, p: Pass, v: nat)
    requires ValidPass(p) && v !in Decided(s, p).asm
    ensures var r, t := Reconcile(s, p), Decided(s, p);
            && (v in r.outcomes ==> v in r.plan.outputs)
            && (v !in r.outcomes || r.outcomes[v] == Skipped ==> v !in r.state.asm)
            && (v !in r.outcomes || r.outcomes[v] == Skipped ==>
                  && (v in t.pushed <==> v in r.state.pushed) && (v in t.pushed ==> r.state.pushed[v] == t.pushed[v])
                  && (v in r.state.cmd ==> v in t.cmd && r.state.cmd[v] == t.cmd[v])
                  && (v in t.cmd && v !in r.fallen ==> v in r.state.cmd))
            && (v in r.outcomes && !p.asksReport ==>
                  (r.outcomes[v] == Skipped <==> PushedRecently(t, p, v, ConfigOf(r, v))))
  {
    hide MaterialiseAll, SwitchAll, Keys, Select, DropSolos, SoloKeys, Reconcile, StartBench, FallenIn, TearAmong,
      CondemnedAmong,
      PushedRecently, AsmOf, Decided, SolosOf;
    PassShape(s, p);
    var r, t := Reconcile(s, p), Decided(s, p);
    var b := Board(t.(rows := r.bench.rows), map[], false);
    SwitchSpares(b, p, r.heavy, r.plan, r.bench.shm, r.bench.refOf, |r.heavy|, v);
    CarryOutLines(t, p, r.heavy, SolosOf(s, p), r.plan, v);
    if v in r.plan.outputs {
      RecentlyWhatever(t, t.(rows := r.bench.rows), p, v, AsmOf(r.plan.outputs[v], r.bench.shm));
    }
  }

  lemma {:induction false} RecentlyWhatever(s: State, t: State, p: Pass, v: nat, config: AsmConfig)
    requires s.pushed == t.pushed
    ensures PushedRecently(s, p, v, config) <==> PushedRecently(t, p, v, config)
  {
  }

  /** A restorable assembler is restored before anything else, and nothing that was pushed to it is forgotten. */
  lemma {:induction false} RestoredFirst(s: State, p: Pass, i: nat)
    requires ValidPass(p) && i < |p.walls| && p.walls[i].key in s.asm && p.walls[i].key in p.restorable
    ensures var v, r := p.walls[i].key, Reconcile(s, p);
            && v !in r.state.asm && v !in r.outcomes
            && (v in s.pushed <==> v in r.state.pushed) && (v in s.pushed ==> r.state.pushed[v] == s.pushed[v])
            && (v in r.state.cmd ==> r.state.cmd[v] == Restore) && (v !in r.fallen ==> v in r.state.cmd)
  {
    hide MaterialiseAll, SwitchAll, Keys, Select, DropSolos, SoloKeys, Reconcile, MergedCells, VisibleCount,
      TileCount, KeptUpTo;
    var v := p.walls[i].key;
    var sel := Select(s, p, |p.walls|);
    RestorableIsNotWanted(s.asm, p, p.walls[i]);
    SelectedWall(s, p, |p.walls|, i);
    SelectKeepsMemory(s, p, |p.walls|, i);
    DropSpares(sel.state, sel.heavy, MergedCells(p, sel.heavy), p.rules, |sel.heavy|, v);
    MemoryOfPass(s, p, v);
    NotPlanned(s, p, i);
  }

  lemma {:induction false} NotPlanned(s: State, p: Pass, i: nat)
    requires ValidPass(p) && i < |p.walls| && !Wanted(s.asm, p, p.walls[i])
    ensures p.walls[i].key !in Reconcile(s, p).outcomes
  {
    hide CarryOut, PlanOf, TileCount, Select, DropSolos, KeptUpTo, MergedCells, SoloKeys, Wanted, Reconcile, Decided,
      SolosOf;
    var v := p.walls[i].key;
    var r, heavy := Reconcile(s, p), HeavyOf(s, p);
    var cells := MergedCells(p, heavy);
    PassShape(s, p);
    CarryOutHeavy(s, p);
    CarryOutLines(Decided(s, p), p, r.heavy, SolosOf(s, p), r.plan, v);
    SelectedWall(s, p, |p.walls|, i);
    KeyIdentifies(s, p, i);
    if v in r.outcomes {
      var j :| 0 <= j < |r.heavy| && r.heavy[j].key == v;
      assert r.heavy[j] in r.heavy;
      KeptMember(heavy, cells, p.rules, |heavy|, r.heavy[j]);
    }
  }

  /** Two passes. The first restores a wall for being restorable; the second, which does not ask walls for
      their state, wants the wall again and plans for it the configuration last pushed. The wall is left
      alone, as it is since the restore, exactly when that push is less than the refresh period ago. */
  lemma {:induction false} RestoredWallLeftAlone(s: State, p1: Pass, i: nat, p2: Pass)
    requires ValidPass(p1) && ValidPass(p2) && i < |p1.walls| && !p2.asksReport
    requires p1.walls[i].key in s.asm && p1.walls[i].key in p1.restorable && p1.walls[i].key in s.pushed
    requires var v, r := p1.walls[i].key, Reconcile(Reconcile(s, p1).state, p2);
             v in r.outcomes && v in r.plan.outputs && ConfigOf(r, v) == s.pushed[v].config
    ensures var v, t := p1.walls[i].key, Reconcile(s, p1).state;
            var r := Reconcile(t, p2);
            && (r.outcomes[v] == Skipped <==> p2.now - s.pushed[v].at < REFRESH_S)
            && (r.outcomes[v] == Skipped ==> v !in r.state.asm && (v in r.state.cmd ==> r.state.cmd[v] == Restore))
  {
    hide MaterialiseAll, SwitchAll, Keys, Select, DropSolos, SoloKeys, Reconcile, MergedCells, VisibleCount,
      TileCount, KeptUpTo,
      AsmOf;
    var v, t := p1.walls[i].key, Reconcile(s, p1).state;
    RestoredFirst(s, p1, i);
    SelectSpares(t, p2, |p2.walls|, v);
    var sel := Select(t, p2, |p2.walls|);
    DropSpares(sel.state, sel.heavy, MergedCells(p2, sel.heavy), p2.rules, |sel.heavy|, v);
    MemoryOfPass(t, p2, v);
  }
}
