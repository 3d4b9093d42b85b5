/** Passes over the same walls reach a state that they leave as it is (app/compositor_fabric.py:840-1144). */
module Convergence {
  import opened Collections
  import opened Signatures
  import opened Plan
  import opened Elimination
  import opened Fabric
  import opened Lines
  import opened Orchestrator
  import opened Rebinding
  import opened Wiring
  import opened Assemblers
  import opened Waiting
  import opened Settled
  import opened Repeating

  // ----- One pass: the plan

  /** Every wall that the pass wants gets two tiles or is saturated. */
  predicate Stable(s: State, p: Pass)
    requires ValidPass(p)
  {
    forall w :: w in HeavyOf(s, p) ==>
      TileCount(HeavyOf(s, p), w, MergedCells(p, HeavyOf(s, p)), p.rules) >= 2 || Saturated(p, w.key)
  }

  /** The same walls and settings as those of `p`, none of which is told both to leave and to enter. */
  ghost predicate Repeats(p: Pass, q: Pass) {
    && ValidPass(p) && ValidPass(q) && SamePass(p, q) && p.minCells >= 2
    && forall i :: 0 <= i < |p.walls| ==> !Torn(p, p.walls[i])
  }

  lemma {:induction false} OnceIsStable(s: State, p: Pass, q: Pass)
    requires Repeats(p, q) && WallsStand(s, p)
    ensures Stable(Reconcile(s, p).state, q)
  {
    hide Reconcile, WallsStand, TileCount, Select, SaturatedKeys, ThinnedUpTo, Torn, KeptUpTo, PlanOf, MergedCells,
      Saturated,
      NextWanted, NextWalls, WallsFor;
    var t := Reconcile(s, p).state;
    NextIs(s, p, q);
    SameMerging(p, q, NextWanted(s, p));
    forall w | w in HeavyOf(t, q)
      ensures TileCount(HeavyOf(t, q), w, MergedCells(q, HeavyOf(t, q)), q.rules) >= 2 || Saturated(q, w.key)
    {
      NextIsTwoOrSaturated(s, p, w);
      SameSaturation(p, q, w.key);
    }
  }

  lemma {:induction false} SameSaturation(p: Pass, q: Pass, v: nat)
    requires SamePass(p, q)
    ensures Saturated(p, v) <==> Saturated(q, v)
  {
  }

  lemma {:induction false} NextIsTwoOrSaturated(s: State, p: Pass, w: Wall)
    requires ValidPass(p) && p.minCells >= 2 && w in NextWanted(s, p)
    ensures TileCount(NextWanted(s, p), w, MergedCells(p, NextWanted(s, p)), p.rules) >= 2 || Saturated(p, w.key)
  {
    hide TileCount, Select, ThinnedUpTo, KeptUpTo, MergedCells, Saturated, VisibleCount;
    var heavy := HeavyOf(s, p);
    assert heavy[..|heavy|] == heavy;
    ThinnedKeeps(heavy, MergedCells(p, heavy), p.rules, SaturatedKeys(s, p), |heavy|, w);
    KeptIsKept(heavy, MergedCells(p, heavy), p.rules, |heavy|, w);
    if TileCount(heavy, w, MergedCells(p, heavy), p.rules) >= 2 {
      StillPlanned(s, p, w);
      NextHaveTwo(s, p, w);
    } else {
      var k :| 0 <= k < |heavy| && heavy[k] == w;
      SaturatedMember(s, p, k);
    }
  }

  /** Then the walls wanted, and the plan, stay the same. */
  lemma {:induction false} StableStays(s: State, p: Pass, q: Pass)
    requires Repeats(p, q) && WallsStand(s, p) && Stable(s, p)
    ensures var t := Reconcile(s, p).state;
            && HeavyOf(t, q) == HeavyOf(s, p) && WallsFor(t, q) == WallsFor(s, p) && PlanFor(t, q) == PlanFor(s, p)
            && NextPlan(s, p) == PlanFor(s, p)
  {
    hide Reconcile, WallsStand, TileCount, Select, ThinnedUpTo, Torn, KeptUpTo, PlanOf, MergedCells, Saturated,
      SaturatedKeys;
    var heavy := HeavyOf(s, p);
    NextIs(s, p, q);
    forall w | w in heavy
      ensures TileCount(heavy, w, MergedCells(p, heavy), p.rules) >= 2 || w.key in SaturatedKeys(s, p)
    {
      var k :| 0 <= k < |heavy| && heavy[k] == w;
      SaturatedMember(s, p, k);
    }
    AllStay(heavy, MergedCells(p, heavy), p.rules, SaturatedKeys(s, p), |heavy|);
    assert heavy[..|heavy|] == heavy;
  }

  // ----- One pass: the rows

  /** A row of the machine that the pass does not plan. */
  predicate OrphanRow(s: State, p: Pass, sig: NodeSig)
    requires ValidPass(p)
  {
    sig in s.rows && s.rows[sig].node == p.node && sig !in PlanFor(s, p).nodes.byKey
  }

  /** An orphan that remains was there before, and was left for later. */
  lemma {:induction false} OrphanWasLeft(s: State, p: Pass, sig: NodeSig)
    requires ValidPass(p) && !Reconcile(s, p).stale && sig in Reconcile(s, p).state.rows
    requires Reconcile(s, p).state.rows[sig].node == p.node && sig !in PlanFor(s, p).nodes.byKey
    ensures OrphanRow(s, p, sig)
    ensures Count(Reconcile(s, p).state.tear, sig) == Count(s.tear, sig) + 1 && Count(s.tear, sig) < TEARDOWN_MAX
  {
    hide Reconcile, MayBeRead, Count, PlanFor, ValidPass;
    WallsForIs(s, p);
    PassTears(s, p, sig);
    PassLeaves(s, p, sig);
    OldRowUntouched(s, p, sig);
  }

  lemma {:induction false} OldRowUntouched(s: State, p: Pass, sig: NodeSig)
    requires ValidPass(p) && sig in Reconcile(s, p).bench.rows && sig !in Reconcile(s, p).plan.nodes.byKey
    ensures sig in s.rows && Reconcile(s, p).bench.rows[sig] == s.rows[sig]
  {
    hide Reconcile, MaterialiseAll, StartBench, Decided, SolosOf, Wired, SameSlot, Created, Rebound;
    var r, t := Reconcile(s, p), Decided(s, p);
    PassShape(s, p);
    BenchIsSafe(t, p, r.heavy, r.plan);
    OtherRowsUntouched(t, p, r.heavy, r.plan, sig);
  }

  lemma {:induction false} BenchOrphan(s: State, p: Pass, sig: NodeSig)
    requires ValidPass(p) && sig in Reconcile(s, p).bench.rows
    ensures OrphanOf(Reconcile(s, p), p, sig) ==> OrphanRow(s, p, sig)
  {
    hide Reconcile, PlanFor, ValidPass;
    WallsForIs(s, p);
    if OrphanOf(Reconcile(s, p), p, sig) {
      OldRowUntouched(s, p, sig);
    }
  }

  /** When the pass finds no orphan, nothing falls and no row is removed. */
  lemma {:induction false} NoOrphanNothingFalls(s: State, p: Pass)
    requires ValidPass(p) && !Reconcile(s, p).stale && forall sig :: !OrphanRow(s, p, sig)
    ensures Reconcile(s, p).fallen == {} && Reconcile(s, p).state.rows == Reconcile(s, p).bench.rows
    ensures PlanFor(s, p).nodes.byKey.Keys <= Reconcile(s, p).state.rows.Keys
  {
    hide Reconcile, MayBeRead, Count, PlanFor, ValidPass;
    var r := Reconcile(s, p);
    WallsForIs(s, p);
    FallsExactlyWhen(s, p);
    forall sig | sig in r.bench.rows
      ensures !OrphanOf(r, p, sig)
    {
      BenchOrphan(s, p, sig);
    }
    forall sig
      ensures sig in r.state.rows <==> sig in r.bench.rows
      ensures sig in r.state.rows ==> r.state.rows[sig] == r.bench.rows[sig]
    {
      PassTears(s, p, sig);
    }
    forall sig | sig in PlanFor(s, p).nodes.byKey
      ensures sig in r.state.rows
    {
      PlannedInBench(s, p, sig);
    }
  }

  /** When every planned node is registered too, the rows stay as they are. */
  lemma {:induction false} RowsStay(s: State, p: Pass)
    requires ValidPass(p) && !Reconcile(s, p).stale && forall sig :: !OrphanRow(s, p, sig)
    requires PlanFor(s, p).nodes.byKey.Keys <= s.rows.Keys
    ensures Reconcile(s, p).state.rows == s.rows
  {
    hide Reconcile, PlanFor, MaterialiseAll, StartBench, Decided, SolosOf, OrphanRow;
    NoOrphanNothingFalls(s, p);
    WallsForIs(s, p);
    PassShape(s, p);
    var r := Reconcile(s, p);
    CreatesNothing(Decided(s, p), p, r.heavy, r.plan, |r.plan.nodes.order|);
  }

  // ----- One pass: the walls

  /** The wall was last pushed what the plan says, on the registered outputs. */
  predicate Told(s: State, p: Pass, v: nat)
    requires ValidPass(p)
  {
    v in PlanFor(s, p).outputs && SameAsPushed(s, v, AsmOf(PlanFor(s, p).outputs[v], Outlets(s.rows)))
  }

  /** Walls report what was last pushed to them; a pass that does not ask them comes soon enough. */
  predicate Truthful(s: State, p: Pass) {
    forall v :: v in s.pushed ==>
      if p.asksReport then InPlace(ReportOf(p.report, v), s.pushed[v].config) else p.now - s.pushed[v].at < REFRESH_S
  }

  lemma {:induction false} ToldSkips(s: State, p: Pass, v: nat, config: AsmConfig)
    requires Truthful(s, p) && SameAsPushed(s, v, config)
    ensures Skips(s, p, v, config)
  {
    hide InPlace;
  }

  /** A wall that would be left alone at first is. */
  lemma {:induction false} SkippedWhen(b: Board, p: Pass, walls: seq<Wall>, plan: FabricPlan, shm: map<NodeSig, Shm>,
                                       refOf: map<Shm, Ref>, n: nat, i: nat)
    requires i < |walls| && n <= |walls| && DistinctKeys(walls) && b.outcomes == map[] && walls[i].key in plan.outputs
    requires !SwitchAll(b, p, walls, plan, shm, refOf, n).stale
    requires Skips(b.state, p, walls[i].key, AsmOf(plan.outputs[walls[i].key], shm))
    ensures var c, v := SwitchAll(b, p, walls, plan, shm, refOf, n), walls[i].key;
            && (if i < n then v in c.outcomes && c.outcomes[v] == Skipped else v !in c.outcomes)
            && (v in b.state.pushed <==> v in c.state.pushed)
            && (v in b.state.pushed ==> c.state.pushed[v] == b.state.pushed[v])
  {
    hide AsmOf, Silent, OutcomeOf, Apply, Skips;
    if n > 0 {
      var c, v, last := SwitchAll(b, p, walls, plan, shm, refOf, n - 1), walls[i].key, walls[n - 1].key;
      SwitchNext(b, p, walls, plan, shm, refOf, n);
      SkippedWhen(b, p, walls, plan, shm, refOf, n - 1, i);
      if last in plan.outputs {
        hide SwitchAll;
        var config := AsmOf(plan.outputs[last], shm);
        if last == v {
          assert i == n - 1;
          StillSkips(b.state, c.state, p, v, config, refOf);
        } else {
          OthersPush(c.state, p, last, config, refOf, v);
        }
      } else {
        assert last != v;
      }
    }
  }

  lemma {:induction false} StillSkips(s: State, t: State, p: Pass, v: nat, config: AsmConfig, refOf: map<Shm, Ref>)
    requires Skips(s, p, v, config)
    requires (v in s.pushed <==> v in t.pushed) && (v in s.pushed ==> t.pushed[v] == s.pushed[v])
    ensures OutcomeOf(t, p, v, config, refOf) == Skipped
    ensures Apply(t, p, v, config, Silent(p, v, config, refOf), Skipped) == t
  {
    hide InPlace, Silent;
  }

  lemma {:induction false} OthersPush(s: State, p: Pass, v: nat, config: AsmConfig, refOf: map<Shm, Ref>, u: nat)
    requires u != v
    ensures var o := OutcomeOf(s, p, v, config, refOf);
            var t := Apply(s, p, v, config, Silent(p, v, config, refOf), o);
            (u in s.pushed <==> u in t.pushed) && (u in s.pushed ==> t.pushed[u] == s.pushed[u])
  {
    hide Silent, Skips;
  }

  /** Once nobody is restored and the rows stay, a wall that was told its configuration is left alone. */
  lemma {:induction false} ToldStays(s: State, p: Pass, i: nat)
    requires ValidPass(p) && !Reconcile(s, p).stale && Truthful(s, p) && NobodyRestored(s, p)
    requires PlanFor(s, p).nodes.byKey.Keys <= s.rows.Keys
    requires i < |WallsFor(s, p)| && Told(s, p, WallsFor(s, p)[i].key)
    ensures OutcomeIn(Reconcile(s, p), WallsFor(s, p)[i].key) == Some(Skipped)
  {
    hide Reconcile, PlanOf, Kept, MergedCells, FinalCells, MaterialiseAll, StartBench, SwitchAll, AsmOf, Skips,
      Truthful,
      Decided, SolosOf, NobodyRestored, Select;
    var r, walls := Reconcile(s, p), WallsFor(s, p);
    var v := walls[i].key;
    NobodyDropped(s, p);
    PassShape(s, p);
    WallsForIs(s, p);
    OutcomesOfBoard(s, p);
    CreatesNothing(s, p, walls, r.plan, |r.plan.nodes.order|);
    assert s.(rows := s.rows) == s;
    KeysStayApart(s, p);
    SameConfig(s, p, walls, ThisCells(s, p), i);
    ToldSkips(s, p, v, AsmOf(r.plan.outputs[v], Outlets(s.rows)));
    SkippedWhen(Board(s, map[], false), p, walls, r.plan, r.bench.shm, r.bench.refOf, |walls|, i);
  }

  /** A wall is told its configuration by a pass that does not defer it. */
  lemma {:induction false} ToldUnlessDeferred(s: State, p: Pass, q: Pass, i: nat)
    requires ValidPass(p) && ValidPass(q) && !Reconcile(s, p).stale && i < |WallsFor(s, p)|
    requires PlanFor(Reconcile(s, p).state, q) == PlanFor(s, p)
    requires PlanFor(s, p).nodes.byKey.Keys <= Reconcile(s, p).state.rows.Keys
    requires OutcomeIn(Reconcile(s, p), WallsFor(s, p)[i].key) != Some(Deferred)
    ensures Told(Reconcile(s, p).state, q, WallsFor(s, p)[i].key)
  {
    hide Reconcile, PlanFor, WallsFor, AsmOf, SameAsPushed;
    WallsForIs(s, p);
    ConfigStands(s, p, i);
    PlannedWasPushed(s, p, i);
  }

  // ----- Runs

  function WallKeys(p: Pass): set<nat> {
    set i | 0 <= i < |p.walls| :: p.walls[i].key
  }

  /** No row runs in the container of a wall of the pass. */
  predicate Apart(p: Pass, rows: map<NodeSig, Row>) {
    forall sig :: sig in rows ==> !RunsIn(rows[sig], WallKeys(p))
  }

  /** Deployments do not give the container of a wall. */
  predicate NewApart(p: Pass, q: Pass) {
    forall sig :: sig in q.refs && q.refs[sig].Given? ==> q.refs[sig].vmid !in WallKeys(p)
  }

  /** A run of passes over the same walls, with the same settings, none of them abandoned: walls report what was
      pushed to them, none is told both to leave and to enter, and none is the container of a node. */
  ghost predicate Run(p: Pass, s: State, ps: seq<Pass>) {
    && ValidPass(p) && p.minCells >= 2 && (forall i :: 0 <= i < |p.walls| ==> !Torn(p, p.walls[i]))
    && AllValid(ps) && Apart(p, s.rows)
    && forall i :: 0 <= i < |ps| ==>
         && SamePass(p, ps[i]) && NewApart(p, ps[i])
         && !Reconcile(After(s, ps, i), ps[i]).stale && Truthful(After(s, ps, i), ps[i])
  }

  lemma {:induction false} RunAt(p: Pass, s: State, ps: seq<Pass>, i: nat)
    requires Run(p, s, ps) && i < |ps|
    ensures AllValid(ps) && ValidPass(ps[i]) && Repeats(p, ps[i]) && NewApart(p, ps[i])
    ensures !Reconcile(After(s, ps, i), ps[i]).stale && Truthful(After(s, ps, i), ps[i])
    ensures After(s, ps, i + 1) == Reconcile(After(s, ps, i), ps[i]).state
  {
    hide Reconcile, Truthful, SamePass, Torn, ValidPass, Apart, NewApart;
  }

  lemma {:induction false} SamePassTwice(p: Pass, q: Pass, q2: Pass)
    requires SamePass(p, q) && SamePass(p, q2)
    ensures SamePass(q, q2) && q.node == q2.node && q.walls == p.walls && q.minCells == p.minCells
    ensures forall w: Wall :: Torn(q, w) <==> Torn(p, w)
  {
    hide VisibleCount;
  }

  lemma {:induction false} NextRepeats(p: Pass, s: State, ps: seq<Pass>, i: nat)
    requires Run(p, s, ps) && i + 1 < |ps|
    ensures AllValid(ps) && Repeats(ps[i], ps[i + 1]) && ps[i].node == ps[i + 1].node
  {
    hide Reconcile, Truthful, After, SamePass, Torn, ValidPass, Run;
    RunAt(p, s, ps, i);
    RunAt(p, s, ps, i + 1);
    SamePassTwice(p, ps[i], ps[i + 1]);
  }

  lemma {:induction false} BenchApart(p: Pass, s: State, q: Pass)
    requires ValidPass(q) && Apart(p, s.rows) && NewApart(p, q)
    ensures Apart(p, Reconcile(s, q).bench.rows)
  {
    hide Reconcile, MaterialiseAll, StartBench, Decided, SolosOf, FreedSlot;
    var r, t := Reconcile(s, q), Decided(s, q);
    PassShape(s, q);
    BenchIsSafe(t, q, r.heavy, r.plan);
  }

  lemma {:induction false} RunApart(p: Pass, s: State, ps: seq<Pass>, i: nat)
    requires Run(p, s, ps) && i <= |ps|
    ensures AllValid(ps) && Apart(p, After(s, ps, i).rows)
  {
    hide Reconcile, ValidPass, Repeats, MayBeRead, Truthful, NewApart, Count, WallKeys;
    if i > 0 {
      RunApart(p, s, ps, i - 1);
      RunAt(p, s, ps, i - 1);
      var t, q := After(s, ps, i - 1), ps[i - 1];
      BenchApart(p, t, q);
      forall sig | sig in Reconcile(t, q).state.rows
        ensures !RunsIn(Reconcile(t, q).state.rows[sig], WallKeys(p))
      {
        PassTears(t, q, sig);
      }
    }
  }

  lemma {:induction false} PlannedAreWalls(s: State, q: Pass, w: Wall)
    requires ValidPass(q) && w in Reconcile(s, q).heavy
    ensures w.key in WallKeys(q)
  {
    hide Reconcile, Select, MergedCells, KeptUpTo, TileCount, PlanOf;
    CarryOutHeavy(s, q);
    KeptMember(HeavyOf(s, q), MergedCells(q, HeavyOf(s, q)), q.rules, |HeavyOf(s, q)|, w);
    SelectedDistinct(s, q, |q.walls|);
    assert w in q.walls[..|q.walls|];
    var i :| 0 <= i < |q.walls| && q.walls[i] == w;
  }

  lemma {:induction false} RunStands(p: Pass, s: State, ps: seq<Pass>, i: nat)
    requires Run(p, s, ps) && i < |ps|
    ensures AllValid(ps) && WallsStand(After(s, ps, i), ps[i])
  {
    hide Reconcile, Truthful, Run, After, Condemns, ShownBy;
    RunApart(p, s, ps, i);
    RunAt(p, s, ps, i);
    var t, q := After(s, ps, i), ps[i];
    BenchApart(p, t, q);
    forall w | w in Reconcile(t, q).heavy
      ensures w.key !in Reconcile(t, q).fallen
    {
      PlannedAreWalls(t, q, w);
      assert WallKeys(q) == WallKeys(p);
      if w.key in Reconcile(t, q).fallen {
        var sig := FallenIsNode(t, q, w.key);
      }
    }
  }

  /** From the second pass on the plan is the same. */
  lemma {:induction false} RunStable(p: Pass, s: State, ps: seq<Pass>, i: nat)
    requires Run(p, s, ps) && 1 <= i < |ps|
    ensures AllValid(ps) && Stable(After(s, ps, i), ps[i])
  {
    hide Reconcile, Run, WallsStand, Stable, Repeats;
    RunAt(p, s, ps, i - 1);
    NextRepeats(p, s, ps, i - 1);
    RunStands(p, s, ps, i - 1);
    OnceIsStable(After(s, ps, i - 1), ps[i - 1], ps[i]);
  }

  lemma {:induction false} SamePlanNext(p: Pass, s: State, ps: seq<Pass>, i: nat)
    requires Run(p, s, ps) && 1 <= i && i + 1 < |ps|
    ensures AllValid(ps)
    ensures PlanFor(After(s, ps, i + 1), ps[i + 1]) == PlanFor(After(s, ps, i), ps[i])
    ensures WallsFor(After(s, ps, i + 1), ps[i + 1]) == WallsFor(After(s, ps, i), ps[i])
    ensures NobodyRestored(After(s, ps, i + 1), ps[i + 1])
  {
    hide Reconcile, Run, WallsStand, Stable, PlanFor, WallsFor, NextPlan, NobodyRestored, After, Torn;
    RunAt(p, s, ps, i);
    NextRepeats(p, s, ps, i);
    RunStands(p, s, ps, i);
    RunStable(p, s, ps, i);
    StableStays(After(s, ps, i), ps[i], ps[i + 1]);
    NoneRestoredNext(After(s, ps, i), ps[i], ps[i + 1]);
  }

  // ----- Orphans go

  /** An orphan was left at every pass since the plan is the same. */
  lemma {:induction false} OrphanCounted(p: Pass, s: State, ps: seq<Pass>, i: nat, sig: NodeSig)
    requires Run(p, s, ps) && 1 <= i < |ps| && AllValid(ps) && OrphanRow(After(s, ps, i), ps[i], sig)
    ensures Count(After(s, ps, i).tear, sig) >= i - 1
    ensures i >= 2 ==> Count(After(s, ps, i - 1).tear, sig) < TEARDOWN_MAX
    ensures i >= 2 ==> OrphanRow(After(s, ps, i - 1), ps[i - 1], sig)
  {
    hide Reconcile, Run, PlanFor, WallsFor, After, Count, NobodyRestored;
    if i >= 2 {
      RunAt(p, s, ps, i - 1);
      NextRepeats(p, s, ps, i - 1);
      SamePlanNext(p, s, ps, i - 1);
      OrphanWasLeft(After(s, ps, i - 1), ps[i - 1], sig);
      OrphanCounted(p, s, ps, i - 1, sig);
    }
  }

  lemma {:induction false} NoOrphanLeft(p: Pass, s: State, ps: seq<Pass>, i: nat)
    requires Run(p, s, ps) && TEARDOWN_MAX + 2 <= i < |ps|
    ensures AllValid(ps) && forall sig :: !OrphanRow(After(s, ps, i), ps[i], sig)
  {
    hide Reconcile, Run, PlanFor, After, OrphanRow, Count;
    RunAt(p, s, ps, i);
    forall sig
      ensures !OrphanRow(After(s, ps, i), ps[i], sig)
    {
      if OrphanRow(After(s, ps, i), ps[i], sig) {
        OrphanCounted(p, s, ps, i, sig);
        OrphanCounted(p, s, ps, i - 1, sig);
      }
    }
  }

  // ----- Rows stay

  lemma {:induction false} AllRegistered(p: Pass, s: State, ps: seq<Pass>, i: nat)
    requires Run(p, s, ps) && TEARDOWN_MAX + 3 <= i < |ps|
    ensures AllValid(ps) && PlanFor(After(s, ps, i), ps[i]).nodes.byKey.Keys <= After(s, ps, i).rows.Keys
  {
    hide Reconcile, Run, PlanFor, After, OrphanRow, WallsFor, NobodyRestored;
    RunAt(p, s, ps, i - 1);
    NoOrphanLeft(p, s, ps, i - 1);
    NoOrphanNothingFalls(After(s, ps, i - 1), ps[i - 1]);
    SamePlanNext(p, s, ps, i - 1);
  }

  // ----- Walls are told

  /** From the time the rows stay, a wall that is not told its configuration was deferred. */
  lemma {:induction false} ToldOrDeferred(p: Pass, s: State, ps: seq<Pass>, i: nat, k: nat)
    requires Run(p, s, ps) && TEARDOWN_MAX + 3 <= i && i + 1 < |ps| && AllValid(ps)
    requires k < |WallsFor(After(s, ps, i), ps[i])|
    ensures var v := WallsFor(After(s, ps, i), ps[i])[k].key;
            Told(After(s, ps, i + 1), ps[i + 1], v)
            || (&& !Told(After(s, ps, i), ps[i], v) && Count(After(s, ps, i).deferred, v) < DEFER_MAX
                && Count(After(s, ps, i + 1).deferred, v) == Count(After(s, ps, i).deferred, v) + 1)
  {
    hide Reconcile, Run, PlanFor, After, WallsFor, NobodyRestored, Truthful, Told, Repeats, OrphanRow, Count;
    var v := WallsFor(After(s, ps, i), ps[i])[k].key;
    RunAt(p, s, ps, i);
    RunAt(p, s, ps, i + 1);
    AllRegistered(p, s, ps, i);
    NoOrphanLeft(p, s, ps, i);
    NoOrphanNothingFalls(After(s, ps, i), ps[i]);
    SamePlanNext(p, s, ps, i);
    SamePlanNext(p, s, ps, i - 1);
    PassCounts(After(s, ps, i), ps[i], v);
    if Told(After(s, ps, i), ps[i], v) {
      ToldStays(After(s, ps, i), ps[i], k);
    }
    if OutcomeIn(Reconcile(After(s, ps, i), ps[i]), v) != Some(Deferred) {
      ToldUnlessDeferred(After(s, ps, i), ps[i], ps[i + 1], k);
    }
  }

  lemma {:induction false} AllTold(p: Pass, s: State, ps: seq<Pass>, i: nat, k: nat)
    requires Run(p, s, ps) && SETTLES_AFTER <= i < |ps| && AllValid(ps) && k < |WallsFor(After(s, ps, i), ps[i])|
    ensures Told(After(s, ps, i), ps[i], WallsFor(After(s, ps, i), ps[i])[k].key)
  {
    hide Reconcile, Run, PlanFor, After, WallsFor, NobodyRestored, Told, Count;
    SamePlanNext(p, s, ps, i - 1);
    SamePlanNext(p, s, ps, i - 2);
    SamePlanNext(p, s, ps, i - 3);
    ToldOrDeferred(p, s, ps, i - 1, k);
    ToldOrDeferred(p, s, ps, i - 2, k);
    ToldOrDeferred(p, s, ps, i - 3, k);
  }

  // ----- Convergence

  const SETTLES_AFTER := TEARDOWN_MAX + DEFER_MAX + 4

  lemma {:induction false} RestsAfter(p: Pass, s: State, ps: seq<Pass>, i: nat)
    requires Run(p, s, ps) && SETTLES_AFTER <= i < |ps|
    ensures AllValid(ps) && AtRest(After(s, ps, i), ps[i])
  {
    hide Reconcile, Run, PlanFor, After, WallsFor, NobodyRestored, Told, Truthful, Repeats, Skips, AsmOf;
    RunAt(p, s, ps, i);
    SamePlanNext(p, s, ps, i - 1);
    AllRegistered(p, s, ps, i);
    NoOrphanLeft(p, s, ps, i);
    var t, q := After(s, ps, i), ps[i];
    forall sig | sig in t.rows && t.rows[sig].node == q.node
      ensures sig in PlanFor(t, q).nodes.byKey
    {
      assert !OrphanRow(t, q, sig);
    }
    forall k | 0 <= k < |WallsFor(t, q)|
      ensures WallsFor(t, q)[k].key in PlanFor(t, q).outputs
      ensures Skips(t, q, WallsFor(t, q)[k].key, AsmOf(PlanFor(t, q).outputs[WallsFor(t, q)[k].key], Outlets(t.rows)))
    {
      AllTold(p, s, ps, i, k);
      ToldMeans(t, q, WallsFor(t, q)[k].key);
    }
  }

  lemma {:induction false} ToldMeans(s: State, p: Pass, v: nat)
    requires ValidPass(p) && Told(s, p, v) && Truthful(s, p)
    ensures v in PlanFor(s, p).outputs && Skips(s, p, v, AsmOf(PlanFor(s, p).outputs[v], Outlets(s.rows)))
  {
    hide PlanFor, AsmOf, Truthful, Skips;
    ToldSkips(s, p, v, AsmOf(PlanFor(s, p).outputs[v], Outlets(s.rows)));
  }

  /** Convergence. Over every such run, from any state, after `SETTLES_AFTER` passes there is nothing left to do, and
      no later pass changes a row, a dictionary or a command. */
  lemma {:induction false} Converges(p: Pass, s: State, ps: seq<Pass>, n: nat)
    requires Run(p, s, ps) && SETTLES_AFTER <= n <= |ps|
    ensures AllValid(ps) && After(s, ps, n) == After(s, ps, SETTLES_AFTER)
    ensures n < |ps| ==> AtRest(After(s, ps, n), ps[n])
  {
    hide Reconcile, Run, AtRest, After, Repeats;
    if n < |ps| {
      RestsAfter(p, s, ps, n);
    }
    if n > SETTLES_AFTER {
      Converges(p, s, ps, n - 1);
      RunAt(p, s, ps, n - 1);
      RestStays(After(s, ps, n - 1), ps[n - 1]);
    } else {
      RunValid(p, s, ps);
    }
  }

  lemma {:induction false} RunValid(p: Pass, s: State, ps: seq<Pass>)
    requires Run(p, s, ps)
    ensures AllValid(ps)
  {
  }
}
