/** Concrete passes and runs in which a property of the fabric fails. */
module Counterexamples {
  import opened Collections
  import opened Signatures
  import opened Plan
  import opened Conservation
  import opened Picture
  import opened PictureLimits
  import opened Elimination
  import opened Layouts
  import opened Fabric
  import opened Lines
  import opened Orchestrator
  import opened Rebinding
  import opened Assemblers
  import opened Waiting
  import opened Settled
  import opened Repeating
  import opened Refresh

  const EMPTY := State(map[], {}, map[], map[], map[], map[])

  /** A pass over some walls, of which some are saturated; nobody is asked anything. */
  function PassOver(walls: seq<Wall>, saturated: set<nat>, now: int): Pass {
    Pass(0, walls, map v | v in saturated :: 50.0, map[], 40.0, {}, 2, 4, None, SourceRules(), 25, "422", 8, false, now,
         false, {}, false, map[], false, map[], map[], {}, {}, map[], [], {}, {})
  }

  lemma {:induction false} PassOverFacts(walls: seq<Wall>, saturated: set<nat>, now: int, v: nat)
    requires v in saturated
    ensures Saturated(PassOver(walls, saturated, now), v)
  {
    assert PassOver(walls, saturated, now).latency[v] == 50.0;
  }

  // ----- Passes that plan all their walls

  lemma {:induction false} SelectsAll(s: State, p: Pass, n: nat)
    requires n <= |p.walls| && forall i :: 0 <= i < |p.walls| ==> Wanted(s.asm, p, p.walls[i])
    ensures Select(s, p, n) == Selection(s, p.walls[..n], [])
  {
    if n > 0 {
      SelectsAll(s, p, n - 1);
      SelectStep(s, p, n);
      hide Wanted;
      assert Wanted(s.asm, p, p.walls[n - 1]);
      assert p.walls[..n] == p.walls[..n - 1] + [p.walls[n - 1]];
    }
  }

  /** Walls that are all wanted and get two tiles each are planned together. */
  lemma {:induction false} PlansAll(s: State, p: Pass)
    requires ValidPass(p) && p.maxNodes == None
    requires forall i :: 0 <= i < |p.walls| ==>
               Wanted(s.asm, p, p.walls[i]) && TileCount(p.walls, p.walls[i], p.maxCells, p.rules) >= 2
    ensures Decided(s, p) == s && SolosOf(s, p) == []
    ensures Reconcile(s, p).heavy == p.walls && Reconcile(s, p).plan == PlanOf(p.walls, p.maxCells, p.rules)
  {
    hide Wanted, TileCount, PlanOf, Select, DropSolos, SoloKeysUpTo, KeptUpTo, Reconcile;
    SelectsAll(s, p, |p.walls|);
    assert p.walls[..|p.walls|] == p.walls;
    DropsNobody(s, p.walls, p.maxCells, p.rules, |p.walls|);
    AllStay(p.walls, p.maxCells, p.rules, {}, |p.walls|);
    ThinnedToKept(p.walls, p.maxCells, p.rules, |p.walls|);
    CarryOutHeavy(s, p);
  }

  // ----- A shared window hidden by a shard, in a pass

  lemma {:induction false} HoleCounts()
    ensures TileCount([FIRST, SECOND], FIRST, 4, SourceRules()) >= 2
            && TileCount([FIRST, SECOND], SECOND, 4, SourceRules()) >= 2
    ensures VisibleCount(FIRST) == 4 && VisibleCount(SECOND) == 2
  {
    hide TileCount, SharedElems, Elements, Residual, Guillotine.Partition, SourceRules, Cells;
    HoleResidual();
    HoleSecond();
    HoleGroups();
    HoleCells();
    ElementsFacts(FIRST);
    ElementsFacts(SECOND);
    TileCountIs([FIRST, SECOND], FIRST, 4, SourceRules());
    TileCountIs([FIRST, SECOND], SECOND, 4, SourceRules());
    Guillotine.GroupSizes([E(OTHER)], 4, SourceRules()(SECOND), true);
  }

  lemma {:induction false} PlansBoth(s: State, p: Pass, u: Wall, v: Wall)
    requires ValidPass(p) && p.maxNodes == None && p.walls == [u, v] && Wanted(s.asm, p, u) && Wanted(s.asm, p, v)
    requires TileCount([u, v], u, p.maxCells, p.rules) >= 2 && TileCount([u, v], v, p.maxCells, p.rules) >= 2
    ensures var r := Reconcile(s, p);
            && r.heavy == [u, v] && u.key in r.plan.outputs
            && r.plan.outputs[u.key].tiles == Tiles([u, v], u, p.maxCells, p.rules)
            && r.plan.nodes.byKey == AllNodes([u, v], p.maxCells, p.rules, 2).byKey
  {
    hide Wanted, TileCount, Reconcile, Tiles, AllNodes;
    PlansAll(s, p);
    OutputsAt([u, v], p.maxCells, p.rules, 2, 0);
  }

  lemma {:induction false} HoleWanted(p: Pass)
    requires p == PassOver([FIRST, SECOND], {1, 2}, 0)
    ensures ValidPass(p) && Wanted({}, p, FIRST) && Wanted({}, p, SECOND)
  {
    hide VisibleCount, SourceRules, Saturated;
    HoleCounts();
    PassOverFacts([FIRST, SECOND], {1, 2}, 0, 1);
    PassOverFacts([FIRST, SECOND], {1, 2}, 0, 2);
    HoleKeys();
  }

  lemma {:induction false} HoleKeys()
    ensures DistinctKeys([FIRST, SECOND]) && FIRST.key == 1 && SECOND.key == 2
  {
  }

  /** Both walls are saturated and get two tiles at least; the plan that the pass carries out does not show the
      shared window of the first, although its windows are aligned, disjoint and separated by straight lines. */
  lemma {:induction false} PassHidesSharedCell(p: Pass)
    requires p == PassOver([FIRST, SECOND], {1, 2}, 0)
    ensures ValidPass(p)
    ensures var r := Reconcile(EMPTY, p);
            && r.heavy == [FIRST, SECOND] && FIRST.key in r.plan.outputs
            && exists px, py ::
                 TilePaint(r.plan.outputs[FIRST.key].tiles, r.plan.nodes.byKey, px, py)
                     != Paint(Tiled(r.heavy, FIRST), px, py)
  {
    HoleCounts();
    HoleWanted(p);
    HoleHidesSharedCell();
    hide TileCount, VisibleCount, SourceRules, TilePaint, Paint, Tiled, Reconcile, Tiles, AllNodes, Wanted, ValidPass;
    PlansBoth(EMPTY, p, FIRST, SECOND);
  }

  // ----- Passes over a wall of two windows

  predicate PairPass(s: State, p: Pass, v: nat, a: string, b: string) {
    && ValidPass(p) && p.walls == [Pair(v, a, b)] && a != "" && b != "" && a != b
    && p.maxNodes == None && p.minCells <= 2 && (if v in s.asm then v !in p.restorable else Saturated(p, v))
  }

  lemma {:induction false} PairIsPlanned(s: State, p: Pass, v: nat, a: string, b: string)
    requires PairPass(s, p, v, a, b) && p.rules == SourceRules()
    ensures var r := Reconcile(s, p);
            && Decided(s, p) == s && SolosOf(s, p) == [] && r.heavy == [Pair(v, a, b)] && r.plan == PairPlan(v, a, b)
            && r == CarryOut(s, p, r.heavy, [], r.plan)
            && r.bench == Second(p, v, a, b, First(s, p, v, a, b))
  {
    hide TileCount, VisibleCount, SourceRules, PlanOf, Reconcile, PairPlan, Saturated, CarryOut, First, Second;
    PairPlanned(v, a, b, p.maxCells);
    PlansAll(s, p);
    PassShape(s, p);
    PairBench(s, p, v, a, b);
  }

  function PairStart(s: State, p: Pass, v: nat, a: string, b: string): Bench {
    StartBench(s, p, PairPlan(v, a, b))
  }

  /** The bench after the shard of the left window. */
  function First(s: State, p: Pass, v: nat, a: string, b: string): Bench {
    Materialise(PairStart(s, p, v, a, b), p, Alone(a), AloneNode(v, a), [Place(v, 0, 0, 2, 2)])
  }

  /** And after that of the right window. */
  function Second(p: Pass, v: nat, a: string, b: string, bench: Bench): Bench {
    Materialise(bench, p, Alone(b), AloneNode(v, b), [Place(v, 2, 0, 2, 2)])
  }

  lemma {:induction false} KeptNode(b: Bench, p: Pass, sig: NodeSig, node: Node, places: seq<Place>)
    requires !b.stale && sig in b.rows
    ensures Materialise(b, p, sig, node, places) == Use(b, sig)
  {
  }

  lemma {:induction false} NewNode(b: Bench, p: Pass, sig: NodeSig, node: Node, places: seq<Place>)
    requires !b.stale && sig !in b.rows && sig !in p.rebindOk && sig !in p.staleCreate
    ensures var c := Materialise(b, p, sig, node, places);
            && !c.stale && c.rows == b.rows[sig := RowOf(p, node, places, NewRef(p, sig), Fab(sig))]
            && c.created == b.created + [sig] && c.rebound == b.rebound
            && c.shm == b.shm[sig := Fab(sig)] && c.refOf == b.refOf[Fab(sig) := NewRef(p, sig)]
  {
    hide NewRef, NeededSlot, FormatOf;
  }

  lemma {:induction false} TakenNode(b: Bench, p: Pass, sig: NodeSig, node: Node, places: seq<Place>, slot: Slot,
                                     taken: NodeSig)
    requires !b.stale && sig !in b.rows && sig in p.rebindOk && NeededSlot(p, node, places) == Some(slot)
    requires slot in b.slots && b.slots[slot] == [taken] && taken in b.rows
    ensures var c := Materialise(b, p, sig, node, places);
            && !c.stale
            && c.rows == (b.rows - {taken})[sig := RowOf(p, node, places, b.rows[taken].ref, b.rows[taken].shm)]
            && c.rebound == b.rebound[sig := taken]
  {
    hide RowOf, NeededSlot;
  }

  lemma {:induction false} PairPlaces(v: nat, a: string, b: string)
    requires a != b
    ensures var walls, outputs := [Pair(v, a, b)], PairPlan(v, a, b).outputs;
            && Places(walls, outputs, Alone(a)) == [Place(v, 0, 0, 2, 2)]
            && Places(walls, outputs, Alone(b)) == [Place(v, 2, 0, 2, 2)]
  {
    hide Alone, Pair;
    DifferentShards(a, b);
    var tiles := PairTiles(a, b);
    assert tiles[1..] == [tiles[1]] && tiles[1..][1..] == [];
    assert [Pair(v, a, b)][1..] == [];
    assert Pair(v, a, b).key == v by {
      PairKey(v, a, b);
    }
    assert TilePlaces(tiles[1..], v, Alone(a)) == [];
    assert TilePlaces(tiles[1..], v, Alone(b)) == [Place(v, 2, 0, 2, 2)];
  }

  lemma {:induction false} PairKey(v: nat, a: string, b: string)
    ensures Pair(v, a, b).key == v
  {
  }

  lemma {:induction false} PairBench(s: State, p: Pass, v: nat, a: string, b: string)
    requires a != b
    ensures BenchOf(s, p, [Pair(v, a, b)], PairPlan(v, a, b)) == Second(p, v, a, b, First(s, p, v, a, b))
  {
    var walls, plan := [Pair(v, a, b)], PairPlan(v, a, b);
    PairPlaces(v, a, b);
    DifferentShards(a, b);
    hide Materialise, StartBench, Places, Alone, AloneNode, Pair, PairTiles;
    var start := StartBench(s, p, plan);
    assert MaterialiseAll(start, p, walls, plan, 0) == start;
    assert MaterialiseAll(start, p, walls, plan, 1) == First(s, p, v, a, b);
  }

  lemma {:induction false} OneWallBoard(t: State, p: Pass, wall: Wall, plan: FabricPlan, shm: map<NodeSig, Shm>,
                                        refOf: map<Shm, Ref>)
    requires wall.key in plan.outputs
    ensures var v, config := wall.key, AsmOf(plan.outputs[wall.key], shm);
            var o := OutcomeOf(t, p, v, config, refOf);
            SwitchAll(Board(t, map[], false), p, [wall], plan, shm, refOf, 1)
            == Board(Apply(t, p, v, config, Silent(p, v, config, refOf), o), map[v := o], o == Abandoned)
  {
    hide OutcomeOf, Apply, Silent, AsmOf;
    var b0 := Board(t, map[], false);
    assert SwitchAll(b0, p, [wall], plan, shm, refOf, 0) == b0;
  }

  /** A pass over one planned wall. */
  lemma {:induction false} OneWall(s: State, p: Pass, wall: Wall, plan: FabricPlan)
    requires wall.key in plan.outputs && !BenchOf(s, p, [wall], plan).stale
    ensures var b, r := BenchOf(s, p, [wall], plan), CarryOut(s, p, [wall], [], plan);
            var v, config := wall.key, AsmOf(plan.outputs[wall.key], b.shm);
            var o := OutcomeOf(s.(rows := b.rows), p, v, config, b.refOf);
            && r.outcomes == map[v := o] && r.stale == (o == Abandoned) && (!r.stale ==> r.consulted == [v])
  {
    hide OutcomeOf, Apply, Silent, AsmOf, MaterialiseAll, StartBench, Teardown, FallenIn, SwitchAll;
    var b := BenchOf(s, p, [wall], plan);
    OneWallBoard(s.(rows := b.rows), p, wall, plan, b.shm, b.refOf);
    assert [wall][1..] == [] && Keys([]) == [];
    assert Keys([wall]) + [] == [wall.key];
  }

  function PairOut(a: string, b: string): Output {
    Output(PairTiles(a, b), [], 4, 2, PLAIN, "", "")
  }

  lemma {:induction false} OnePairBoard(s: State, p: Pass, v: nat, a: string, b: string)
    requires PairPass(s, p, v, a, b) && p.rules == SourceRules() && !Reconcile(s, p).bench.stale
    ensures var r := Reconcile(s, p);
            var t, config := s.(rows := r.bench.rows), AsmOf(PairOut(a, b), r.bench.shm);
            var o := OutcomeOf(t, p, v, config, r.bench.refOf);
            && r.outcomes == map[v := o] && r.stale == (o == Abandoned)
            && (!r.stale ==> r.consulted == [v])
            && (!r.stale ==> BoardOf(s, p).state == Apply(t, p, v, config, Silent(p, v, config, r.bench.refOf), o))
            && v in r.plan.outputs && r.plan.outputs[v] == PairOut(a, b)
  {
    hide SourceRules, Reconcile, OutcomeOf, Apply, Silent, AsmOf, PairOut, Pair, PairPlan, First, Second, CarryOut,
      SwitchAll, BenchOf;
    PairIsPlanned(s, p, v, a, b);
    PairKey(v, a, b);
    PairOutputs(v, a, b);
    PassShape(s, p);
    var r := Reconcile(s, p);
    OneWall(s, p, Pair(v, a, b), r.plan);
    OneWallBoard(s.(rows := r.bench.rows), p, Pair(v, a, b), r.plan, r.bench.shm, r.bench.refOf);
  }

  lemma {:induction false} PairOutputs(v: nat, a: string, b: string)
    ensures PairPlan(v, a, b).outputs == map[v := PairOut(a, b)]
    ensures PairPlan(v, a, b).nodes.order == [Alone(a), Alone(b)]
            && PairPlan(v, a, b).nodes.byKey.Keys == {Alone(a), Alone(b)}
  {
    hide Alone, AloneNode;
  }

  // ----- Planned shards destroyed with somebody else's orphan

  const ORPHAN := Alone("z")
  /** A shard of wall 2, in container 20. */
  const STRAY := Row(0, ShardKind, Given(20), Fab(ORPHAN), [2], Some((0, 0)), 2, 2, None)
  const WITH_STRAY := EMPTY.(rows := map[ORPHAN := STRAY])

  /** Wall 1 is newly saturated; its shards, in containers 10 and 11, are not ready yet. */
  function DeferringPass(): Pass {
    PassOver([Pair(1, "a", "b")], {1}, 0)
    .(asksReady := true, asksReport := true, reportAfter := map[1 := Report([], multiset{})],
      refs := map[Alone("a") := Given(10), Alone("b") := Given(11)], scan := [ORPHAN], known := {10, 11, 20})
  }

  lemma {:induction false} DeferringFacts(p: Pass)
    requires p == DeferringPass()
    ensures PairPass(WITH_STRAY, p, 1, "a", "b") && p.rules == SourceRules() && p.rebindOk == {} && p.staleCreate == {}
    ensures NewRef(p, Alone("a")) == Given(10) && AloneNode(1, "a").sharedBy == [1]
  {
    hide SourceRules, VisibleCount, Alone;
    DifferentShards("a", "b");
  }

  lemma {:induction false} DeferringBench(p: Pass)
    requires p == DeferringPass()
    ensures PairPass(WITH_STRAY, p, 1, "a", "b") && p.rules == SourceRules()
    ensures var b := Second(p, 1, "a", "b", First(WITH_STRAY, p, 1, "a", "b"));
            && !b.stale && b.created == [Alone("a"), Alone("b")]
            && ORPHAN in b.rows && b.rows[ORPHAN] == STRAY
            && Alone("a") in b.rows && b.rows[Alone("a")].ref == Given(10) && b.rows[Alone("a")].parents == [1]
            && Alone("a") in b.shm && b.shm[Alone("a")] == Fab(Alone("a"))
            && Fab(Alone("a")) in b.refOf && b.refOf[Fab(Alone("a"))] == Given(10)
  {
    hide SourceRules, Alone, FormatOf, Materialise, AloneNode, DeferringPass, PairPass, NewRef, FreedSlots;
    DifferentShards("a", "b");
    DifferentShards("a", "z");
    DifferentShards("b", "z");
    DeferringFacts(p);
    NewNode(PairStart(WITH_STRAY, p, 1, "a", "b"), p, Alone("a"), AloneNode(1, "a"), [Place(1, 0, 0, 2, 2)]);
    NewNode(First(WITH_STRAY, p, 1, "a", "b"), p, Alone("b"), AloneNode(1, "b"), [Place(1, 2, 0, 2, 2)]);
  }

  lemma {:induction false} FirstAwaited(sig: NodeSig, other: NodeSig, shm: map<NodeSig, Shm>, refOf: map<Shm, Ref>)
    requires sig in shm && shm[sig] in refOf
    ensures var w := Windows([Tile(sig, 0, 0, 2, 2), Tile(other, 2, 0, 2, 2)], shm);
            refOf[shm[sig]] in AwaitedRefs(w, {}, refOf) && w != [] && w[0].path == shm[sig]
  {
    var tiles := [Tile(sig, 0, 0, 2, 2), Tile(other, 2, 0, 2, 2)];
    assert tiles[0].sig == sig;
  }

  /** A wall asked about a shard that is not ready waits. */
  lemma {:induction false} PairWaits(t: State, p: Pass, shm: map<NodeSig, Shm>, refOf: map<Shm, Ref>)
    requires p == DeferringPass() && t.deferred == map[]
    requires Alone("a") in shm && shm[Alone("a")] in refOf
    ensures OutcomeOf(t, p, 1, AsmOf(PairOut("a", "b"), shm), refOf) == Deferred
  {
    hide AwaitedRefs, Windows, Alone;
    FirstAwaited(Alone("a"), Alone("b"), shm, refOf);
  }

  lemma {:induction false} DeferringOutcome(p: Pass)
    requires p == DeferringPass()
    ensures PairPass(WITH_STRAY, p, 1, "a", "b") && p.rules == SourceRules()
    ensures var r := Reconcile(WITH_STRAY, p);
            && !r.stale && r.outcomes == map[1 := Deferred] && r.consulted == [1]
               && BoardOf(WITH_STRAY, p).state.asm == {}
  {
    hide Second, First, SourceRules, Reconcile, PairPass, AsmOf, OutcomeOf, Silent, Alone, Pair, PairPlan, PairOut,
      CarryOut;
    DeferringBench(p);
    PairIsPlanned(WITH_STRAY, p, 1, "a", "b");
    var r := Reconcile(WITH_STRAY, p);
    OnePairBoard(WITH_STRAY, p, 1, "a", "b");
    PairWaits(WITH_STRAY.(rows := r.bench.rows), p, r.bench.shm, r.bench.refOf);
  }

  lemma {:induction false} StrayCondemned(p: Pass, r: Result)
    requires p == DeferringPass() && r.consulted == [1] && r.plan.nodes.byKey.Keys == {Alone("a"), Alone("b")}
    requires ORPHAN in r.bench.rows && r.bench.rows[ORPHAN] == STRAY
    ensures Condemns(WITH_STRAY, p, r, ORPHAN) && RunsIn(r.bench.rows[ORPHAN], p.known)
  {
    hide Alone;
    DifferentShards("a", "z");
    DifferentShards("b", "z");
    assert p.reportAfter[1].windows == [];
  }

  /** The switch of wall 1 is deferred, so the wall has no line yet; destroying the orphan of wall 2 then also
      destroys the shards just created for wall 1, as nobody shows them. */
  lemma {:induction false} DeferredWallLosesShards(p: Pass)
    requires p == DeferringPass()
    ensures ValidPass(p)
    ensures var r := Reconcile(WITH_STRAY, p);
            && !r.stale && r.outcomes == map[1 := Deferred]
            && Alone("a") in r.plan.nodes.byKey && Alone("a") in r.bench.created && Alone("a") in r.bench.rows
            && Alone("a") !in r.state.rows
  {
    hide Second, First, SourceRules, Reconcile, BoardOf, PairPlan, Alone, Teardown, FallenIn, CarryOut, Condemns,
      RunsIn;
    DeferringBench(p);
    DeferringOutcome(p);
    PairIsPlanned(WITH_STRAY, p, 1, "a", "b");
    PairOutputs(1, "a", "b");
    var r := Reconcile(WITH_STRAY, p);
    BeforeTeardown(WITH_STRAY, p);
    StrayCondemned(p, r);
    FallsExactlyWhen(WITH_STRAY, p);
    DestroyedExactlyWhen(WITH_STRAY, p, Alone("a"));
    assert !ShownBy(r.bench.rows[Alone("a")], r.state.asm);
  }

  // ----- A shard destroyed while a wall reports that it reads it

  const READ := Alone("h")
  /** A shard of wall 1, in container 10. */
  const KEPT := Row(0, ShardKind, Given(10), Fab(READ), [1], Some((0, 0)), 2, 2, None)
  const WITH_BOTH := EMPTY.(rows := map[READ := KEPT, ORPHAN := STRAY], asm := {1})

  /** Wall 1 would get a single tile and is restored; it reports that it still reads its shard, and nobody
      reads that of wall 2. */
  function RestoringPass(): Pass {
    PassOver([Stack(1, "a", "b")], {}, 0)
    .(asksReport := true, reportAfter := map[1 := Report([Window(Fab(READ), 0, 0, 2, 2)], multiset{})],
      known := {10, 20})
  }

  lemma {:induction false} StackKey(v: nat, a: string, b: string)
    ensures Stack(v, a, b).key == v
  {
  }

  lemma {:induction false} NothingPlanned(maxCells: nat, rules: Rules)
    requires maxCells > 0
    ensures PlanOf([], maxCells, rules) == FabricPlan(Nodes(map[], []), map[])
  {
  }

  /** A pass over one assembler that gets a single tile. */
  lemma {:induction false} SoloPass(s: State, p: Pass, wall: Wall)
    requires ValidPass(p) && p.maxNodes == None && p.walls == [wall] && wall.key in s.asm
    requires Wanted(s.asm, p, wall) && TileCount([wall], wall, p.maxCells, p.rules) < 2
    ensures var r, t := Reconcile(s, p), Decided(s, p);
            && t.asm == s.asm - {wall.key} && SolosOf(s, p) == [wall.key]
            && r.heavy == [] && r.plan == FabricPlan(Nodes(map[], []), map[])
            && r == CarryOut(t, p, [], [wall.key], r.plan)
  {
    hide Wanted, TileCount, PlanOf, Select, Reconcile, CarryOut, DropSolos, SoloKeysUpTo, KeptUpTo;
    SelectsAll(s, p, 1);
    assert p.walls[..1] == [wall];
    NothingPlanned(p.maxCells, p.rules);
    OneSolo(s, wall, p.maxCells, p.rules);
    CarryOutHeavy(s, p);
    PassShape(s, p);
  }

  lemma {:induction false} OneSolo(s: State, wall: Wall, cells: nat, rules: Rules)
    requires cells > 0 && wall.key in s.asm && TileCount([wall], wall, cells, rules) < 2
    ensures DropSolos(s, [wall], cells, rules, 1).asm == s.asm - {wall.key}
    ensures SoloKeysUpTo(s, [wall], cells, rules, 1) == [wall.key] && KeptUpTo([wall], cells, rules, 1) == []
  {
    hide TileCount;
    assert DropSolos(s, [wall], cells, rules, 0) == s;
    assert SoloKeysUpTo(s, [wall], cells, rules, 0) == [] && KeptUpTo([wall], cells, rules, 0) == [];
  }

  /** When no wall is planned, steps 1 and 2 do nothing. */
  lemma {:induction false} NoWall(t: State, p: Pass, solos: seq<nat>)
    ensures var plan := FabricPlan(Nodes(map[], []), map[]);
            var r := CarryOut(t, p, [], solos, plan);
            && !r.stale && r.bench.rows == t.rows && r.outcomes == map[] && r.consulted == solos
            && SwitchAll(Board(t.(rows := r.bench.rows), map[], false), p, [], plan, r.bench.shm, r.bench.refOf, 0)
               == Board(t, map[], false)
  {
    hide FreedSlots, Teardown, FallenIn;
    assert Keys([]) + solos == solos;
    assert t.(rows := t.rows) == t;
  }

  lemma {:induction false} RestoringShape(p: Pass)
    requires p == RestoringPass()
    ensures ValidPass(p)
    ensures var r := Reconcile(WITH_BOTH, p);
            && !r.stale && r.plan.nodes.byKey == map[] && r.bench.rows == WITH_BOTH.rows && r.consulted == [1]
            && BoardOf(WITH_BOTH, p).state.asm == {}
  {
    hide TileCount, Stack, SourceRules, Wanted, Reconcile, CarryOut, Alone, RestoringPass;
    StackPlanned(1, "a", "b", 4);
    StackKey(1, "a", "b");
    RestoringWants(p);
    RestoringFields(p);
    SoloPass(WITH_BOTH, p, Stack(1, "a", "b"));
    NoWall(Decided(WITH_BOTH, p), p, [1]);
    PassShape(WITH_BOTH, p);
  }

  lemma {:induction false} RestoringFields(p: Pass)
    requires p == RestoringPass()
    ensures p.walls == [Stack(1, "a", "b")] && p.maxCells == 4 && p.minCells == 2 && p.maxNodes == None && p.scan == []
    ensures p.restorable == {} && p.rules == SourceRules() && p.known == {10, 20} && p.node == 0 && p.asksReport
  {
    hide SourceRules, Stack, Alone;
  }

  lemma {:induction false} RestoringWants(p: Pass)
    requires p == RestoringPass()
    ensures ValidPass(p) && Wanted({1}, p, Stack(1, "a", "b"))
  {
    hide VisibleCount, SourceRules, RestoringPass, Stack, TileCount, Saturated, Alone;
    RestoringFields(p);
    StackPlanned(1, "a", "b", 4);
    StackKey(1, "a", "b");
    assert DistinctKeys(p.walls);
  }

  lemma {:induction false} RestoringJudges(p: Pass, r: Result)
    requires p == RestoringPass() && r.consulted == [1] && r.plan.nodes.byKey == map[] && r.bench.rows == WITH_BOTH.rows
    ensures Condemns(WITH_BOTH, p, r, ORPHAN) && RunsIn(r.bench.rows[ORPHAN], p.known)
    ensures OrphanOf(r, p, READ) && Lists(p, 1, KEPT.shm) && !Condemns(WITH_BOTH, p, r, READ)
  {
    hide Alone;
    DifferentShards("h", "z");
    var windows := p.reportAfter[1].windows;
    assert windows[0] in windows && windows[0].path == Fab(READ);
    assert forall w :: w in windows ==> w.path == Fab(READ);
    assert MayBeRead(p, r.consulted, KEPT.shm) by {
      assert 1 in r.consulted;
    }
  }

  /** Wall 1 reports that it reads its former shard, which has never waited; destroying the orphan of wall 2
      destroys it all the same, as wall 1 is not an assembler any more. */
  lemma {:induction false} ReadShardDestroyed(p: Pass)
    requires p == RestoringPass()
    ensures ValidPass(p)
    ensures var r := Reconcile(WITH_BOTH, p);
            && !r.stale && 1 in r.consulted && READ in r.bench.rows && Lists(p, 1, r.bench.rows[READ].shm)
            && Count(WITH_BOTH.tear, READ) == 0 && READ !in r.state.rows
  {
    hide Reconcile, BoardOf, Alone, Teardown, FallenIn, CarryOut, Condemns, RunsIn, Lists;
    RestoringShape(p);
    var r := Reconcile(WITH_BOTH, p);
    RestoringJudges(p, r);
    BeforeTeardown(WITH_BOTH, p);
    FallsExactlyWhen(WITH_BOTH, p);
    DestroyedExactlyWhen(WITH_BOTH, p, READ);
    assert !ShownBy(r.bench.rows[READ], r.state.asm);
  }

  // ----- Two shards on one output

  const FORMAT := Format("422", 8, 25, false)

  /** A shard of wall 1 at a column, in the container and on the output made for some content. */
  function ShardRow(x: int, made: NodeSig): Row {
    Row(0, ShardKind, Named(made), Fab(made), [1], Some((x, 0)), 2, 2, Some(FORMAT))
  }

  /** Wall 1 shows `a` and `b`. */
  function CreatingPass(now: int): Pass {
    PassOver([Pair(1, "a", "b")], {1}, now)
  }

  /** It shows `c` instead of `a`, and the running shard takes the new content. */
  function RebindingPass(): Pass {
    PassOver([Pair(1, "c", "b")], {1}, 10).(canRebind := true, rebindOk := {Alone("c")},
                                            scan := [Alone("a"), Alone("b")])
  }

  /** It shows `a` again, instead of `b`, and the running shard does not take it. */
  function RefusingPass(): Pass {
    PassOver([Pair(1, "c", "a")], {1}, 20).(canRebind := true, scan := [Alone("c"), Alone("b")])
  }

  lemma {:induction false} ThreeShards()
    ensures Alone("a") != Alone("b") && Alone("a") != Alone("c") && Alone("b") != Alone("c")
  {
    DifferentShards("a", "b");
    DifferentShards("a", "c");
    DifferentShards("b", "c");
  }

  lemma {:induction false} CreatingBench(s: State, p: Pass)
    requires s.rows == map[] && p == CreatingPass(p.now)
    ensures var b := Second(p, 1, "a", "b", First(s, p, 1, "a", "b"));
            && !b.stale && b.rows == map[Alone("a") := ShardRow(0, Alone("a")), Alone("b") := ShardRow(2, Alone("b"))]
            && b.shm == map[Alone("a") := Fab(Alone("a")), Alone("b") := Fab(Alone("b"))]
  {
    hide SourceRules, Alone, FreedSlots, PairPlan, RowOf, NeededSlot, AloneNode, Materialise;
    ThreeShards();
    CreatesRow(p, "a", 0);
    CreatesRow(p, "b", 2);
    NewNode(PairStart(s, p, 1, "a", "b"), p, Alone("a"), AloneNode(1, "a"), [Place(1, 0, 0, 2, 2)]);
    NewNode(First(s, p, 1, "a", "b"), p, Alone("b"), AloneNode(1, "b"), [Place(1, 2, 0, 2, 2)]);
  }

  lemma {:induction false} CreatesRow(p: Pass, a: string, x: int)
    requires p == CreatingPass(p.now) || p == RebindingPass() || p == RefusingPass()
    ensures forall ref, shm ::
              RowOf(p, AloneNode(1, a), [Place(1, x, 0, 2, 2)], ref, shm)
                  == Row(0, ShardKind, ref, shm, [1], Some((x, 0)), 2, 2, Some(FORMAT))
    ensures NewRef(p, Alone(a)) == Named(Alone(a))
  {
    hide SourceRules, Alone;
  }

  /** The slot of the shard at the left. */
  function LeftSlot(): Slot {
    Slot(Place(1, 0, 0, 2, 2), FORMAT)
  }

  lemma {:induction false} LeftFreed(rows: map<NodeSig, Row>)
    requires rows == map[Alone("a") := ShardRow(0, Alone("a")), Alone("b") := ShardRow(2, Alone("b"))]
    ensures FreedSlots(rows, 0, {Alone("c"), Alone("b")}, [Alone("a"), Alone("b")]) == map[LeftSlot() := [Alone("a")]]
  {
    hide Alone;
    ThreeShards();
    var scan := [Alone("a"), Alone("b")];
    assert scan[..1] == [Alone("a")] && scan[..1][..0] == [];
    assert FreedSlots(rows, 0, {Alone("c"), Alone("b")}, []) == map[];
    assert FreedSlot(rows[Alone("a")], 0) == Some(LeftSlot());
    var none: map<Slot, seq<NodeSig>> := map[];
    assert Listed(none, LeftSlot()) + [Alone("a")] == [Alone("a")];
    assert [Alone("a")][..0] == [] && [Alone("a")][0] == Alone("a") && Alone("a") in rows
           && Alone("a") !in {Alone("c"), Alone("b")};
    assert FreedSlots(rows, 0, {Alone("c"), Alone("b")}, [Alone("a")]) == map[LeftSlot() := [Alone("a")]];
  }

  lemma {:induction false} RebindingStart(s: State)
    requires s.rows == map[Alone("a") := ShardRow(0, Alone("a")), Alone("b") := ShardRow(2, Alone("b"))]
    ensures var b := PairStart(s, RebindingPass(), 1, "c", "b");
            && !b.stale && b.rows == s.rows && b.rebound == map[] && b.slots == map[LeftSlot() := [Alone("a")]]
            && RebindingPass().rebindOk == {Alone("c")}
  {
    hide SourceRules, Alone, FreedSlots, PairPlan;
    LeftFreed(s.rows);
    PairOutputs(1, "c", "b");
  }

  lemma {:induction false} RebindingFirst(s: State)
    requires s.rows == map[Alone("a") := ShardRow(0, Alone("a")), Alone("b") := ShardRow(2, Alone("b"))]
    ensures var b := First(s, RebindingPass(), 1, "c", "b");
            && !b.stale && b.rebound == map[Alone("c") := Alone("a")]
            && b.rows == map[Alone("c") := ShardRow(0, Alone("a")), Alone("b") := ShardRow(2, Alone("b"))]
  {
    hide SourceRules, Alone, PairStart, RowOf, NeededSlot, AloneNode, Materialise, RebindingPass, LeftSlot;
    var p := RebindingPass();
    ThreeShards();
    RebindingStart(s);
    CreatesRow(p, "c", 0);
    NeedsLeft(p, "c");
    TakenNode(PairStart(s, p, 1, "c", "b"), p, Alone("c"), AloneNode(1, "c"), [Place(1, 0, 0, 2, 2)], LeftSlot(),
              Alone("a"));
  }

  lemma {:induction false} RebindingBench(s: State)
    requires s.rows == map[Alone("a") := ShardRow(0, Alone("a")), Alone("b") := ShardRow(2, Alone("b"))]
    ensures var p := RebindingPass();
            var b := Second(p, 1, "c", "b", First(s, p, 1, "c", "b"));
            && !b.stale && b.rebound == map[Alone("c") := Alone("a")]
            && b.rows == map[Alone("c") := ShardRow(0, Alone("a")), Alone("b") := ShardRow(2, Alone("b"))]
  {
    hide Alone, RebindingPass, First, Materialise, AloneNode, ShardRow;
    var p := RebindingPass();
    RebindingFirst(s);
    KeptNode(First(s, p, 1, "c", "b"), p, Alone("b"), AloneNode(1, "b"), [Place(1, 2, 0, 2, 2)]);
  }

  lemma {:induction false} NeedsLeft(p: Pass, a: string)
    requires p == RebindingPass()
    ensures NeededSlot(p, AloneNode(1, a), [Place(1, 0, 0, 2, 2)]) == Some(LeftSlot())
  {
    hide SourceRules, Alone;
  }

  lemma {:induction false} RefusingBench(s: State)
    requires s.rows == map[Alone("c") := ShardRow(0, Alone("a")), Alone("b") := ShardRow(2, Alone("b"))]
    ensures var p := RefusingPass();
            var b := Second(p, 1, "c", "a", First(s, p, 1, "c", "a"));
            && !b.stale && Alone("a") in b.created
            && b.rows == s.rows[Alone("a") := ShardRow(2, Alone("a"))]
  {
    hide SourceRules, Alone, FreedSlots, PairPlan, RowOf, NeededSlot, AloneNode, Materialise;
    ThreeShards();
    var p := RefusingPass();
    CreatesRow(p, "a", 2);
    KeptNode(PairStart(s, p, 1, "c", "a"), p, Alone("c"), AloneNode(1, "c"), [Place(1, 0, 0, 2, 2)]);
    NewNode(First(s, p, 1, "c", "a"), p, Alone("a"), AloneNode(1, "a"), [Place(1, 2, 0, 2, 2)]);
  }

  /** When rows have no container of their own, nothing falls, and planned rows stay. */
  lemma {:induction false} NoContainerFalls(s: State, p: Pass)
    requires ValidPass(p) && !Reconcile(s, p).stale
    requires forall sig :: sig in Reconcile(s, p).bench.rows ==> Reconcile(s, p).bench.rows[sig].ref.Named?
    ensures forall sig :: sig in Reconcile(s, p).plan.nodes.byKey && sig in Reconcile(s, p).bench.rows ==>
              sig in Reconcile(s, p).state.rows && Reconcile(s, p).state.rows[sig] == Reconcile(s, p).bench.rows[sig]
    ensures Reconcile(s, p).bench.rows.Keys <= Reconcile(s, p).plan.nodes.byKey.Keys ==>
              Reconcile(s, p).state.rows == Reconcile(s, p).bench.rows
  {
    hide Reconcile, MayBeRead, ValidPass, Count;
    FallsExactlyWhen(s, p);
    forall sig
      ensures sig in Reconcile(s, p).state.rows ==>
                sig in Reconcile(s, p).bench.rows && Reconcile(s, p).state.rows[sig] == Reconcile(s, p).bench.rows[sig]
      ensures sig in Reconcile(s, p).bench.rows && sig in Reconcile(s, p).plan.nodes.byKey ==>
                sig in Reconcile(s, p).state.rows
    {
      PassTears(s, p, sig);
    }
  }

  lemma {:induction false} NeverAbandoned(s: State, p: Pass, v: nat, a: string, b: string)
    requires PairPass(s, p, v, a, b) && p.rules == SourceRules() && !Reconcile(s, p).bench.stale && p.staleSwitch == {}
    ensures !Reconcile(s, p).stale
  {
    hide SourceRules, Reconcile, PairPass, AsmOf, PairOut, Silent, Apply, Skips, BoardOf;
    OnePairBoard(s, p, v, a, b);
  }

  /** A pass over two windows whose rows are known. */
  lemma {:induction false} PairRows(s: State, p: Pass, v: nat, a: string, b: string, bench: Bench)
    requires PairPass(s, p, v, a, b) && p.rules == SourceRules() && p.staleSwitch == {}
    requires bench == Second(p, v, a, b, First(s, p, v, a, b)) && !bench.stale
    requires forall sig :: sig in bench.rows ==> bench.rows[sig].ref.Named?
    ensures ValidPass(p)
    ensures var r := Reconcile(s, p);
            && !r.stale && r.bench == bench
            && (forall sig :: sig in {Alone(a), Alone(b)} && sig in bench.rows ==>
                  sig in r.state.rows && r.state.rows[sig] == bench.rows[sig])
            && (bench.rows.Keys <= {Alone(a), Alone(b)} ==> r.state.rows == bench.rows)
  {
    PairIsPlanned(s, p, v, a, b);
    PairOutputs(v, a, b);
    assert ValidPass(p);
    hide First, Second, PairPlan, Alone, Reconcile, SourceRules, CarryOut, PairPass, ValidPass;
    NeverAbandoned(s, p, v, a, b);
    NoContainerFalls(s, p);
  }

  ghost predicate CollidingRun(p1: Pass, p2: Pass, p3: Pass) {
    p1 == CreatingPass(0) && p2 == RebindingPass() && p3 == RefusingPass()
  }

  lemma {:induction false} RunFacts(p1: Pass, p2: Pass, p3: Pass, s: State)
    requires CollidingRun(p1, p2, p3)
    ensures PairPass(s, p1, 1, "a", "b") && PairPass(s, p2, 1, "c", "b") && PairPass(s, p3, 1, "c", "a")
    ensures p1 == CreatingPass(p1.now)
    ensures forall p :: p in [p1, p2, p3] ==> ValidPass(p) && p.staleSwitch == {} && p.rules == SourceRules()
  {
    hide VisibleCount, SourceRules, Alone;
    ThreeShards();
  }

  lemma {:induction false} RunRows(p1: Pass, p2: Pass, p3: Pass)
    requires CollidingRun(p1, p2, p3)
    ensures ValidPass(p1) && ValidPass(p2)
    ensures var s1 := Reconcile(EMPTY, p1).state;
            var r2 := Reconcile(s1, p2);
            && r2.bench.rebound == map[Alone("c") := Alone("a")]
            && r2.state.rows == map[Alone("c") := ShardRow(0, Alone("a")), Alone("b") := ShardRow(2, Alone("b"))]
  {
    hide PairPass, First, Second, PairPlan, Alone, Reconcile, SourceRules, CreatingPass, RebindingPass, RefusingPass,
      ValidPass;
    RunFacts(p1, p2, p3, EMPTY);
    CreatingBench(EMPTY, p1);
    PairRows(EMPTY, p1, 1, "a", "b", Second(p1, 1, "a", "b", First(EMPTY, p1, 1, "a", "b")));
    var s1 := Reconcile(EMPTY, p1).state;
    RunFacts(p1, p2, p3, s1);
    RebindingBench(s1);
    PairRows(s1, p2, 1, "c", "b", Second(p2, 1, "c", "b", First(s1, p2, 1, "c", "b")));
  }

  /** A run of three passes. The shard of `a` is created, then takes the content `c` and keeps the output named
      after `a`; when `a` is wanted again, at another place, and the rebind is refused, it is created on that
      same output while the first shard still writes to it. */
  lemma {:induction false} OutputsCollide(p1: Pass, p2: Pass, p3: Pass)
    requires CollidingRun(p1, p2, p3)
    ensures ValidPass(p1) && ValidPass(p2) && ValidPass(p3) && Alone("a") != Alone("c")
    ensures var s1 := Reconcile(EMPTY, p1).state;
            var s2 := Reconcile(s1, p2).state;
            var r := Reconcile(s2, p3);
            && !r.stale && Alone("a") in r.bench.created && Alone("a") in r.state.rows && Alone("c") in r.state.rows
            && r.state.rows[Alone("a")].shm == r.state.rows[Alone("c")].shm == Fab(Alone("a"))
            && !ShmDistinct(r.state.rows)
  {
    hide PairPass, First, Second, PairPlan, Alone, Reconcile, SourceRules, CreatingPass, RebindingPass, RefusingPass,
      ValidPass;
    ThreeShards();
    RunRows(p1, p2, p3);
    RunFacts(p1, p2, p3, EMPTY);
    var s2 := Reconcile(Reconcile(EMPTY, p1).state, p2).state;
    RunFacts(p1, p2, p3, s2);
    RefusingBench(s2);
    PairRows(s2, p3, 1, "c", "a", Second(p3, 1, "c", "a", First(s2, p3, 1, "c", "a")));
  }

  // ----- A wall left alone after it was restored

  /** Wall 1 is created and switched, then restored, then wanted again. */
  ghost predicate RestoringRun(p1: Pass, p2: Pass, p3: Pass) {
    && p1 == CreatingPass(0) && p2 == PassOver([Pair(1, "a", "b")], {}, 10).(restorable := {1})
       && p3 == CreatingPass(20)
  }

  lemma {:induction false} RestoringFacts(p1: Pass, p2: Pass, p3: Pass, s: State)
    requires RestoringRun(p1, p2, p3)
    ensures PairPass(s, p1, 1, "a", "b") && PairPass(s, p3, 1, "a", "b")
    ensures forall p :: p in [p1, p2, p3] ==>
              ValidPass(p) && p.staleSwitch == {} && p.rules == SourceRules() && !p.asksReport && p.maxNodes == None
                  && p.known == {}
    ensures p2.walls == [Pair(1, "a", "b")] && p2.restorable == {1} && p1.now == 0 && p3.now == 20 && p2.node == 0
    ensures !p1.asksReady && !p3.asksReady && p1 == CreatingPass(p1.now) && p3 == CreatingPass(p3.now)
  {
    hide VisibleCount, SourceRules, Alone;
    ThreeShards();
  }

  lemma {:induction false} NothingKnownFalls(s: State, p: Pass)
    requires ValidPass(p) && !Reconcile(s, p).stale && p.known == {}
    ensures Reconcile(s, p).fallen == {}
  {
    hide Reconcile, ValidPass, Condemns;
    FallsExactlyWhen(s, p);
  }

  lemma {:induction false} SwitchedAtOnce(t: State, p: Pass, v: nat, config: AsmConfig, refOf: map<Shm, Ref>)
    requires v !in t.pushed && !p.asksReport && !p.asksReady && p.staleSwitch == {}
    ensures OutcomeOf(t, p, v, config, refOf) == Switched && Silent(p, v, config, refOf) == {}
  {
  }

  /** A wall switched for the first time. */
  lemma {:induction false} FirstSwitch(s: State, p: Pass, v: nat, a: string, b: string)
    requires PairPass(s, p, v, a, b) && p.rules == SourceRules() && !Reconcile(s, p).bench.stale && p.staleSwitch == {}
    requires v !in s.pushed && !p.asksReport && !p.asksReady && p.known == {}
    ensures var r := Reconcile(s, p);
            && !r.stale && v in r.state.asm && v in r.state.pushed
            && r.state.pushed[v] == Push(AsmOf(PairOut(a, b), r.bench.shm), p.now)
  {
    assert ValidPass(p);
    hide SourceRules, Reconcile, PairPass, AsmOf, PairOut, BoardOf, FallenIn, OutcomeOf, Silent, ValidPass, TearAmong,
      CondemnedAmong;
    OnePairBoard(s, p, v, a, b);
    var bench := Reconcile(s, p).bench;
    SwitchedAtOnce(s.(rows := bench.rows), p, v, AsmOf(PairOut(a, b), bench.shm), bench.refOf);
    NothingKnownFalls(s, p);
    BeforeTeardown(s, p);
  }

  /** A restorable wall leaves nothing behind: with nobody asked, its rows are destroyed. */
  lemma {:induction false} RestoredAlone(s: State, p: Pass, wall: Wall)
    requires ValidPass(p) && p.walls == [wall] && wall.key in s.asm && wall.key in p.restorable && !p.asksReport
             && p.maxNodes == None
    requires forall sig :: sig in s.rows ==> s.rows[sig].node == p.node
    ensures !Reconcile(s, p).stale && Reconcile(s, p).state.rows == map[]
  {
    hide PlanOf, Select, Reconcile, CarryOut, DropSolos, SoloKeysUpTo, KeptUpTo, VisibleCount;
    var sel := Select(s, p, 1);
    RestorableIsNotWanted(s.asm, p, wall);
    SelectedWall(s, p, 1, 0);
    NoneHeavy(s, p);
    NothingPlanned(p.maxCells, p.rules);
    CarryOutHeavy(s, p);
    NoneKept(p.maxCells, p.rules);
    PassShape(s, p);
    NoWall(Decided(s, p), p, SolosOf(s, p));
    var r := Reconcile(s, p);
    forall sig
      ensures sig !in r.state.rows
    {
      PassTears(s, p, sig);
    }
  }

  lemma {:induction false} NoneHeavy(s: State, p: Pass)
    requires |p.walls| == 1 && !Wanted(s.asm, p, p.walls[0])
    ensures Select(s, p, 1).heavy == []
  {
    hide Wanted;
    assert Select(s, p, 0) == Selection(s, [], []);
  }

  lemma {:induction false} NoneKept(cells: nat, rules: Rules)
    requires cells > 0
    ensures Kept([], cells, rules) == []
  {
  }

  lemma {:induction false} RestoringRows(p1: Pass, p2: Pass, p3: Pass)
    requires RestoringRun(p1, p2, p3)
    ensures ValidPass(p1) && ValidPass(p2) && ValidPass(p3)
    ensures var r1 := Reconcile(EMPTY, p1);
            var r2 := Reconcile(r1.state, p2);
            && 1 in r1.state.asm && 1 in r1.state.pushed && !r2.stale && r2.state.rows == map[]
            && r1.state.pushed[1]
               == Push(AsmOf(PairOut("a", "b"), map[Alone("a") := Fab(Alone("a")), Alone("b") := Fab(Alone("b"))]), 0)
  {
    hide PairPass, First, Second, PairPlan, Alone, Reconcile, SourceRules, CreatingPass, ValidPass, AsmOf, PairOut;
    RestoringFacts(p1, p2, p3, EMPTY);
    CreatingBench(EMPTY, p1);
    PairRows(EMPTY, p1, 1, "a", "b", Second(p1, 1, "a", "b", First(EMPTY, p1, 1, "a", "b")));
    FirstSwitch(EMPTY, p1, 1, "a", "b");
    PairKey(1, "a", "b");
    RestoredAlone(Reconcile(EMPTY, p1).state, p2, Pair(1, "a", "b"));
  }

  /** A run of three passes that ask nothing of the walls. The last one wants the wall again twenty seconds after
      its first switch and creates its shards again, but leaves the wall alone, as it was restored. */
  lemma {:induction false} RestoredWallStaysRestored(p1: Pass, p2: Pass, p3: Pass)
    requires RestoringRun(p1, p2, p3)
    ensures ValidPass(p1) && ValidPass(p2) && ValidPass(p3)
    ensures var s1 := Reconcile(EMPTY, p1).state;
            var s2 := Reconcile(s1, p2).state;
            var r := Reconcile(s2, p3);
            && 1 in s1.asm && 1 !in s2.asm
            && !r.stale && r.heavy == [Pair(1, "a", "b")] && r.outcomes == map[1 := Skipped]
            && Alone("a") in r.state.rows && 1 !in r.state.asm && 1 in r.state.cmd && r.state.cmd[1] == Restore
  {
    hide PairPass, First, Second, PairPlan, Alone, Reconcile, SourceRules, CreatingPass, ValidPass, AsmOf, PairOut,
      OutcomeOf;
    RestoringRows(p1, p2, p3);
    var s1 := Reconcile(EMPTY, p1).state;
    var s2 := Reconcile(s1, p2).state;
    RestoringFacts(p1, p2, p3, s2);
    CreatingBench(s2, p3);
    PairRows(s2, p3, 1, "a", "b", Second(p3, 1, "a", "b", First(s2, p3, 1, "a", "b")));
    PairIsPlanned(s2, p3, 1, "a", "b");
    PairKey(1, "a", "b");
    OnePairBoard(s2, p3, 1, "a", "b");
    RestoredFirst(s1, p2, 0);
    RestoredWallLeftAlone(s1, p2, 0, p3);
    NothingKnownFalls(s1, p2);
    NothingKnownFalls(s2, p3);
    MemoryOfPass(s2, p3, 1);
  }

  // ----- A pass that never settles

  /** Wall 1 is both saturated and restorable. */
  function TornPass(): Pass {
    CreatingPass(0).(restorable := {1})
  }

  lemma {:induction false} TornFields(p: Pass)
    requires p == TornPass()
    ensures p.rules == SourceRules() && p.staleSwitch == {} && p.rebindOk == {} && p.staleCreate == {} && p.known == {}
    ensures !p.asksReport && !p.asksReady && p.restorable == {1} && p.walls == [Pair(1, "a", "b")] && p.maxCells == 4
    ensures p.scan == [] && p.maxNodes == None && p.minCells == 2 && Saturated(p, 1)
  {
    hide SourceRules, Pair;
    PassOverFacts([Pair(1, "a", "b")], {1}, 0, 1);
  }

  lemma {:induction false} TornFacts(p: Pass, s: State)
    requires p == TornPass() && 1 !in s.asm
    ensures PairPass(s, p, 1, "a", "b") && Torn(p, p.walls[0])
  {
    hide VisibleCount, SourceRules, TornPass, Saturated, Pair, TileCount, PlanOf;
    TornFields(p);
    PairKey(1, "a", "b");
    PairPlanned(1, "a", "b", 4);
  }

  lemma {:induction false} NeverStale(s: State, p: Pass, v: nat, a: string, b: string)
    requires p.staleCreate == {}
    ensures !Second(p, v, a, b, First(s, p, v, a, b)).stale
  {
    hide Alone, AloneNode, FreedSlots, NeededSlot, RowOf, PairPlan, NewRef;
  }

  /** The same pass, repeated, restores the wall, then switches it again: the wall changes at each pass. */
  lemma {:induction false} PassNeverSettles(p: Pass)
    requires p == TornPass()
    ensures ValidPass(p)
    ensures var r1 := Reconcile(EMPTY.(asm := {1}), p);
            var r2 := Reconcile(r1.state, p);
            var r3 := Reconcile(r2.state, p);
            1 !in r1.state.asm && 1 in r2.state.asm && 1 !in r3.state.asm
  {
    hide PairPass, First, Second, PairPlan, Alone, Reconcile, SourceRules, CreatingPass, TornPass, PairOut, AsmOf,
      CarryOut;
    TornFields(p);
    TornFacts(p, EMPTY);
    PairKey(1, "a", "b");
    assert ValidPass(p) by {
      PairIsValid(EMPTY, p);
    }
    var s0 := EMPTY.(asm := {1});
    RestoredFirst(s0, p, 0);
    var s1 := Reconcile(s0, p).state;
    TornFacts(p, s1);
    PairIsPlanned(s1, p, 1, "a", "b");
    NeverStale(s1, p, 1, "a", "b");
    FirstSwitch(s1, p, 1, "a", "b");
    RestoredFirst(Reconcile(s1, p).state, p, 0);
  }

  lemma {:induction false} PairIsValid(s: State, p: Pass)
    requires PairPass(s, p, 1, "a", "b")
    ensures ValidPass(p)
  {
  }

  // ----- A merge that the next pass undoes

  /** Wall 1 shows five windows in a row and is saturated; wall 2, an assembler that is not, has two windows at one
      place. Groups have two windows, and the machine holds two nodes. */
  function MergingPass(): Pass {
    PassOver([ROW, PILE], {1}, 0).(maxCells := 2, maxNodes := Some(2))
  }

  const WITH_PILE := EMPTY.(asm := {2})

  lemma {:induction false} MergingFields(p: Pass)
    requires p == MergingPass()
    ensures p.walls == [ROW, PILE] && p.maxCells == 2 && p.minCells == 2 && p.maxNodes == Some(2) && p.scan == []
    ensures p.restorable == {} && p.rules == SourceRules() && p.staleCreate == {} && p.staleSwitch == {} && !p.canRebind
    ensures Saturated(p, 1) && !Saturated(p, 2) && p.known == {}
  {
    PassOverFacts([ROW, PILE], {1}, 0, 1);
    hide SourceRules;
  }

  lemma {:induction false} RowAndPile()
    ensures ROW.key == 1 && PILE.key == 2 && ROW.style != PILE.style && ROW.overlays == [] && PILE.overlays == []
    ensures DistinctKeys([ROW, PILE]) && DistinctKeys([ROW])
  {
  }

  lemma {:induction false} MergingWants(p: Pass, asm: set<nat>)
    requires p == MergingPass()
    ensures ValidPass(p) && Wanted(asm, p, ROW) && (Wanted(asm, p, PILE) <==> 2 in asm)
  {
    MergingFields(p);
    RowAndPile();
    RowCells();
    forall sig {
      OtherStyle(ROW, PILE, sig);
    }
    PileTileCount([ROW, PILE], 2);
    hide VisibleCount, SourceRules, MergingPass, Saturated, TileCount, Shared, Elements, Cells, RowElems;
  }

  lemma {:induction false} KeptFirst(u: Wall, v: Wall, cells: nat, rules: Rules)
    requires cells > 0 && TileCount([u, v], u, cells, rules) >= 2 && TileCount([u, v], v, cells, rules) < 2
    ensures Kept([u, v], cells, rules) == [u]
  {
    hide TileCount;
    assert KeptUpTo([u, v], cells, rules, 0) == [];
    assert KeptUpTo([u, v], cells, rules, 1) == [u];
  }

  lemma {:induction false} KeptOnly(u: Wall, cells: nat, rules: Rules)
    requires cells > 0 && TileCount([u], u, cells, rules) >= 2
    ensures Kept([u], cells, rules) == [u]
  {
    hide TileCount;
    assert KeptUpTo([u], cells, rules, 0) == [];
  }

  /** The first pass plans wall 1 alone, with the initial size of groups. */
  lemma {:induction false} MergingFirst(p: Pass)
    requires p == MergingPass()
    ensures ValidPass(p) && WallsFor(WITH_PILE, p) == [ROW] && PlanFor(WITH_PILE, p) == PlanOf([ROW], 2, SourceRules())
    ensures 2 !in Reconcile(WITH_PILE, p).state.asm
  {
    MergingFields(p);
    RowAndPile();
    hide MergingPass, Wanted, TileCount, Select, Reconcile, PlanOf, SourceRules, Grow, Saturated, Shared, VisibleCount,
      KeptUpTo;
    MergingWants(p, {2});
    SelectsAll(WITH_PILE, p, 2);
    assert p.walls[..2] == [ROW, PILE];
    var cells := MergedCells(p, [ROW, PILE]);
    forall sig {
      OtherStyle(ROW, PILE, sig);
    }
    RowTileCount([ROW, PILE], cells);
    PileTileCount([ROW, PILE], cells);
    KeptFirst(ROW, PILE, cells, SourceRules());
    LeavesExactlyWhen(WITH_PILE, p, 1);
  }

  lemma {:induction false} RowAlone()
    ensures forall sig :: !Shared([ROW], sig)
  {
    RowAndPile();
    forall sig {
      OtherStyle(ROW, PILE, sig);
    }
  }

  lemma {:induction false} RowNodes(cells: nat)
    requires cells >= 2
    ensures var e, nodes := RowElems(), PlanOf([ROW], cells, SourceRules()).nodes.byKey;
            && (forall sig :: sig in nodes
                 <==> sig == RegionOf(e[..2], PLAIN)
                      || (cells == 2 && (sig == RegionOf(e[2..3], PLAIN) || sig == RegionOf(e[3..], PLAIN)))
                      || (cells != 2 && sig == RegionOf(e[2..], PLAIN)))
  {
    hide RowElems, RegionOf, SourceRules, PlanOf, Shared, Tiles;
    FiveElems();
    RowAlone();
    RowSigs([ROW], cells);
    var tiles := Tiles([ROW], ROW, cells, SourceRules());
    forall sig
      ensures sig in PlanOf([ROW], cells, SourceRules()).nodes.byKey
              <==> exists k :: 0 <= k < |tiles| && tiles[k].sig == sig
    {
      NodesAreShown([ROW], cells, SourceRules(), sig);
      if exists k :: 0 <= k < |tiles| && tiles[k].sig == sig {
        assert ShownInWall([ROW], cells, SourceRules(), 0, sig);
      }
    }
  }

  lemma {:induction false} RowNodeCount()
    ensures NodeCount([ROW], 2, SourceRules()) == 3 && NodeCount([ROW], 4, SourceRules()) == 2
  {
    hide RowElems, RegionOf, SourceRules, PlanOf;
    FiveElems();
    RowNodes(2);
    RowNodes(4);
    RowSizes();
    var e := RowElems();
    assert PlanOf([ROW], 2, SourceRules()).nodes.byKey.Keys
           == {RegionOf(e[..2], PLAIN), RegionOf(e[2..3], PLAIN), RegionOf(e[3..], PLAIN)};
    assert PlanOf([ROW], 4, SourceRules()).nodes.byKey.Keys == {RegionOf(e[..2], PLAIN), RegionOf(e[2..], PLAIN)};
  }

  /** The same pass, repeated, wants wall 1 only, and merges it. */
  lemma {:induction false} MergingNext(p: Pass, t: State)
    requires p == MergingPass() && 2 !in t.asm
    ensures ValidPass(p) && WallsFor(t, p) == [ROW] && PlanFor(t, p) == PlanOf([ROW], 4, SourceRules())
  {
    MergingFields(p);
    RowAndPile();
    hide MergingPass, Wanted, TileCount, Select, Reconcile, PlanOf, SourceRules, Saturated, Shared, VisibleCount,
      KeptUpTo, NodeCount;
    MergingWants(p, t.asm);
    assert Select(t, p, 0).heavy == [] by {
      SelectNone(t, p);
    }
    SelectNext(t, p, 1);
    SelectNext(t, p, 2);
    assert HeavyOf(t, p) == [ROW];
    RowNodeCount();
    assert MergedCells(p, [ROW]) == 4;
    RowAlone();
    RowTileCount([ROW], 4);
    KeptOnly(ROW, 4, SourceRules());
  }

  /** The first pass drops wall 2 and plans wall 1 with the initial size of groups, as three shards; the same pass
      again, which has wall 1 only to plan, merges it to two, and creates one. */
  lemma {:induction false} MergeUndone(p: Pass)
    requires p == MergingPass()
    ensures ValidPass(p)
    ensures var r1 := Reconcile(WITH_PILE, p);
            var r2 := Reconcile(r1.state, p);
            && !r1.stale && !r2.stale && r1.heavy == [ROW] && r2.heavy == [ROW]
            && |r1.plan.nodes.byKey| == 3 && |r2.plan.nodes.byKey| == 2
            && RegionOf(RowElems()[2..], PLAIN) in r2.bench.created && !AtRest(r1.state, p)
  {
    hide MergingPass, Reconcile, PlanOf, SourceRules, RowElems, RegionOf, Kept;
    MergingFields(p);
    MergingFirst(p);
    FiveElems();
    var t := Reconcile(WITH_PILE, p).state;
    MergingNext(p, t);
    Completes(WITH_PILE, p);
    Completes(t, p);
    WallsForIs(WITH_PILE, p);
    WallsForIs(t, p);
    RowNodeCount();
    RowNodes(2);
    RowNodes(4);
    RowSizes();
    var sig := RegionOf(RowElems()[2..], PLAIN);
    NotYetThere(WITH_PILE, p, sig);
    MissingIsCreated(t, p, sig);
  }

  lemma {:induction false} NotYetThere(s: State, p: Pass, sig: NodeSig)
    requires ValidPass(p) && !Reconcile(s, p).stale && s.rows == map[] && sig !in Reconcile(s, p).plan.nodes.byKey
    ensures sig !in Reconcile(s, p).state.rows
  {
    hide Reconcile, MayBeRead, ValidPass;
    PassTears(s, p, sig);
    if sig in Reconcile(s, p).bench.rows {
      BenchRowIsOldOrPlanned(s, p, sig);
    }
  }

  /** Without rebinding, a planned node that is not registered is created. */
  lemma {:induction false} MissingIsCreated(s: State, p: Pass, sig: NodeSig)
    requires ValidPass(p) && p.staleCreate == {} && !p.canRebind
    requires sig in Reconcile(s, p).plan.nodes.byKey && sig !in s.rows
    ensures sig in Reconcile(s, p).bench.created
  {
    hide Reconcile, BenchOf, Decided, SolosOf, AllNodes, Places;
    var r, t := Reconcile(s, p), Decided(s, p);
    PassShape(s, p);
    CarryOutHeavy(s, p);
    NodesListedOnce(r.heavy, FinalCells(p, HeavyOf(s, p), MergedCells(p, HeavyOf(s, p))), p.rules, |r.heavy|);
    CreatedExactly(t, p, r.heavy, r.plan);
    var k: nat :| k < |r.plan.nodes.order| && r.plan.nodes.order[k] == sig;
    assert Lacks(t, p, r.heavy, r.plan, k);
    assert NoneStale(t, p, r.heavy, r.plan, k + 1);
  }
}
