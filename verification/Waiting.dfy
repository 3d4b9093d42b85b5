/** Deferred switches and deferred teardown, over whole runs (app/compositor_fabric.py:1039-1144). */
module Waiting {
  import opened Collections
  import opened Signatures
  import opened Plan
  import opened Elimination
  import opened Fabric
  import opened Lines
  import opened Orchestrator
  import opened Rebinding
  import opened Wiring
  import opened Assemblers

  // ----- The shape of a pass

  /** The state once it is decided which walls are assemblers. */
  function Decided(s: State, p: Pass): State
    requires p.maxCells > 0
  {
    var sel := Select(s, p, |p.walls|);
    DropSolos(sel.state, sel.heavy, MergedCells(p, sel.heavy), p.rules, |sel.heavy|)
  }

  function SolosOf(s: State, p: Pass): seq<nat>
    requires p.maxCells > 0
  {
    var sel := Select(s, p, |p.walls|);
    SoloKeys(sel.state, sel.heavy, MergedCells(p, sel.heavy), p.rules)
  }

  lemma {:induction false} SelectKeepsRest(s: State, p: Pass, n: nat)
    requires n <= |p.walls|
    ensures var t := Select(s, p, n).state; t.rows == s.rows && t.tear == s.tear && t.deferred == s.deferred
  {
    hide Wanted;
    if n > 0 {
      SelectKeepsRest(s, p, n - 1);
    }
  }

  lemma {:induction false} DropKeepsRest(s: State, walls: seq<Wall>, cells: nat, rules: Rules, n: nat)
    requires cells > 0 && n <= |walls|
    ensures var t := DropSolos(s, walls, cells, rules, n);
            t.rows == s.rows && t.tear == s.tear && t.deferred == s.deferred
  {
    hide TileCount;
    if n > 0 {
      DropKeepsRest(s, walls, cells, rules, n - 1);
    }
  }

  lemma {:induction false} PassShape(s: State, p: Pass)
    requires ValidPass(p)
    ensures var r, t := Reconcile(s, p), Decided(s, p);
            && t.rows == s.rows && t.tear == s.tear && t.deferred == s.deferred
            && r == CarryOut(t, p, r.heavy, SolosOf(s, p), r.plan)
            && r.bench == BenchOf(t, p, r.heavy, r.plan)
            && DistinctKeys(r.heavy)
  {
    hide MaterialiseAll, SwitchAll, Teardown, Keys, Select, DropSolos, KeptUpTo, SoloKeys, PlanOf, MergedCells;
    SelectKeepsRest(s, p, |p.walls|);
    SelectedDistinct(s, p, |p.walls|);
    var sel := Select(s, p, |p.walls|);
    var cells := MergedCells(p, sel.heavy);
    DropKeepsRest(sel.state, sel.heavy, cells, p.rules, |sel.heavy|);
    KeptDistinct(sel.heavy, cells, p.rules, |sel.heavy|);
    CarryOutHeavy(s, p);
  }

  // ----- Deferred switches

  function OutcomeIn(r: Result, v: nat): Option<Outcome> {
    if v in r.outcomes then Some(r.outcomes[v]) else None
  }

  /** What an outcome does to the counter of the wall. */
  predicate Counted(before: nat, after: nat, o: Option<Outcome>) {
    match o
    case None => after == before
    case Some(Skipped) => after == before
    case Some(Deferred) => after == before + 1 && before < DEFER_MAX
    case Some(Switched) => after == 0
    case Some(Abandoned) => after <= before
  }

  lemma {:induction false} ApplyCounts(s: State, p: Pass, v: nat, asm: AsmConfig, refOf: map<Shm, Ref>, u: nat)
    ensures var o := OutcomeOf(s, p, v, asm, refOf);
            var t := Apply(s, p, v, asm, Silent(p, v, asm, refOf), o);
            && Counted(Count(s.deferred, v), Count(t.deferred, v), Some(o))
            && (u != v ==> Count(t.deferred, u) == Count(s.deferred, u))
            && t.rows == s.rows && t.tear == s.tear
  {
  }

  lemma {:induction false} SwitchCounts(b: Board, p: Pass, walls: seq<Wall>, plan: FabricPlan, shm: map<NodeSig, Shm>,
                                        refOf: map<Shm, Ref>, n: nat, v: nat)
    requires n <= |walls| && DistinctKeys(walls) && b.outcomes == map[]
    ensures var c := SwitchAll(b, p, walls, plan, shm, refOf, n);
            && Counted(Count(b.state.deferred, v), Count(c.state.deferred, v),
                       if v in c.outcomes then Some(c.outcomes[v]) else None)
            && (v in c.outcomes ==> exists j :: 0 <= j < n && walls[j].key == v)
            && c.state.rows == b.state.rows && c.state.tear == b.state.tear
  {
    hide OutcomeOf, Apply, AsmOf, Silent, Count, Counted;
    if n == 0 {
      SameCount(Count(b.state.deferred, v));
    } else {
      var c := SwitchAll(b, p, walls, plan, shm, refOf, n - 1);
      SwitchCounts(b, p, walls, plan, shm, refOf, n - 1, v);
      var u := walls[n - 1].key;
      if !c.stale && u in plan.outputs {
        var config := AsmOf(plan.outputs[u], shm);
        ApplyCounts(c.state, p, u, config, refOf, v);
        if u == v {
          assert v !in c.outcomes by {
            assert forall j :: 0 <= j < n - 1 ==> walls[j].key != v;
          }
          NoneCounted(Count(b.state.deferred, v), Count(c.state.deferred, v));
        }
      }
    }
  }

  lemma {:induction false} SameCount(n: nat)
    ensures Counted(n, n, None)
  {
  }

  lemma {:induction false} NoneCounted(before: nat, after: nat)
    requires Counted(before, after, None)
    ensures after == before
  {
  }

  /** One pass counts the deferrals of each wall. */
  lemma {:induction false} PassCounts(s: State, p: Pass, v: nat)
    requires ValidPass(p)
    ensures var r := Reconcile(s, p);
            Counted(Count(s.deferred, v), Count(r.state.deferred, v), OutcomeIn(r, v))
  {
    hide MaterialiseAll, SwitchAll, CondemnedAmong, PostponedAmong, Keys, Select, DropSolos, SoloKeys, Count, Counted,
      Reconcile,
      StartBench;
    PassShape(s, p);
    var r, t := Reconcile(s, p), Decided(s, p);
    SwitchCounts(Board(t.(rows := r.bench.rows), map[], false), p, r.heavy, r.plan, r.bench.shm, r.bench.refOf,
                 |r.heavy|, v);
    SameCount(Count(s.deferred, v));
  }

  ghost predicate AllValid(ps: seq<Pass>) {
    forall i :: 0 <= i < |ps| ==> ValidPass(ps[i])
  }

  /** What the `i`-th pass of a run did to a wall. */
  function OutcomeAt(s: State, ps: seq<Pass>, i: nat, v: nat): Option<Outcome>
    requires i < |ps| && forall j :: 0 <= j < |ps| ==> ValidPass(ps[j])
  {
    OutcomeIn(Reconcile(After(s, ps, i), ps[i]), v)
  }

  /** How many of the passes from `m` to `n` deferred the wall. */
  function Deferrals(s: State, ps: seq<Pass>, v: nat, m: nat, n: nat): nat
    requires m <= n <= |ps| && forall j :: 0 <= j < |ps| ==> ValidPass(ps[j])
  {
    if n == m then 0 else
    Deferrals(s, ps, v, m, n - 1) + (if OutcomeAt(s, ps, n - 1, v) == Some(Deferred) then 1 else 0)
  }

  lemma {:induction false} NextPass(s: State, ps: seq<Pass>, i: nat, v: nat)
    requires i < |ps| && AllValid(ps)
    ensures Counted(Count(After(s, ps, i).deferred, v), Count(After(s, ps, i + 1).deferred, v), OutcomeAt(s, ps, i, v))
  {
    hide Reconcile, ValidPass, OutcomeIn, Counted, Count;
    PassCounts(After(s, ps, i), ps[i], v);
  }

  lemma {:induction false} CountBounded(s: State, ps: seq<Pass>, n: nat, v: nat)
    requires n <= |ps| && AllValid(ps) && Count(s.deferred, v) <= DEFER_MAX
    ensures Count(After(s, ps, n).deferred, v) <= DEFER_MAX
  {
    hide Reconcile, ValidPass, OutcomeAt, Count;
    if n > 0 {
      CountBounded(s, ps, n - 1, v);
      NextPass(s, ps, n - 1, v);
    }
  }

  /** The wall is neither switched nor given up from pass `m` to pass `n`. */
  ghost predicate NotReleased(s: State, ps: seq<Pass>, v: nat, m: nat, n: nat)
    requires m <= n <= |ps| && AllValid(ps)
  {
    forall i :: m <= i < n ==> OutcomeAt(s, ps, i, v) != Some(Switched) && OutcomeAt(s, ps, i, v) != Some(Abandoned)
  }

  lemma {:induction false} DeferralsCounted(s: State, ps: seq<Pass>, v: nat, m: nat, n: nat)
    requires m <= n <= |ps| && AllValid(ps) && NotReleased(s, ps, v, m, n)
    ensures Count(After(s, ps, n).deferred, v) == Count(After(s, ps, m).deferred, v) + Deferrals(s, ps, v, m, n)
  {
    hide Reconcile, ValidPass, OutcomeAt, Count, After;
    if n > m {
      assert OutcomeAt(s, ps, n - 1, v) != Some(Switched) && OutcomeAt(s, ps, n - 1, v) != Some(Abandoned);
      DeferralsCounted(s, ps, v, m, n - 1);
      NextPass(s, ps, n - 1, v);
    }
  }

  /** No starvation: over any stretch of any run in which a wall is neither switched nor given up by an
      abandoned pass, its switch is deferred at most `DEFER_MAX` times, even with passes in between that
      leave it alone or do not reach it. */
  lemma {:induction false} FewDeferrals(s: State, ps: seq<Pass>, v: nat, m: nat, n: nat)
    requires m <= n <= |ps| && AllValid(ps) && NotReleased(s, ps, v, m, n) && Count(s.deferred, v) <= DEFER_MAX
    ensures Deferrals(s, ps, v, m, n) <= DEFER_MAX
  {
    hide Reconcile, ValidPass, OutcomeAt, Count, After, NotReleased, Deferrals;
    CountBounded(s, ps, n, v);
    DeferralsCounted(s, ps, v, m, n);
  }

  /** So a wall that wants to change over three passes, none of them abandoned at it, is switched. */
  lemma {:induction false} SwitchedInTime(s: State, ps: seq<Pass>, v: nat, m: nat)
    requires m + DEFER_MAX < |ps| && AllValid(ps) && Count(s.deferred, v) <= DEFER_MAX
    requires forall i :: m <= i <= m + DEFER_MAX ==>
               OutcomeAt(s, ps, i, v) == Some(Deferred) || OutcomeAt(s, ps, i, v) == Some(Switched)
    ensures exists i :: m <= i <= m + DEFER_MAX && OutcomeAt(s, ps, i, v) == Some(Switched)
  {
    hide Reconcile, ValidPass, OutcomeAt, Count, After;
    if forall i :: m <= i <= m + DEFER_MAX ==> OutcomeAt(s, ps, i, v) != Some(Switched) {
      AllDeferred(s, ps, v, m, m + DEFER_MAX + 1);
      FewDeferrals(s, ps, v, m, m + DEFER_MAX + 1);
    }
  }

  lemma {:induction false} AllDeferred(s: State, ps: seq<Pass>, v: nat, m: nat, n: nat)
    requires m <= n <= |ps| && AllValid(ps)
    requires forall i :: m <= i < n ==> OutcomeAt(s, ps, i, v) == Some(Deferred)
    ensures Deferrals(s, ps, v, m, n) == n - m
  {
    hide Reconcile, ValidPass, OutcomeAt, After;
    if n > m {
      AllDeferred(s, ps, v, m, n - 1);
    }
  }

  // ----- Deferred teardown

  /** The wall reports windows, and one of them reads this output. */
  predicate Lists(p: Pass, v: nat, shm: Shm) {
    v in p.reportAfter && exists w :: w in p.reportAfter[v].windows && w.path == shm
  }

  lemma {:induction false} PathsMember(windows: seq<Window>, shm: Shm)
    ensures shm in PathsOf(windows) <==> exists w :: w in windows && w.path == shm
  {
    if windows != [] {
      PathsMember(windows[1..], shm);
      assert forall w :: w in windows <==> w == windows[0] || w in windows[1..];
      assert windows[0] in windows;
    }
  }

  lemma {:induction false} ReadMember(p: Pass, consulted: seq<nat>, shm: Shm)
    ensures shm in Read(p, consulted) <==> exists v :: v in consulted && Lists(p, v, shm)
    ensures Unreadable(p, consulted) <==> exists v :: v in consulted && v !in p.reportAfter
  {
    hide PathsOf;
    if consulted != [] {
      ReadMember(p, consulted[1..], shm);
      var v := consulted[0];
      assert forall u :: u in consulted <==> u == v || u in consulted[1..];
      if v in p.reportAfter {
        PathsMember(p.reportAfter[v].windows, shm);
        assert shm in PathsOf(p.reportAfter[v].windows) <==> Lists(p, v, shm);
      }
      assert v in consulted;
    }
  }

  /** A planned wall or one just restored may still read the output, as far as the pass can tell. */
  predicate MayBeRead(p: Pass, consulted: seq<nat>, shm: Shm) {
    exists v :: v in consulted && (v !in p.reportAfter || Lists(p, v, shm))
  }

  /** The row belongs to the machine of the pass and is not in the plan. */
  predicate OrphanOf(r: Result, p: Pass, sig: NodeSig)
    requires sig in r.bench.rows
  {
    r.bench.rows[sig].node == p.node && sig !in r.plan.nodes.byKey
  }

  /** The row goes with the containers that fall: it runs in one of them, or no wall recorded as its parent is
      an assembler any more. */
  predicate Dragged(r: Result, sig: NodeSig)
    requires sig in r.bench.rows
  {
    r.fallen != {} && (RunsIn(r.bench.rows[sig], r.fallen) || !ShownBy(r.bench.rows[sig], r.state.asm))
  }

  lemma {:induction false} PassTears(s: State, p: Pass, sig: NodeSig)
    requires ValidPass(p) && !Reconcile(s, p).stale
    ensures var r := Reconcile(s, p);
            && (sig in r.state.rows ==> sig in r.bench.rows && r.state.rows[sig] == r.bench.rows[sig])
            && (sig in r.bench.rows ==>
                 var waits := p.asksReport && MayBeRead(p, r.consulted, r.bench.rows[sig].shm)
                     && Count(s.tear, sig) < TEARDOWN_MAX;
                 && (sig !in r.state.rows <==> (OrphanOf(r, p, sig) && !waits) || Dragged(r, sig))
                 && Count(r.state.tear, sig) == (if OrphanOf(r, p, sig) then if waits then Count(s.tear, sig) + 1 else 0
                                                 else Count(s.tear, sig)))
            && (sig !in r.bench.rows ==> Count(r.state.tear, sig) == Count(s.tear, sig))
  {
    hide MaterialiseAll, SwitchAll, Keys, Select, DropSolos, SoloKeys, Count, Reconcile, StartBench, Teardown,
      FallenIn, ShownBy,
      Lists, MayBeRead;
    var r, board := Reconcile(s, p), BoardOf(s, p);
    BeforeTeardown(s, p);
    TearsOne(board.state, p, r.plan.nodes.byKey.Keys, r.consulted, sig);
  }

  /** What step 2 leaves. */
  function BoardOf(s: State, p: Pass): Board
    requires ValidPass(p)
  {
    var r := Reconcile(s, p);
    SwitchAll(Board(Decided(s, p).(rows := r.bench.rows), map[], false), p, r.heavy, r.plan, r.bench.shm,
              r.bench.refOf, |r.heavy|)
  }

  lemma {:induction false} BeforeTeardown(s: State, p: Pass)
    requires ValidPass(p) && !Reconcile(s, p).stale
    ensures var r, t, want := Reconcile(s, p), BoardOf(s, p).state, Reconcile(s, p).plan.nodes.byKey.Keys;
            && t.rows == r.bench.rows && t.tear == s.tear
            && r.state == Teardown(t, p, want, r.consulted) && r.fallen == FallenIn(t, p, want, r.consulted)
            && r.state.asm == t.asm - r.fallen
  {
    hide MaterialiseAll, SwitchAll, Keys, Select, DropSolos, SoloKeys, Count, Reconcile, StartBench, FallenIn,
      TearAmong,
      CondemnedAmong, ShownBy;
    PassShape(s, p);
    var r, t := Reconcile(s, p), Decided(s, p);
    SwitchCounts(Board(t.(rows := r.bench.rows), map[], false), p, r.heavy, r.plan, r.bench.shm, r.bench.refOf,
                 |r.heavy|, 0);
  }

  lemma {:induction false} TearsOne(s: State, p: Pass, want: set<NodeSig>, consulted: seq<nat>, sig: NodeSig)
    ensures var t, fallen := Teardown(s, p, want, consulted), FallenIn(s, p, want, consulted);
            && (sig in t.rows ==> sig in s.rows && t.rows[sig] == s.rows[sig])
            && (sig in s.rows ==>
                 var orphan := s.rows[sig].node == p.node && sig !in want;
                 var waits := p.asksReport && MayBeRead(p, consulted, s.rows[sig].shm)
                     && Count(s.tear, sig) < TEARDOWN_MAX;
                 && (sig !in t.rows
                     <==> || (orphan && !waits)
                          || (fallen != {} && (RunsIn(s.rows[sig], fallen) || !ShownBy(s.rows[sig], s.asm - fallen))))
                 && Count(t.tear, sig)
                    == (if orphan then if waits then Count(s.tear, sig) + 1 else 0 else Count(s.tear, sig)))
            && (sig !in s.rows ==> Count(t.tear, sig) == Count(s.tear, sig))
  {
    hide Read, Unreadable, Lists, Condemned, Postponed, FallenIn, ShownBy, RunsIn;
    if sig in s.rows {
      RowDecision(s, p, want, consulted, sig);
      ReadMember(p, consulted, s.rows[sig].shm);
      NotBothWays(s, p, want, consulted, sig);
    }
  }

  lemma {:induction false} NotBothWays(s: State, p: Pass, want: set<NodeSig>, consulted: seq<nat>, sig: NodeSig)
    ensures !(Condemned(s, p, want, consulted, sig) && Postponed(s, p, want, consulted, sig))
  {
  }

  /** A row that step 3 destroys for itself: it left the plan, and either walls are not asked, or every
      consulted wall reports its state and none reads the output, or it has already waited enough. */
  predicate Condemns(s: State, p: Pass, r: Result, sig: NodeSig)
    requires sig in r.bench.rows
  {
    && OrphanOf(r, p, sig)
    && (!p.asksReport || !MayBeRead(p, r.consulted, r.bench.rows[sig].shm) || Count(s.tear, sig) >= TEARDOWN_MAX)
  }

  /** A completed pass removes a row exactly when it condemns it, or when some container falls and the row
      runs in one that falls or has no assembler left among its recorded parents. */
  lemma {:induction false} DestroyedExactlyWhen(s: State, p: Pass, sig: NodeSig)
    requires ValidPass(p) && !Reconcile(s, p).stale && sig in Reconcile(s, p).bench.rows
    ensures var r := Reconcile(s, p);
            sig !in r.state.rows <==> Condemns(s, p, r, sig) || Dragged(r, sig)
  {
    hide Reconcile, OrphanOf, MayBeRead, Count, ValidPass, Dragged;
    PassTears(s, p, sig);
  }

  lemma {:induction false} CondemnedRow(s: State, p: Pass, sig: NodeSig)
    requires ValidPass(p) && !Reconcile(s, p).stale && sig in Reconcile(s, p).bench.rows
    ensures var r := Reconcile(s, p);
            Condemned(BoardOf(s, p).state, p, r.plan.nodes.byKey.Keys, r.consulted, sig) <==> Condemns(s, p, r, sig)
  {
    hide Reconcile, Read, Unreadable, Lists, Teardown, FallenIn, Count, BoardOf, Condemned;
    var r, t := Reconcile(s, p), BoardOf(s, p).state;
    BeforeTeardown(s, p);
    RowDecision(t, p, r.plan.nodes.byKey.Keys, r.consulted, sig);
    ReadMember(p, r.consulted, r.bench.rows[sig].shm);
  }

  /** Some container falls exactly when a condemned row has a known one. */
  lemma {:induction false} FallsExactlyWhen(s: State, p: Pass)
    requires ValidPass(p) && !Reconcile(s, p).stale
    ensures var r := Reconcile(s, p);
            r.fallen != {}
            <==> exists sig :: sig in r.bench.rows && RunsIn(r.bench.rows[sig], p.known) && Condemns(s, p, r, sig)
  {
    hide Reconcile, Condemned, Condemns, BoardOf, Fall, Teardown;
    var r, t := Reconcile(s, p), BoardOf(s, p).state;
    var want := r.plan.nodes.byKey.Keys;
    BeforeTeardown(s, p);
    forall sig | sig in r.bench.rows
      ensures Condemned(t, p, want, r.consulted, sig) <==> Condemns(s, p, r, sig)
    {
      CondemnedRow(s, p, sig);
    }
    var struck := ContainersOf(t.rows, CondemnedAmong(t, p, want, r.consulted, t.rows.Keys));
    if r.fallen != {} {
      var d :| d in struck * p.known;
      var sig :| sig in t.rows && Condemned(t, p, want, r.consulted, sig) && t.rows[sig].ref == Given(d);
      assert RunsIn(r.bench.rows[sig], p.known);
    }
    forall sig | sig in r.bench.rows && RunsIn(r.bench.rows[sig], p.known) && Condemns(s, p, r, sig)
      ensures r.fallen != {}
    {
      assert r.bench.rows[sig].ref.vmid in struck * p.known;
      assert r.bench.rows[sig].ref.vmid in Fall(EntriesOf(t), p.known, struck * p.known);
    }
  }

  lemma {:induction false} FallenIsNode(s: State, p: Pass, d: nat) returns (sig: NodeSig)
    requires ValidPass(p) && !Reconcile(s, p).stale && d in Reconcile(s, p).fallen
    ensures var r := Reconcile(s, p);
            && sig in r.bench.rows && r.bench.rows[sig].ref == Given(d)
            && (Condemns(s, p, r, sig) || !ShownBy(r.bench.rows[sig], r.state.asm))
  {
    hide Reconcile, Condemned, Condemns, BoardOf, Fall, Teardown, ShownBy;
    var r, t := Reconcile(s, p), BoardOf(s, p).state;
    var want := r.plan.nodes.byKey.Keys;
    BeforeTeardown(s, p);
    var struck := ContainersOf(t.rows, CondemnedAmong(t, p, want, r.consulted, t.rows.Keys));
    WhyItFalls(EntriesOf(t), p.known, struck * p.known);
    if d in struck {
      sig :| sig in t.rows && Condemned(t, p, want, r.consulted, sig) && t.rows[sig].ref == Given(d);
      CondemnedRow(s, p, sig);
    } else {
      sig :| sig in t.rows && t.rows[sig].ref == Given(d) && !ShownBy(t.rows[sig], t.asm - r.fallen);
    }
  }

  /** A wall falls only when a row runs in its own container. */
  lemma {:induction false} WallsOutliveTeardown(s: State, p: Pass)
    requires ValidPass(p) && !Reconcile(s, p).stale
    requires forall sig :: sig in Reconcile(s, p).bench.rows ==>
               !RunsIn(Reconcile(s, p).bench.rows[sig], BoardOf(s, p).state.asm)
    ensures Reconcile(s, p).state.asm == BoardOf(s, p).state.asm
  {
    hide Reconcile, BoardOf, Teardown, FallenIn;
    BeforeTeardown(s, p);
    forall v | v in Reconcile(s, p).fallen
      ensures v !in BoardOf(s, p).state.asm
    {
      var sig := FallenIsNode(s, p, v);
    }
  }

  /** When no two rows share a container, a planned row outlives the pass exactly when no container falls or
      one of its recorded parents is still an assembler. */
  lemma {:induction false} PlannedRowSurvives(s: State, p: Pass, sig: NodeSig)
    requires ValidPass(p) && !Reconcile(s, p).stale && RefDistinct(Reconcile(s, p).bench.rows)
    requires sig in Reconcile(s, p).plan.nodes.byKey && sig in Reconcile(s, p).bench.rows
    ensures var r := Reconcile(s, p);
            sig in r.state.rows <==> r.fallen == {} || ShownBy(r.bench.rows[sig], r.state.asm)
  {
    hide Reconcile, ShownBy, MayBeRead, Count;
    var r := Reconcile(s, p);
    PassTears(s, p, sig);
    if RunsIn(r.bench.rows[sig], r.fallen) {
      var other := FallenIsNode(s, p, r.bench.rows[sig].ref.vmid);
    }
  }

  /** From the state in which step 3 starts: when containers are distinct and no row runs in the container of an
      assembler, a planned row outlives the pass exactly when no condemned row has a known container, or one of
      its recorded parents is an assembler. */
  lemma {:induction false} PlannedRowSurvivesExactly(s: State, p: Pass, sig: NodeSig)
    requires ValidPass(p) && !Reconcile(s, p).stale && RefDistinct(Reconcile(s, p).bench.rows)
    requires forall c :: c in Reconcile(s, p).bench.rows ==>
               !RunsIn(Reconcile(s, p).bench.rows[c], BoardOf(s, p).state.asm)
    requires sig in Reconcile(s, p).plan.nodes.byKey && sig in Reconcile(s, p).bench.rows
    ensures var r := Reconcile(s, p);
            sig in r.state.rows
            <==> || (forall c :: c in r.bench.rows && Condemns(s, p, r, c) ==> !RunsIn(r.bench.rows[c], p.known))
                 || ShownBy(r.bench.rows[sig], BoardOf(s, p).state.asm)
  {
    hide Reconcile, ShownBy, RunsIn, Condemns, BoardOf, RefDistinct;
    FallsExactlyWhen(s, p);
    WallsOutliveTeardown(s, p);
    PlannedRowSurvives(s, p, sig);
  }

  /** The assemblers that step 3 finds: those that the pass kept, and those that it switched. */
  lemma {:induction false} AssemblersBeforeTeardown(s: State, p: Pass, v: nat)
    requires ValidPass(p) && !Reconcile(s, p).stale
    ensures v in BoardOf(s, p).state.asm
            <==> v in Decided(s, p).asm || OutcomeIn(Reconcile(s, p), v) == Some(Switched)
  {
    hide MaterialiseAll, SwitchAll, Teardown, FallenIn, Keys, Select, DropSolos, KeptUpTo, SoloKeys, PlanOf,
      MergedCells, Reconcile, Decided;
    PassShape(s, p);
    OutcomesOfBoard(s, p);
    var r := Reconcile(s, p);
    SwitchedWalls(Board(Decided(s, p).(rows := r.bench.rows), map[], false), p, r.heavy, r.plan, r.bench.shm,
                  r.bench.refOf, |r.heavy|, v);
  }

  lemma {:induction false} OutcomesOfBoard(s: State, p: Pass)
    requires ValidPass(p) && !Reconcile(s, p).stale
    ensures BoardOf(s, p).outcomes == Reconcile(s, p).outcomes && !BoardOf(s, p).stale
  {
    hide MaterialiseAll, SwitchAll, Teardown, FallenIn, Keys, Select, DropSolos, KeptUpTo, SoloKeys, PlanOf,
      MergedCells, Reconcile;
    PassShape(s, p);
  }

  lemma {:induction false} AbandonedKeepsTear(s: State, p: Pass)
    requires ValidPass(p) && Reconcile(s, p).stale
    ensures Reconcile(s, p).state.tear == s.tear && Reconcile(s, p).state.rows == Reconcile(s, p).bench.rows
  {
    hide MaterialiseAll, SwitchAll, Keys, Select, DropSolos, SoloKeys, Reconcile, StartBench, Teardown;
    PassShape(s, p);
    var r, t := Reconcile(s, p), Decided(s, p);
    var b0 := Board(t.(rows := r.bench.rows), map[], false);
    SwitchCounts(b0, p, r.heavy, r.plan, r.bench.shm, r.bench.refOf, |r.heavy|, 0);
  }

  /** The pass leaves a container for later: it is out of the plan, but still there when the pass completes. */
  predicate LeftForLater(s: State, p: Pass, sig: NodeSig)
    requires ValidPass(p)
  {
    var r := Reconcile(s, p);
    !r.stale && sig in r.bench.rows && sig in r.state.rows && OrphanOf(r, p, sig)
  }

  predicate DestroyedIn(s: State, p: Pass, sig: NodeSig)
    requires ValidPass(p)
  {
    var r := Reconcile(s, p);
    sig in r.bench.rows && sig !in r.state.rows
  }

  lemma {:induction false} PassLeaves(s: State, p: Pass, sig: NodeSig)
    requires ValidPass(p) && !DestroyedIn(s, p, sig)
    ensures Count(Reconcile(s, p).state.tear, sig) == Count(s.tear, sig) + (if LeftForLater(s, p, sig) then 1 else 0)
    ensures LeftForLater(s, p, sig) ==> Count(s.tear, sig) < TEARDOWN_MAX
  {
    hide Reconcile, OrphanOf, MayBeRead, ValidPass;
    if Reconcile(s, p).stale {
      AbandonedKeepsTear(s, p);
    } else {
      PassTears(s, p, sig);
    }
  }

  /** How many of the passes from `m` to `n` left the container for later. */
  function Leaves(s: State, ps: seq<Pass>, sig: NodeSig, m: nat, n: nat): nat
    requires m <= n <= |ps| && forall j :: 0 <= j < |ps| ==> ValidPass(ps[j])
  {
    if n == m then 0 else
    Leaves(s, ps, sig, m, n - 1) + (if LeftForLater(After(s, ps, n - 1), ps[n - 1], sig) then 1 else 0)
  }

  ghost predicate NotDestroyed(s: State, ps: seq<Pass>, sig: NodeSig, m: nat, n: nat)
    requires m <= n <= |ps| && AllValid(ps)
  {
    forall i :: m <= i < n ==> !DestroyedIn(After(s, ps, i), ps[i], sig)
  }

  lemma {:induction false} LeavesCounted(s: State, ps: seq<Pass>, sig: NodeSig, m: nat, n: nat)
    requires m <= n <= |ps| && AllValid(ps) && NotDestroyed(s, ps, sig, m, n)
    ensures Count(After(s, ps, n).tear, sig) == Count(After(s, ps, m).tear, sig) + Leaves(s, ps, sig, m, n)
    ensures Count(After(s, ps, m).tear, sig) <= TEARDOWN_MAX ==> Count(After(s, ps, n).tear, sig) <= TEARDOWN_MAX
  {
    hide Reconcile, ValidPass, Count, LeftForLater, DestroyedIn;
    if n > m {
      assert !DestroyedIn(After(s, ps, n - 1), ps[n - 1], sig);
      LeavesCounted(s, ps, sig, m, n - 1);
      PassLeaves(After(s, ps, n - 1), ps[n - 1], sig);
    }
  }

  lemma {:induction false} TearBounded(s: State, ps: seq<Pass>, n: nat, sig: NodeSig)
    requires n <= |ps| && AllValid(ps) && Count(s.tear, sig) <= TEARDOWN_MAX
    ensures Count(After(s, ps, n).tear, sig) <= TEARDOWN_MAX
  {
    hide Reconcile, ValidPass, Count, LeftForLater, OrphanOf, MayBeRead;
    if n > 0 {
      TearBounded(s, ps, n - 1, sig);
      var t, p := After(s, ps, n - 1), ps[n - 1];
      if Reconcile(t, p).stale {
        AbandonedKeepsTear(t, p);
      } else {
        PassTears(t, p, sig);
      }
    }
  }

  /** Collection is not blocked: over any stretch of any run that does not destroy a container, at most
      `TEARDOWN_MAX` completed passes find it out of the plan and leave it for later. */
  lemma {:induction false} FewLeaves(s: State, ps: seq<Pass>, sig: NodeSig, m: nat, n: nat)
    requires m <= n <= |ps| && AllValid(ps) && NotDestroyed(s, ps, sig, m, n) && Count(s.tear, sig) <= TEARDOWN_MAX
    ensures Leaves(s, ps, sig, m, n) <= TEARDOWN_MAX
  {
    hide Reconcile, ValidPass, Count, After, NotDestroyed, Leaves;
    TearBounded(s, ps, m, sig);
    LeavesCounted(s, ps, sig, m, n);
  }

  /** The counter outlives the need: a container left `TEARDOWN_MAX` times and then planned again keeps its
      count, so the next completed pass that finds it out of the plan destroys it, whoever reads it. */
  lemma {:induction false} NotForgiven(s: State, p1: Pass, p2: Pass, sig: NodeSig)
    requires ValidPass(p1) && ValidPass(p2) && Count(s.tear, sig) == TEARDOWN_MAX
    requires sig in Reconcile(s, p1).plan.nodes.byKey
    ensures Count(Reconcile(s, p1).state.tear, sig) == TEARDOWN_MAX
    ensures var t := Reconcile(s, p1).state;
            var r := Reconcile(t, p2);
            !r.stale && sig in r.bench.rows && OrphanOf(r, p2, sig) ==> sig !in r.state.rows
  {
    hide Reconcile, ValidPass, Count, MayBeRead;
    if Reconcile(s, p1).stale {
      AbandonedKeepsTear(s, p1);
    } else {
      PassTears(s, p1, sig);
    }
    var t := Reconcile(s, p1).state;
    if !Reconcile(t, p2).stale {
      PassTears(t, p2, sig);
    }
  }

  // ----- Which walls are consulted

  lemma {:induction false} KeysMember(walls: seq<Wall>, v: nat)
    ensures v in Keys(walls) <==> exists w :: w in walls && w.key == v
  {
    if walls != [] {
      KeysMember(walls[1..], v);
      assert forall w :: w in walls <==> w == walls[0] || w in walls[1..];
      assert walls[0] in walls;
    }
  }

  lemma {:induction false} SolosMember(s: State, walls: seq<Wall>, cells: nat, rules: Rules, n: nat, v: nat)
    requires cells > 0 && n <= |walls|
    ensures v in SoloKeysUpTo(s, walls, cells, rules, n)
            <==> && v in s.asm
                 && exists j :: 0 <= j < n && walls[j].key == v && TileCount(walls, walls[j], cells, rules) < 2
  {
    hide TileCount;
    if n > 0 {
      SolosMember(s, walls, cells, rules, n - 1, v);
    }
  }

  /** A completed pass consults a wall before teardown exactly when it wanted the wall and either kept it or
      had to restore it for lack of a second tile. In particular a wall restored for being restorable, or for
      having too few windows, is not asked what it still reads. */
  lemma {:induction false} ConsultedExactlyWhen(s: State, p: Pass, i: nat)
    requires ValidPass(p) && i < |p.walls| && !Reconcile(s, p).stale
    ensures var wall := p.walls[i];
            wall.key in Reconcile(s, p).consulted
            <==> Wanted(s.asm, p, wall) && (FirstTileCount(s, p, wall) >= 2 || wall.key in s.asm)
  {
    hide MaterialiseAll, SwitchAll, Teardown, Select, DropSolos, KeptUpTo, SoloKeysUpTo, Keys, PlanOf, MergedCells,
      TileCount, StartBench, Wanted, Reconcile;
    var wall, r := p.walls[i], Reconcile(s, p);
    var sel := Select(s, p, |p.walls|);
    var cells := MergedCells(p, sel.heavy);
    PassShape(s, p);
    CarryOutHeavy(s, p);
    SelectedWall(s, p, |p.walls|, i);
    KeyIdentifies(s, p, i);
    KeysMember(r.heavy, wall.key);
    SolosMember(sel.state, sel.heavy, cells, p.rules, |sel.heavy|, wall.key);
    KeptIsKept(sel.heavy, cells, p.rules, |sel.heavy|, wall);
    assert r.consulted == Keys(r.heavy) + SolosOf(s, p);
    if exists w :: w in r.heavy && w.key == wall.key {
      var w :| w in r.heavy && w.key == wall.key;
      KeptMember(sel.heavy, cells, p.rules, |sel.heavy|, w);
    }
    if wall in sel.heavy {
      var j :| 0 <= j < |sel.heavy| && sel.heavy[j] == wall;
    }
  }

  lemma {:induction false} KeptIsKept(walls: seq<Wall>, cells: nat, rules: Rules, n: nat, wall: Wall)
    requires cells > 0 && n <= |walls|
    ensures wall in KeptUpTo(walls, cells, rules, n)
            <==> wall in walls[..n] && TileCount(walls, wall, cells, rules) >= 2
  {
    hide TileCount;
    if n > 0 {
      KeptIsKept(walls, cells, rules, n - 1, wall);
      assert walls[..n] == walls[..n - 1] + [walls[n - 1]];
    }
  }

  // ----- No window without its producer

  /** After a completed pass, every window planned for an assembler reads the output of a row, and no row
      removed wrote to the same output when outputs are distinct. When containers are distinct, that row is
      still in the registry exactly when no container fell or one of its recorded parents is still an
      assembler. */
  lemma {:induction false} ProducersSurvive(s: State, p: Pass, i: nat, k: nat)
    requires ValidPass(p) && !Reconcile(s, p).stale && i < |Reconcile(s, p).heavy|
    requires var r := Reconcile(s, p);
             r.heavy[i].key in r.plan.outputs && k < |r.plan.outputs[r.heavy[i].key].tiles|
    ensures var r := Reconcile(s, p);
            var t := r.plan.outputs[r.heavy[i].key].tiles[k];
            var windows := ConfigOf(r, r.heavy[i].key).windows;
            && |windows| == |r.plan.outputs[r.heavy[i].key].tiles|
            && t.sig in r.bench.rows && windows[k] == Window(r.bench.rows[t.sig].shm, t.x, t.y, t.w, t.h)
            && (t.sig in r.state.rows ==> r.state.rows[t.sig] == r.bench.rows[t.sig])
            && (RefDistinct(r.bench.rows) ==>
                 (t.sig in r.state.rows <==> r.fallen == {} || ShownBy(r.bench.rows[t.sig], r.state.asm)))
            && (ShmDistinct(r.bench.rows) && t.sig in r.state.rows ==>
                 forall sig :: DestroyedIn(s, p, sig) ==> r.bench.rows[sig].shm != windows[k].path)
  {
    hide MaterialiseAll, SwitchAll, Teardown, Select, DropSolos, KeptUpTo, SoloKeysUpTo, Keys, MergedCells,
      TileCount, StartBench, Wanted, Reconcile, Tiles, AllNodes, Windows, MayBeRead, Count, Dragged, RefDistinct,
      ShownBy;
    var r, decided := Reconcile(s, p), Decided(s, p);
    var cells := FinalCells(p, HeavyOf(s, p), MergedCells(p, HeavyOf(s, p)));
    PassShape(s, p);
    CarryOutHeavy(s, p);
    OutputsAt(r.heavy, cells, p.rules, |r.heavy|, i);
    BenchNotStale(decided, p, r.heavy, SolosOf(s, p), r.plan);
    EveryTileIsWired(decided, p, r.heavy, cells, i, k);
    var t := r.plan.outputs[r.heavy[i].key].tiles[k];
    PassTears(s, p, t.sig);
    TilesHaveNodes(r.heavy, cells, p.rules, i, t);
    if RefDistinct(r.bench.rows) {
      PlannedRowSurvives(s, p, t.sig);
    }
  }

  lemma {:induction false} BenchNotStale(s: State, p: Pass, walls: seq<Wall>, solos: seq<nat>, plan: FabricPlan)
    requires !CarryOut(s, p, walls, solos, plan).stale
    ensures !CarryOut(s, p, walls, solos, plan).bench.stale
  {
  }
}
