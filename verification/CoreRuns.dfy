/** Dedicated cores over whole runs, and what one request achieves (app/core_pool.py:536-725). */
module CoreRuns {
  import opened Collections
  import opened Placement
  import opened CorePool

  // ----- Rows

  lemma {:induction false} RowsReleased(t: Table, gone: set<nat>, node: nat)
    ensures Rows(Released(t, gone), node) == Without(Rows(t, node), gone)
  {
  }

  lemma {:induction false} MineWithout(h: Held, gone: set<nat>, v: nat)
    ensures Mine(Without(h, gone), v) == if v in gone then {} else Mine(h, v)
  {
  }

  lemma {:induction false} MineGiven(h: Held, cores: set<nat>, v: nat, u: nat)
    requires cores !! h.Keys
    ensures Mine(Given(h, cores, v), u) == Mine(h, u) + (if u == v then cores else {})
  {
  }

  // ----- No physical core in two hands

  /** Every physical core is held by one container at most. */
  ghost predicate Conforming(h: Held, phys: map<nat, nat>) {
    forall c, d :: c in h && d in h && c in phys && d in phys && phys[c] == phys[d] ==> h[c] == h[d]
  }

  lemma {:induction false} GivenConforms(h: Held, cores: set<nat>, v: nat, phys: map<nat, nat>)
    requires Conforming(h, phys) && forall c :: c in cores ==> !Blocked(c, h, v, phys)
    ensures Conforming(Given(h, cores, v), phys)
  {
  }

  lemma {:induction false} ClearAfterRelease(h: Held, v: nat, c: nat, phys: map<nat, nat>)
    ensures Blocked(c, Without(h, {v}), v, phys) <==> Blocked(c, h, v, phys)
  {
  }

  /** What is taken: `n` candidates. */
  lemma {:induction false} TakesCandidates(h: Held, pool: set<nat>, r: Request)
    requires Decide(h, pool, r).Take?
    ensures var cores := Decide(h, pool, r).cores;
            && cores == Best(Candidates(h, pool, r), r) && r.n <= |Candidates(h, pool, r)|
            && cores <= Candidates(h, pool, r) && |cores| == r.n
  {
    hide Pick, Score;
    var cand := Candidates(h, pool, r);
    assert Mine(h, r.v) == {} ==> (pool - h.Keys) + Mine(h, r.v) == pool - h.Keys;
    PickFacts(cand, r.topo.sockets, r.n, r.prefer);
  }

  lemma {:induction false} CandidateFacts(h: Held, pool: set<nat>, r: Request)
    ensures forall c :: c in Candidates(h, pool, r)
              ==> !Blocked(c, h, r.v, r.topo.phys) && (c in pool - h.Keys || c in Mine(h, r.v))
  {
  }

  ghost predicate AllConforming(t: Table, phys: map<nat, map<nat, nat>>) {
    forall node :: node in t ==> Conforming(t[node], PhysOf(phys, node))
  }

  function PhysOf(phys: map<nat, map<nat, nat>>, node: nat): map<nat, nat> {
    if node in phys then phys[node] else map[]
  }

  lemma {:induction false} ReleaseConforms(t: Table, gone: set<nat>, phys: map<nat, map<nat, nat>>)
    requires AllConforming(t, phys)
    ensures AllConforming(Released(t, gone), phys)
  {
  }

  lemma {:induction false} RowsConform(t: Table, phys: map<nat, map<nat, nat>>, node: nat)
    requires AllConforming(t, phys)
    ensures Conforming(Rows(t, node), PhysOf(phys, node))
  {
  }

  lemma {:induction false} AllocateConforms(t: Table, pool: set<nat>, r: Request, phys: map<nat, map<nat, nat>>)
    requires AllConforming(t, phys) && r.topo.phys == PhysOf(phys, r.node)
    ensures AllConforming(Allocated(t, pool, r).table, phys)
  {
    hide Decide, Conforming, Blocked, Candidates, Mine, Best, Given, Without, Released, Orphans;
    if r.n == 0 || r.node == 0 || pool == {} {
    } else {
      ReleaseConforms(t, Orphans(Rows(t, r.node), r.alive), phys);
      var t1 := Purged(t, r.node, r.alive);
      var h := Rows(t1, r.node);
      ReleaseConforms(t1, {r.v}, phys);
      if Decide(h, pool, r).Take? {
        var cores := Decide(h, pool, r).cores;
        TakesCandidates(h, pool, r);
        CandidateFacts(h, pool, r);
        var t2 := if Mine(h, r.v) == {} then t1 else Released(t1, {r.v});
        RowsReleased(t1, {r.v}, r.node);
        forall c | c in cores
          ensures !Blocked(c, Rows(t2, r.node), r.v, r.topo.phys)
        {
          ClearAfterRelease(h, r.v, c, r.topo.phys);
        }
        RowsConform(t2, phys, r.node);
        GivenConforms(Rows(t2, r.node), cores, r.v, r.topo.phys);
      }
    }
  }

  /** What happens to the table: requests, with the pool of the moment, releases, purges. */
  datatype Op = Ask(pool: set<nat>, r: Request) | Free(v: nat) | Purge(node: nat, alive: set<nat>)

  function Step(t: Table, op: Op): Table {
    match op
    case Ask(pool, r) => Allocated(t, pool, r).table
    case Free(v) => Released(t, {v})
    case Purge(node, alive) => Purged(t, node, alive)
  }

  function RunOf(t: Table, ops: seq<Op>, n: nat): Table
    requires n <= |ops|
  {
    if n == 0 then t else Step(RunOf(t, ops, n - 1), ops[n - 1])
  }

  /** Strict exclusivity over every run: whatever the order of requests, releases and purges, and however the
      pools change, no physical core of any machine is ever held by two containers. */
  lemma {:induction false} NoSharedPhysicalCore(t: Table, ops: seq<Op>, n: nat, phys: map<nat, map<nat, nat>>)
    requires n <= |ops| && AllConforming(t, phys)
    requires forall i :: 0 <= i < |ops| && ops[i].Ask? ==> ops[i].r.topo.phys == PhysOf(phys, ops[i].r.node)
    ensures AllConforming(RunOf(t, ops, n), phys)
  {
    hide AllConforming, Allocated, Released, Orphans;
    if n > 0 {
      NoSharedPhysicalCore(t, ops, n - 1, phys);
      var before := RunOf(t, ops, n - 1);
      match ops[n - 1]
      case Ask(pool, r) => AllocateConforms(before, pool, r, phys);
      case Free(v) => ReleaseConforms(before, {v}, phys);
      case Purge(node, alive) => ReleaseConforms(before, Orphans(Rows(before, node), alive), phys);
    }
  }

  // ----- What one request achieves

  /** The table and the rows of the machine once orphans are gone. */
  function Cleaned(t: Table, r: Request): Held {
    Rows(Purged(t, r.node, r.alive), r.node)
  }

  predicate Asks(pool: set<nat>, r: Request) {
    r.n > 0 && r.node > 0 && pool != {}
  }

  lemma {:induction false} CarriedTake(t: Table, pool: set<nat>, r: Request)
    requires Decide(Rows(t, r.node), pool, r).Take?
    ensures var h := Rows(t, r.node);
            var cores := Decide(h, pool, r).cores;
            var a := Carried(t, r, Decide(h, pool, r));
            && a.cores == Some(cores) && cores !! Without(h, {r.v}).Keys
            && Rows(a.table, r.node) == Given(Without(h, {r.v}), cores, r.v)
            && Mine(Rows(a.table, r.node), r.v) == cores
  {
    hide Decide, Candidates, Given, Mine, Without, Released;
    var h := Rows(t, r.node);
    var cores := Decide(h, pool, r).cores;
    TakesCandidates(h, pool, r);
    CandidateFacts(h, pool, r);
    NotOthers(h, cores, r.v, pool);
    RowsReleased(t, {r.v}, r.node);
    NothingToRelease(h, r.v);
    MineGiven(Without(h, {r.v}), cores, r.v, r.v);
    MineWithout(h, {r.v}, r.v);
  }

  lemma {:induction false} NotOthers(h: Held, cores: set<nat>, v: nat, pool: set<nat>)
    requires forall c :: c in cores ==> c in pool - h.Keys || c in Mine(h, v)
    ensures cores !! Without(h, {v}).Keys
  {
  }

  lemma {:induction false} NothingToRelease(h: Held, v: nat)
    ensures Mine(h, v) == {} ==> Without(h, {v}) == h
  {
    if Mine(h, v) == {} {
      forall c | c in h
        ensures h[c] != v
      {
        assert c !in Mine(h, v);
      }
    }
  }

  /** A container without cores on the machine gets `n` of them exactly when the pool has `n` free cores that
      are siblings of nobody's; and then they are distinct, free, siblings of nobody's, all on one socket
      whenever one socket has `n` such cores, and on the wanted one if it has. */
  lemma {:induction false} FreshCores(t: Table, pool: set<nat>, r: Request)
    requires Asks(pool, r) && Mine(Cleaned(t, r), r.v) == {}
    ensures var h, a := Cleaned(t, r), Allocated(t, pool, r);
            var clear := Clear(pool - h.Keys, h, r.v, r.topo.phys);
            && (a.cores.Some? <==> |clear| >= r.n)
            && (a.cores.None? ==> a.table == Purged(t, r.node, r.alive))
            && (a.cores.Some? ==>
                 var cores := a.cores.value;
                 && |cores| == r.n && cores <= clear && Mine(Rows(a.table, r.node), r.v) == cores
                 && (r.topo.sockets != map[] ==>
                       (OneSocket(cores, r.topo.sockets) <==> SomeRoom(clear, r.topo.sockets, r.n)))
                 && (r.prefer.Some? && r.topo.sockets != map[] && Roomy(clear, r.topo.sockets, r.n, r.prefer.value)
                     ==> cores <= On(clear, r.topo.sockets, r.prefer.value)))
  {
    hide Purged, Pick, Score, OneSocket, SomeRoom, Roomy, On, Blocked, Given, Mine;
    var t1 := Purged(t, r.node, r.alive);
    var h := Rows(t1, r.node);
    var clear := Clear(pool - h.Keys, h, r.v, r.topo.phys);
    SubsetSize(clear, pool - h.Keys);
    if |clear| >= r.n {
      CarriedTake(t1, pool, r);
      PickFacts(clear, r.topo.sockets, r.n, r.prefer);
      if r.topo.sockets != map[] {
        PickScore(clear, r.topo.sockets, r.n, r.prefer);
      }
    }
  }

  /** A container that holds a sibling of another's core is repaired by its request: it ends with `n` cores
      that are siblings of nobody's, or, exactly when there are not so many, with none on any machine. */
  lemma {:induction false} ViolationRepaired(t: Table, pool: set<nat>, r: Request)
    requires Asks(pool, r)
    requires exists c :: c in Mine(Cleaned(t, r), r.v) && Blocked(c, Cleaned(t, r), r.v, r.topo.phys)
    ensures var h, a := Cleaned(t, r), Allocated(t, pool, r);
            && (a.cores.Some? <==> |Candidates(h, pool, r)| >= r.n)
            && (a.cores.Some? ==>
                  && |a.cores.value| == r.n && Mine(Rows(a.table, r.node), r.v) == a.cores.value
                  && forall c :: c in a.cores.value ==> !Blocked(c, Rows(a.table, r.node), r.v, r.topo.phys))
            && (a.cores.None? ==> forall node :: Mine(Rows(a.table, node), r.v) == {})
  {
    hide Purged, Pick, Score, Given, Candidates, Released, Without, Blocked;
    var t1 := Purged(t, r.node, r.alive);
    var h := Rows(t1, r.node);
    var c :| c in Mine(h, r.v) && Blocked(c, h, r.v, r.topo.phys);
    assert c !in Clear(Mine(h, r.v), h, r.v, r.topo.phys);
    if |Candidates(h, pool, r)| >= r.n {
      CarriedTake(t1, pool, r);
      TakesCandidates(h, pool, r);
      CandidateFacts(h, pool, r);
      var cores := Decide(h, pool, r).cores;
      forall d | d in cores
        ensures !Blocked(d, Given(Without(h, {r.v}), cores, r.v), r.v, r.topo.phys)
      {
        BlockedByOthers(h, cores, r.v, d, r.topo.phys);
      }
    } else {
      forall node
        ensures Mine(Rows(Released(t1, {r.v}), node), r.v) == {}
      {
        RowsReleased(t1, {r.v}, node);
        MineWithout(Rows(t1, node), {r.v}, r.v);
      }
    }
  }

  lemma {:induction false} BlockedByOthers(h: Held, cores: set<nat>, v: nat, c: nat, phys: map<nat, nat>)
    requires !Blocked(c, h, v, phys)
    ensures !Blocked(c, Given(Without(h, {v}), cores, v), v, phys)
  {
  }

  /** A container whose cores break no rule keeps them, or moves: only if it has as many as it asks for, to as
      many, siblings of nobody's, and to a strictly better place. */
  lemma {:induction false} MovesOnlyToBetter(t: Table, pool: set<nat>, r: Request)
    requires Asks(pool, r) && Mine(Cleaned(t, r), r.v) != {}
    requires forall c :: c in Mine(Cleaned(t, r), r.v) ==> !Blocked(c, Cleaned(t, r), r.v, r.topo.phys)
    ensures var h, a := Cleaned(t, r), Allocated(t, pool, r);
            && a.cores.Some? && Mine(Rows(a.table, r.node), r.v) == a.cores.value
            && (a.cores.value != Mine(h, r.v) ==>
                  && |a.cores.value| == |Mine(h, r.v)| == r.n
                  && ScoreOf(a.cores.value, r) < ScoreOf(Mine(h, r.v), r)
                  && forall c :: c in a.cores.value ==> !Blocked(c, h, r.v, r.topo.phys))
  {
    hide Purged, Pick, Score, Given, Candidates, Released, Without, Blocked;
    var t1 := Purged(t, r.node, r.alive);
    var h := Rows(t1, r.node);
    assert Clear(Mine(h, r.v), h, r.v, r.topo.phys) == Mine(h, r.v);
    if Decide(h, pool, r).Take? {
      CarriedTake(t1, pool, r);
      TakesCandidates(h, pool, r);
      CandidateFacts(h, pool, r);
    }
  }

  /** A request leaves the cores of every other living container alone, on every machine. */
  lemma {:induction false} OthersKeepTheirs(t: Table, pool: set<nat>, r: Request, u: nat, node: nat)
    requires u != r.v && u !in Orphans(Rows(t, r.node), r.alive)
    ensures Mine(Rows(Allocated(t, pool, r).table, node), u) == Mine(Rows(t, node), u)
  {
    hide Pick, Score, Given, Candidates, Released, Without, Blocked, Mine, Orphans, Decide;
    if r.n == 0 || r.node == 0 || pool == {} {
    } else {
      var gone := Orphans(Rows(t, r.node), r.alive);
      var t1 := Purged(t, r.node, r.alive);
      var h := Rows(t1, r.node);
      RowsReleased(t, gone, node);
      MineWithout(Rows(t, node), gone, u);
      RowsReleased(t1, {r.v}, node);
      MineWithout(Rows(t1, node), {r.v}, u);
      if Decide(h, pool, r).Take? {
        CarriedTake(t1, pool, r);
        MineGiven(Without(h, {r.v}), Decide(h, pool, r).cores, r.v, u);
      }
    }
  }

  // ----- Asking twice

  lemma {:induction false} NoOrphansLeft(t: Table, node: nat, alive: set<nat>)
    ensures Orphans(Rows(Purged(t, node, alive), node), alive) == {}
  {
  }

  lemma {:induction false} NothingToPurge(t: Table, node: nat, alive: set<nat>)
    requires Orphans(Rows(t, node), alive) == {}
    ensures Purged(t, node, alive) == t
  {
    ReleasedNone(t);
  }

  lemma {:induction false} OrphansGiven(h: Held, cores: set<nat>, v: nat, alive: set<nat>)
    requires Orphans(h, alive) == {} && v in alive
    ensures Orphans(Given(Without(h, {v}), cores, v), alive) == {}
    ensures Orphans(Without(h, {v}), alive) == {}
  {
  }

  /** After a move, the candidates are among the former ones, and the cores taken are among them. */
  lemma {:induction false} CandidatesAfter(h: Held, pool: set<nat>, r: Request, cores: set<nat>)
    requires cores <= Candidates(h, pool, r)
    ensures var g := Given(Without(h, {r.v}), cores, r.v);
            && cores <= Candidates(g, pool, r) <= Candidates(h, pool, r)
            && Clear(cores, g, r.v, r.topo.phys) == cores && Mine(g, r.v) == cores
  {
  }

  /** After a release, there are no more candidates than before. */
  lemma {:induction false} FewerAfterRelease(h: Held, pool: set<nat>, r: Request)
    requires |Candidates(h, pool, r)| < r.n
    ensures DecideFresh(Without(h, {r.v}), pool, r) == Refuse
  {
    var g := Without(h, {r.v});
    var clear := Clear(pool - g.Keys, g, r.v, r.topo.phys);
    forall c | c in clear
      ensures c in Candidates(h, pool, r)
    {
      ClearAfterRelease(h, r.v, c, r.topo.phys);
      assert c in h ==> c in Mine(h, r.v);
    }
    SubsetSize(clear, Candidates(h, pool, r));
  }

  lemma {:induction false} KeepAfterTake(h: Held, pool: set<nat>, r: Request)
    requires r.n > 0 && Decide(h, pool, r).Take?
    ensures var cores := Decide(h, pool, r).cores;
            Decide(Given(Without(h, {r.v}), cores, r.v), pool, r) == Keep
  {
    hide Candidates, Given, Clear, Pick, Score, Mine;
    TakesCandidates(h, pool, r);
    var cores := Decide(h, pool, r).cores;
    CandidatesAfter(h, pool, r, cores);
    PickStable(Candidates(h, pool, r), Candidates(Given(Without(h, {r.v}), cores, r.v), pool, r), r.topo.sockets, r.n,
               r.prefer);
  }

  lemma {:induction false} LivingAsksTwice(t: Table, pool: set<nat>, r: Request)
    requires r.v in r.alive
    ensures Allocated(Allocated(t, pool, r).table, pool, r) == Allocated(t, pool, r)
  {
    hide Decide, Purged, Orphans, Released, Given, Without, Mine;
    if Asks(pool, r) {
      var t1 := Purged(t, r.node, r.alive);
      var h := Rows(t1, r.node);
      NoOrphansLeft(t, r.node, r.alive);
      match Decide(h, pool, r)
      case Keep => NothingToPurge(t1, r.node, r.alive);
      case Refuse => NothingToPurge(t1, r.node, r.alive);
      case Drop =>
        DroppedTwice(t1, pool, r);
      case Take(cores) =>
        CarriedTake(t1, pool, r);
        OrphansGiven(h, cores, r.v, r.alive);
        NothingToPurge(Carried(t1, r, Take(cores)).table, r.node, r.alive);
        KeepAfterTake(h, pool, r);
    }
  }

  /** The container has no core on any machine. */
  ghost predicate HoldsNothing(t: Table, v: nat) {
    forall node :: Mine(Rows(t, node), v) == {}
  }

  /** Too few free cores of the pool are away from those of others. */
  predicate TooFew(t: Table, pool: set<nat>, r: Request) {
    var h := Rows(t, r.node);
    |Clear(pool - h.Keys, h, r.v, r.topo.phys)| < r.n
  }

  /** Allocation is a fixpoint: asking again changes neither the table nor the answer, exactly when the container
      is alive, or asks for nothing, or there are too few cores for it, or it has none on another machine. */
  lemma {:induction false} AskingTwice(t: Table, pool: set<nat>, r: Request)
    ensures Allocated(Allocated(t, pool, r).table, pool, r) == Allocated(t, pool, r)
            <==> || r.v in r.alive || !Asks(pool, r) || TooFew(Purged(t, r.node, r.alive), pool, r)
                 || HoldsNothing(Purged(t, r.node, r.alive), r.v)
  {
    hide Decide, Purged, Orphans, Released, Given, Without, Mine, HoldsNothing, TooFew;
    if r.v in r.alive {
      LivingAsksTwice(t, pool, r);
    } else if Asks(pool, r) {
      var t1 := Purged(t, r.node, r.alive);
      NoOrphansLeft(t, r.node, r.alive);
      DeadHoldsNothing(Rows(t1, r.node), r);
      match Decide(Rows(t1, r.node), pool, r)
      case Keep => FreshTakesOrNot(t1, pool, r);
      case Drop => FreshTakesOrNot(t1, pool, r);
      case Refuse =>
        FreshTakesOrNot(t1, pool, r);
        NothingToPurge(t1, r.node, r.alive);
      case Take(cores) =>
        FreshTakesOrNot(t1, pool, r);
        DeadAsksTwice(t1, pool, r, cores);
    }
  }

  /** A container that does not exist, with a core on machine 2, asks for one on machine 1: the second request
      takes the other core away. */
  lemma {:induction false} DeadLosesElsewhere(t: Table, r: Request)
    requires t == map[2 := map[5 := 7]] && r == Request(1, 7, 1, None, Topology(map[], map[]), {})
    ensures Allocated(Allocated(t, {0}, r).table, {0}, r) != Allocated(t, {0}, r)
  {
    hide Allocated;
    assert Orphans(Rows(t, 1), {}) == {};
    ReleasedNone(t);
    assert 5 in Mine(Rows(t, 2), 7);
    assert {0} - Rows(t, 1).Keys == {0} && Clear({0}, Rows(t, 1), 7, map[]) == {0};
    AskingTwice(t, {0}, r);
  }

  lemma {:induction false} LivingHolders(h: Held, alive: set<nat>)
    requires Orphans(h, alive) == {}
    ensures forall c :: c in h ==> h[c] in alive
  {
    forall c | c in h
      ensures h[c] in alive
    {
      var v := h[c];
      assert v in alive || v in Orphans(h, alive);
    }
  }

  lemma {:induction false} DeadHoldsNothing(h: Held, r: Request)
    requires Orphans(h, r.alive) == {} && r.v !in r.alive
    ensures Mine(h, r.v) == {} && r.v !in h.Values
  {
    LivingHolders(h, r.alive);
  }

  lemma {:induction false} FreshTakesOrNot(t: Table, pool: set<nat>, r: Request)
    requires Mine(Rows(t, r.node), r.v) == {}
    ensures var d := Decide(Rows(t, r.node), pool, r);
            (d.Refuse? || d.Take?) && (d.Refuse? <==> TooFew(t, pool, r))
  {
    hide Mine;
    var h := Rows(t, r.node);
    SubsetSize(Clear(pool - h.Keys, h, r.v, r.topo.phys), pool - h.Keys);
  }

  /** A container that does not exist loses what it holds when it asks again, and is given the same cores. */
  lemma {:induction false} DeadAsksTwice(t: Table, pool: set<nat>, r: Request, cores: set<nat>)
    requires Asks(pool, r) && r.v !in r.alive && Orphans(Rows(t, r.node), r.alive) == {}
    requires Mine(Rows(t, r.node), r.v) == {} && r.v !in Rows(t, r.node).Values
    requires Decide(Rows(t, r.node), pool, r) == Take(cores)
    ensures var a := Carried(t, r, Take(cores));
            Allocated(a.table, pool, r) == a <==> HoldsNothing(t, r.v)
  {
    hide Decide, Mine;
    var h := Rows(t, r.node);
    var a := Carried(t, r, Take(cores));
    CarriedTake(t, pool, r);
    TakesSome(h, pool, r);
    WithoutNone(h, r.v);
    OrphansOfGiven(h, cores, r);
    assert Purged(a.table, r.node, r.alive) == Released(a.table, {r.v});
    RowsReleased(a.table, {r.v}, r.node);
    GivenBack(h, cores, r.v);
    assert Rows(Released(a.table, {r.v}), r.node) == h;
    assert Allocated(a.table, pool, r).table == Released(a.table, {r.v})[r.node := Given(h, cores, r.v)];
    SameElsewhere(t, a.table, r, cores);
  }

  lemma {:induction false} TakesSome(h: Held, pool: set<nat>, r: Request)
    requires Decide(h, pool, r).Take? && Mine(h, r.v) == {} && r.n > 0
    ensures Decide(h, pool, r).cores != {}
  {
    hide Mine;
    var clear := Clear(pool - h.Keys, h, r.v, r.topo.phys);
    PickFacts(clear, r.topo.sockets, r.n, r.prefer);
  }

  lemma {:induction false} WithoutNone(h: Held, v: nat)
    requires v !in h.Values
    ensures Without(h, {v}) == h
  {
  }

  lemma {:induction false} OrphansOfGiven(h: Held, cores: set<nat>, r: Request)
    requires Orphans(h, r.alive) == {} && r.v !in r.alive && cores != {} && cores !! h.Keys
    ensures Orphans(Given(h, cores, r.v), r.alive) == {r.v}
  {
    var c :| c in cores;
    assert Given(h, cores, r.v)[c] == r.v;
    LivingHolders(h, r.alive);
  }

  lemma {:induction false} GivenBack(h: Held, cores: set<nat>, v: nat)
    requires cores !! h.Keys && v !in h.Values
    ensures Without(Given(h, cores, v), {v}) == h
  {
  }

  lemma {:induction false} SameElsewhere(t: Table, a: Table, r: Request, cores: set<nat>)
    requires a == t[r.node := Given(Rows(t, r.node), cores, r.v)] && Mine(Rows(t, r.node), r.v) == {}
    ensures Released(a, {r.v})[r.node := Given(Rows(t, r.node), cores, r.v)] == a <==> HoldsNothing(t, r.v)
  {
    hide Given;
    var b := Released(a, {r.v})[r.node := Given(Rows(t, r.node), cores, r.v)];
    if b == a {
      forall node
        ensures Mine(Rows(t, node), r.v) == {}
      {
        if node != r.node && node in t {
          assert b[node] == Without(t[node], {r.v});
          MineWithout(t[node], {r.v}, r.v);
        }
      }
    } else {
      assert b.Keys == a.Keys;
      var node :| node in a && b[node] != a[node];
      assert Without(t[node], {r.v}) != t[node];
      var c :| c in t[node] && t[node][c] == r.v;
      assert c in Mine(Rows(t, node), r.v);
    }
  }

  lemma {:induction false} DroppedTwice(t: Table, pool: set<nat>, r: Request)
    requires Asks(pool, r) && Orphans(Rows(t, r.node), r.alive) == {} && r.v in r.alive
    requires Decide(Rows(t, r.node), pool, r) == Drop
    ensures Allocated(Released(t, {r.v}), pool, r) == Answer(Released(t, {r.v}), None)
  {
    hide Purged, Orphans, Released, Given, Without, Mine, Candidates, DecideFresh;
    var h, t2 := Rows(t, r.node), Released(t, {r.v});
    RowsReleased(t, {r.v}, r.node);
    OrphansGiven(h, {}, r.v, r.alive);
    NothingToPurge(t2, r.node, r.alive);
    MineWithout(h, {r.v}, r.v);
    DroppedHasFew(h, pool, r);
    FewerAfterRelease(h, pool, r);
  }

  lemma {:induction false} DroppedHasFew(h: Held, pool: set<nat>, r: Request)
    requires Decide(h, pool, r) == Drop
    ensures |Candidates(h, pool, r)| < r.n
  {
  }
}
