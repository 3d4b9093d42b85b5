/** The engine, the derived pool and the shared containers (app/core_pool.py:257-306, 766-867, 1156-1259, 2122-2182). */
module CoreSharing {
  import opened Collections
  import opened Placement
  import opened CorePool
  import opened CoreRuns

  // ----- The engine's reservation

  /** The engine holds exactly its cores, every other container loses exactly what it held of them, and
      other machines are not touched. */
  lemma {:induction false} EngineTakesExactly(t: Table, node: nat, v: nat, cores: set<nat>, u: nat, other: nat)
    ensures var after := Reserved(t, node, v, cores);
            && Mine(Rows(after, node), v) == cores
            && (u != v ==> Mine(Rows(after, node), u) == Mine(Rows(t, node), u) - cores)
            && (other != node ==> Rows(after, other) == Rows(t, other))
  {
  }

  /** Whoever the engine evicts is named, with the cores that it loses. */
  lemma {:induction false} EveryVictimNamed(t: Table, node: nat, v: nat, cores: set<nat>, u: nat)
    requires u != v
    ensures var before, after := Mine(Rows(t, node), u), Mine(Rows(Reserved(t, node, v, cores), node), u);
            var named := Victims(Without(Rows(t, node), {v}), cores);
            && (u in named <==> after != before)
            && (u in named ==> named[u] == before - after)
  {
    hide Reserved;
    var h := Rows(t, node);
    EngineTakesExactly(t, node, v, cores, u, node);
    MineWithout(h, {v}, u);
    var named := Victims(Without(h, {v}), cores);
    if u in named {
      var c :| c in cores && c in Without(h, {v}) && Without(h, {v})[c] == u;
      assert c in Mine(h, u);
    } else {
      forall c | c in Mine(h, u)
        ensures c !in cores
      {
        assert c in Without(h, {v}) && Without(h, {v})[c] == u;
      }
    }
  }

  /** On a machine where no physical core was shared, the engine is on one side of every new conflict. */
  lemma {:induction false} OnlyEngineConflicts(t: Table, node: nat, v: nat, cores: set<nat>, phys: map<nat, nat>,
                                               c: nat, d: nat)
    requires Conforming(Rows(t, node), phys)
    requires var h := Rows(Reserved(t, node, v, cores), node);
             c in h && d in h && c in phys && d in phys && phys[c] == phys[d] && h[c] != h[d]
    ensures var h := Rows(Reserved(t, node, v, cores), node);
            h[c] == v || h[d] == v
  {
  }

  /** The pool that is left holds no core of the engine and no sibling of one; the pool is left whole exactly
      when nothing of it would remain, or nothing was to be taken. */
  lemma {:induction false} PoolAvoidsEngine(pool: set<nat>, cores: set<nat>, phys: map<nat, nat>)
    ensures var left := Shrunk(pool, cores, phys);
            && left <= pool && (pool != {} ==> left != {})
            && (left == pool <==> pool !! Forbidden(pool, cores, phys) || pool <= Forbidden(pool, cores, phys))
            && ((exists c :: c in pool && c !in Forbidden(pool, cores, phys)) ==>
                  && left !! cores
                  && (forall c :: c in left ==> !SiblingOf(c, cores, phys))
                  && (forall c :: c in pool && c !in left ==> c in cores || SiblingOf(c, cores, phys)))
  {
    var forbidden := Forbidden(pool, cores, phys);
    SplitPool(pool, forbidden);
    var left := Shrunk(pool, cores, phys);
    if left == pool && !(pool <= forbidden) {
      assert forall c :: c in pool ==> c in pool - forbidden;
    }
    if exists c :: c in pool && c !in forbidden {
      var c :| c in pool && c !in forbidden;
      assert c in left;
    }
  }

  // ----- The engine's footprint and the derived pool

  /** The engine's settings: first core, number of cores, service cores. */
  datatype Settings = Settings(first: int, most: int, service: int)

  function Max(a: int, b: int): int {
    if a > b then a else b
  }

  function LastCore(s: Settings): (r: int)
    ensures r >= 4
  {
    Max(1, s.first) + Max(2, s.most) + 1 + (Max(1, s.service) - 1)
  }

  function Range(n: nat): (r: set<nat>)
    ensures forall c: nat :: c in r <==> c < n
  {
    if n == 0 then {} else Range(n - 1) + {n - 1}
  }

  function Footprint(s: Settings, n: nat, phys: map<nat, nat>): set<nat> {
    var flat := Range(LastCore(s) + 1);
    var all := flat + set c | c in phys && SiblingOf(c, flat, phys);
    if n == 0 then all else set c | c in all && c < n
  }

  function DerivedPool(s: Settings, n: nat, phys: map<nat, nat>): set<nat> {
    set c: nat | c < n && c !in Footprint(s, n, phys)
  }

  /** The footprint is exactly the first cores and their siblings; it is closed under siblings; and the derived
      pool is exactly the rest of the machine. */
  lemma {:induction false} PoolIsComplement(s: Settings, n: nat, phys: map<nat, nat>)
    requires n > 0
    ensures var foot, pool := Footprint(s, n, phys), DerivedPool(s, n, phys);
            && foot + pool == Range(n) && foot !! pool
            && (forall c: nat ::
                  c in foot <==> c < n && (c <= LastCore(s) || SiblingOf(c, Range(LastCore(s) + 1), phys)))
            && (forall c, d :: c in foot && d < n && c in phys && d in phys && phys[c] == phys[d] ==> d in foot)
  {
  }

  /** An engine that stays within its footprint never takes anything from a derived pool. */
  lemma {:induction false} DerivedPoolIsSafe(s: Settings, n: nat, phys: map<nat, nat>, cores: set<nat>)
    requires n > 0 && cores <= Footprint(s, n, phys)
    ensures Shrunk(DerivedPool(s, n, phys), cores, phys) == DerivedPool(s, n, phys)
  {
  }

  // ----- Sharing

  /** A shared container meets no core held by another one, and with whole cores no sibling of such a core,
      unless no core of the pool can be shared; and exactly then the operator's choice is applied. */
  lemma {:induction false} SharedStaysAside(h: Held, pool: set<nat>, r: Request, whole: bool, refuse: bool)
    requires pool != {}
    ensures var result := SharedCpuset(h, pool, r, whole, refuse);
            var none := forall c :: c in pool ==>
                          c in Taken(h, Some(r.v)) || (whole && SiblingOf(c, Taken(h, Some(r.v)), r.topo.phys));
            && (none <==> result == if refuse then Refused else OverDedicated(pool))
            && (!none <==> result.SharedOn?)
            && (result.SharedOn? ==>
                  && result.cores != {} && result.cores <= pool
                  && (forall c :: c in result.cores && c in h ==> h[c] == r.v)
                  && (whole ==> forall c :: c in result.cores ==> !SiblingOf(c, Taken(h, Some(r.v)), r.topo.phys))
                  && (r.prefer.Some?
                      && (exists c :: c in result.cores && c in On(result.cores, r.topo.sockets, r.prefer.value)) ==>
                        On(result.cores, r.topo.sockets, r.prefer.value) == result.cores))
  {
    var free := Shareable(h, pool, Some(r.v), r.topo.phys, whole);
    if free == {} {
      forall c | c in pool
        ensures c in Taken(h, Some(r.v)) || (whole && SiblingOf(c, Taken(h, Some(r.v)), r.topo.phys))
      {
        assert c !in free;
      }
    } else {
      var c :| c in free;
    }
  }

  /** A container that asks for dedicated cores and gets none is deployed beside the others; one that gets them
      holds them. */
  lemma {:induction false} DedicatedMeansDedicated(t: Table, pool: set<nat>, r: Request)
    requires Asks(pool, r) && Allocated(t, pool, r).cores.Some?
    ensures Mine(Rows(Allocated(t, pool, r).table, r.node), r.v) == Allocated(t, pool, r).cores.value
  {
    hide Decide, Purged, Mine, Given, Without, Released;
    var t1 := Purged(t, r.node, r.alive);
    if Decide(Rows(t1, r.node), pool, r).Take? {
      CarriedTake(t1, pool, r);
    }
  }

  // ----- Widening or narrowing the shared containers of a machine

  /** A running container without a reservation: it may have no name to be updated by. */
  datatype Line = Line(v: nat, named: bool)

  datatype Report = Report(done: seq<nat>, failed: seq<nat>, same: seq<nat>)

  datatype Verdict = Nameless | Unmeasured | Already | Changed | Refusing

  function CpusetOf(applied: map<nat, set<nat>>, v: nat): set<nat> {
    if v in applied then applied[v] else {}
  }

  /** What happens to a shared container that is to run on the cores `wanted`. */
  function VerdictOf(line: Line, before: set<nat>, wanted: set<nat>, measured: bool, updates: set<nat>): Verdict {
    if !line.named then Nameless
    else if !measured then Unmeasured
    else if before == wanted then Already
    else if line.v in updates then Changed
    else Refusing
  }

  /** The containers of the first `n` lines with one of these verdicts, in order. */
  function Told(lines: seq<Line>, n: nat, applied: map<nat, set<nat>>, wanted: set<nat>, measured: bool,
                updates: set<nat>,
                verdicts: set<Verdict>): seq<nat>
    requires n <= |lines|
  {
    if n == 0 then [] else
    Told(lines, n - 1, applied, wanted, measured, updates, verdicts)
    + (if VerdictOf(lines[n - 1], CpusetOf(applied, lines[n - 1].v), wanted, measured, updates) in verdicts
       then [lines[n - 1].v] else [])
  }

  lemma {:induction false} ToldMember(lines: seq<Line>, n: nat, applied: map<nat, set<nat>>, wanted: set<nat>,
                                      measured: bool,
                                      updates: set<nat>, verdicts: set<Verdict>, v: nat)
    requires n <= |lines|
    ensures v in Told(lines, n, applied, wanted, measured, updates, verdicts)
            <==> exists i :: 0 <= i < n && lines[i].v == v
                             && VerdictOf(lines[i], CpusetOf(applied, v), wanted, measured, updates) in verdicts
  {
    hide VerdictOf, CpusetOf;
    if n > 0 {
      ToldMember(lines, n - 1, applied, wanted, measured, updates, verdicts, v);
    }
  }

  /** The report covers exactly the named lines, each with what happened to it. */
  lemma {:induction false} EveryNamedLineTold(lines: seq<Line>, applied: map<nat, set<nat>>, wanted: set<nat>,
                                              measured: bool,
                                              updates: set<nat>, v: nat)
    ensures var done := Told(lines, |lines|, applied, wanted, measured, updates, {Changed});
            var same := Told(lines, |lines|, applied, wanted, measured, updates, {Already});
            var failed := Told(lines, |lines|, applied, wanted, measured, updates, {Unmeasured, Refusing});
            var listed := exists i :: 0 <= i < |lines| && lines[i].v == v && lines[i].named;
            && (v in done <==> listed && measured && CpusetOf(applied, v) != wanted && v in updates)
            && (v in same <==> listed && measured && CpusetOf(applied, v) == wanted)
            && (v in failed <==> listed && (!measured || (CpusetOf(applied, v) != wanted && v !in updates)))
  {
    hide Told, CpusetOf;
    ToldMember(lines, |lines|, applied, wanted, measured, updates, {Changed}, v);
    ToldMember(lines, |lines|, applied, wanted, measured, updates, {Already}, v);
    ToldMember(lines, |lines|, applied, wanted, measured, updates, {Unmeasured, Refusing}, v);
  }

  predicate NoTwice(lines: seq<Line>) {
    forall i, j :: 0 <= i < j < |lines| ==> lines[i].v != lines[j].v
  }

  class Fleet {
    /** Cpuset applied to each running container. */
    var applied: map<nat, set<nat>>

    constructor (a: map<nat, set<nat>>)
      ensures applied == a
    {
      applied := a;
    }

    /** Gives the shared cores to every shared container, one update at a time; `updates` are the containers
        whose update succeeds. Without any core to share nothing is done. */
    method Reapply(h: Held, pool: set<nat>, phys: map<nat, nat>, whole: bool, lines: seq<Line>, measured: bool,
                   updates: set<nat>)
        returns (report: Report)
      requires NoTwice(lines)
      modifies this
      ensures var wanted := Shareable(h, pool, None, phys, whole);
              var was := old(applied);
              && (wanted == {} ==> applied == was && report == Report([], [], []))
              && (wanted != {} ==>
                    && report.done == Told(lines, |lines|, was, wanted, measured, updates, {Changed})
                    && report.same == Told(lines, |lines|, was, wanted, measured, updates, {Already})
                    && report.failed == Told(lines, |lines|, was, wanted, measured, updates, {Unmeasured, Refusing}))
              && (forall v :: CpusetOf(applied, v) == if v in report.done then wanted else CpusetOf(was, v))
    {
      report := Report([], [], []);
      var wanted := Shareable(h, pool, None, phys, whole);
      if wanted == {} {
        return;
      }
      ghost var was := applied;
      var i := 0;
      while i < |lines|
        invariant 0 <= i <= |lines|
        invariant report.done == Told(lines, i, was, wanted, measured, updates, {Changed})
        invariant report.same == Told(lines, i, was, wanted, measured, updates, {Already})
        invariant report.failed == Told(lines, i, was, wanted, measured, updates, {Unmeasured, Refusing})
        invariant forall v :: CpusetOf(applied, v) == if v in report.done then wanted else CpusetOf(was, v)
        invariant forall v :: v in report.done ==> exists j :: 0 <= j < i && lines[j].v == v
      {
        var line := lines[i];
        assert line.v !in report.done;
        i := i + 1;
        if !line.named {
        } else if !measured {
          report := report.(failed := report.failed + [line.v]);
        } else if CpusetOf(applied, line.v) == wanted {
          report := report.(same := report.same + [line.v]);
        } else if line.v in updates {
          applied := applied[line.v := wanted];
          report := report.(done := report.done + [line.v]);
        } else {
          report := report.(failed := report.failed + [line.v]);
        }
      }
    }
  }

  /** What a completed reapplication gives: cores of the pool that nobody holds, and with whole cores that are
      siblings of no held core. */
  lemma {:induction false} ReappliedMeetsNobody(h: Held, pool: set<nat>, phys: map<nat, nat>, whole: bool)
    ensures var wanted := Shareable(h, pool, None, phys, whole);
            && (!whole ==> wanted == pool - h.Keys)
            && wanted <= pool && wanted !! h.Keys
            && (whole ==> forall c, d :: c in wanted && d in h && c in phys && d in phys ==> phys[c] != phys[d])
            && (forall c :: c in pool && c !in wanted ==> c in h || (whole && SiblingOf(c, h.Keys, phys)))
  {
  }
}
