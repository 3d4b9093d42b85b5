/** The table of dedicated cores and the allocator (app/core_pool.py:536-725, 1262-1312). */
module CorePool {
  import opened Collections
  import opened Placement

  /** Cores of one machine and the containers that hold them. */
  type Held = map<nat, nat>

  /** Rows of the table, by machine. */
  type Table = map<nat, Held>

  /** Physical core and socket of each logical core, as far as known. */
  datatype Topology = Topology(phys: map<nat, nat>, sockets: Sockets)

  function Rows(t: Table, node: nat): Held {
    if node in t then t[node] else map[]
  }

  function Mine(h: Held, v: nat): set<nat> {
    set c | c in h && h[c] == v
  }

  /** Deleting the rows of some containers, on every machine. */
  function Released(t: Table, gone: set<nat>): Table {
    map node | node in t :: Without(t[node], gone)
  }

  function Without(h: Held, gone: set<nat>): Held {
    map c | c in h && h[c] !in gone :: h[c]
  }

  function Given(h: Held, cores: set<nat>, v: nat): Held {
    h + (map c | c in cores :: v)
  }

  /** Holders on a machine that no longer exist. */
  function Orphans(h: Held, alive: set<nat>): set<nat> {
    (set c | c in h :: h[c]) - alive
  }

  function Purged(t: Table, node: nat, alive: set<nat>): Table {
    Released(t, Orphans(Rows(t, node), alive))
  }

  /** Another container holds a core of the same physical core. */
  predicate Blocked(c: nat, h: Held, v: nat, phys: map<nat, nat>) {
    c in phys && exists d :: d in h && h[d] != v && d in phys && phys[d] == phys[c]
  }

  function Clear(cores: set<nat>, h: Held, v: nat, phys: map<nat, nat>): set<nat> {
    set c | c in cores && !Blocked(c, h, v, phys)
  }

  datatype Request = Request(node: nat, v: nat, n: nat, prefer: Option<nat>, topo: Topology, alive: set<nat>)

  datatype Decision = Keep | Take(cores: set<nat>) | Drop | Refuse

  /** Cores that a container could have: free ones and its own, none of them a sibling of another's. */
  function Candidates(h: Held, pool: set<nat>, r: Request): set<nat> {
    Clear((pool - h.Keys) + Mine(h, r.v), h, r.v, r.topo.phys)
  }

  function Best(cores: set<nat>, r: Request): set<nat> {
    Pick(cores, r.topo.sockets, r.n, r.prefer)
  }

  function ScoreOf(cores: set<nat>, r: Request): nat {
    Score(cores, r.topo.sockets, r.prefer)
  }

  function DecideAgain(h: Held, pool: set<nat>, r: Request): Decision {
    var mine := Mine(h, r.v);
    var cand := Candidates(h, pool, r);
    if Clear(mine, h, r.v, r.topo.phys) != mine then
      if |cand| >= r.n then Take(Best(cand, r)) else Drop
    else if ScoreOf(mine, r) == 0 || |mine| != r.n || |cand| < r.n || ScoreOf(Best(cand, r), r) >= ScoreOf(mine, r) then
      Keep
    else Take(Best(cand, r))
  }

  function DecideFresh(h: Held, pool: set<nat>, r: Request): Decision {
    var clear := Clear(pool - h.Keys, h, r.v, r.topo.phys);
    if |pool - h.Keys| < r.n || |clear| < r.n then Refuse else Take(Best(clear, r))
  }

  function Decide(h: Held, pool: set<nat>, r: Request): Decision {
    if Mine(h, r.v) != {} then DecideAgain(h, pool, r) else DecideFresh(h, pool, r)
  }

  datatype Answer = Answer(table: Table, cores: Option<set<nat>>)

  function Carried(t: Table, r: Request, d: Decision): Answer {
    var h := Rows(t, r.node);
    match d
    case Keep => Answer(t, Some(Mine(h, r.v)))
    case Refuse => Answer(t, None)
    case Drop => Answer(Released(t, {r.v}), None)
    case Take(cores) =>
      var t1 := if Mine(h, r.v) == {} then t else Released(t, {r.v});
      Answer(t1[r.node := Given(Rows(t1, r.node), cores, r.v)], Some(cores))
  }

  /** One request, given the pool of the machine. */
  function Allocated(t: Table, pool: set<nat>, r: Request): Answer {
    if r.n == 0 || r.node == 0 || pool == {} then Answer(t, None) else
    var t1 := Purged(t, r.node, r.alive);
    Carried(t1, r, Decide(Rows(t1, r.node), pool, r))
  }

  // ----- The engine

  /** The engine takes its cores, whoever held them. */
  function Reserved(t: Table, node: nat, v: nat, cores: set<nat>): Table {
    t[node := Given(Without(Rows(t, node), {v}), cores, v)]
  }

  lemma {:induction false} SplitPool(pool: set<nat>, forbidden: set<nat>)
    ensures pool - forbidden == {} <==> pool <= forbidden
    ensures pool * forbidden == {} ==> pool - forbidden == pool
    ensures pool - (pool - forbidden) == pool * forbidden
  {
    forall c | c in pool
      ensures c in forbidden || c in pool - forbidden
      ensures c !in forbidden || c in pool * forbidden
    {
    }
    assert pool * forbidden == {} ==> forall c :: c in pool ==> c !in forbidden;
  }

  /** Containers that hold some of the cores, and which. */
  function Victims(h: Held, cores: set<nat>): map<nat, set<nat>> {
    map u | u in (set c | c in cores && c in h :: h[c]) :: Mine(h, u) * cores
  }

  lemma {:induction false} NoVictims(h: Held)
    ensures Victims(h, {}) == map[]
  {
  }

  lemma {:induction false} OneMoreVictim(h: Held, some: set<nat>, c: nat)
    ensures c !in h ==> Victims(h, some + {c}) == Victims(h, some)
    ensures c in h ==>
              var was := Victims(h, some);
              Victims(h, some + {c}) == was[h[c] := (if h[c] in was then was[h[c]] else {}) + {c}]
  {
    var was, now := Victims(h, some), Victims(h, some + {c});
    if c in h {
      forall u
        ensures u in now <==> u in was || u == h[c]
      {
        assert c in some + {c};
        if u in was {
          var d :| d in some && d in h && h[d] == u;
          assert d in some + {c};
        }
      }
      forall u | u in now
        ensures now[u] == if u == h[c] then (if u in was then was[u] else {}) + {c} else was[u]
      {
        if u == h[c] && u !in was {
          assert Mine(h, u) * some == {} by {
            forall d | d in some && d in h
              ensures h[d] != u
            {
            }
          }
        }
      }
    } else {
      assert now.Keys == was.Keys;
      forall u | u in now
        ensures now[u] == was[u]
      {
        assert c !in Mine(h, u);
      }
    }
  }

  /** Cores forbidden to containers: the engine's, and their siblings among those of the pool. */
  function Forbidden(pool: set<nat>, cores: set<nat>, phys: map<nat, nat>): set<nat> {
    cores + set c | c in pool && c in phys && exists d :: d in cores && d in phys && phys[d] == phys[c]
  }

  /** The pool without the engine, unless nothing would be left. */
  function Shrunk(pool: set<nat>, cores: set<nat>, phys: map<nat, nat>): set<nat> {
    if pool <= Forbidden(pool, cores, phys) then pool else pool - Forbidden(pool, cores, phys)
  }

  // ----- Sharing

  /** Cores held by containers other than the given one, if one is given. */
  function Taken(h: Held, except: Option<nat>): set<nat> {
    set c | c in h && except != Some(h[c])
  }

  predicate SiblingOf(c: nat, cores: set<nat>, phys: map<nat, nat>) {
    c in phys && exists d :: d in cores && d in phys && phys[d] == phys[c]
  }

  /** Cores of the pool offered to sharing; `whole` keeps physical cores whole. */
  function Shareable(h: Held, pool: set<nat>, except: Option<nat>, phys: map<nat, nat>, whole: bool): set<nat> {
    set c | c in pool && c !in Taken(h, except) && !(whole && SiblingOf(c, Taken(h, except), phys))
  }

  datatype Cpuset =
    | NoPool
    | Dedicated(cores: set<nat>)
    | SharedOn(cores: set<nat>)
    | OverDedicated(cores: set<nat>)
    | Refused

  /** Shared cores for one container, on the wanted socket as far as it has any. */
  function SharedCpuset(h: Held, pool: set<nat>, r: Request, whole: bool, refuse: bool): Cpuset {
    var free := Shareable(h, pool, Some(r.v), r.topo.phys, whole);
    if pool == {} then NoPool
    else if free == {} then if refuse then Refused else OverDedicated(pool)
    else if r.prefer.Some? && On(free, r.topo.sockets, r.prefer.value) != {}
    then SharedOn(On(free, r.topo.sockets, r.prefer.value))
    else SharedOn(free)
  }

  class Pool {
    var table: Table
    /** Cores offered to containers, by machine. */
    var pools: map<nat, set<nat>>

    constructor (t: Table, ps: map<nat, set<nat>>)
      ensures table == t && pools == ps
    {
      table, pools := t, ps;
    }

    function PoolOf(node: nat): set<nat>
      reads this
    {
      if node in pools then pools[node] else {}
    }

    /** Afterwards the container holds no core on any machine, and everybody else holds what they held. */
    method Release(v: nat)
      modifies this`table
      ensures table == Released(old(table), {v})
      ensures forall node, u :: Mine(Rows(table, node), u) == if u == v then {} else Mine(Rows(old(table), node), u)
    {
      table := Released(table, {v});
    }

    /** Containers that no longer exist give back their cores, one by one. */
    method PurgeOrphans(node: nat, alive: set<nat>)
      modifies this`table
      ensures table == Purged(old(table), node, alive)
    {
      hide Released, Without;
      var orphans := Orphans(Rows(table, node), alive);
      ghost var t0 := table;
      ghost var done: set<nat> := {};
      ReleasedNone(t0);
      while orphans != {}
        invariant done + orphans == Orphans(Rows(t0, node), alive)
        invariant table == Released(t0, done)
        decreases |orphans|
      {
        var v :| v in orphans;
        ReleasedMore(t0, done, v);
        Release(v);
        orphans, done := orphans - {v}, done + {v};
      }
    }

    /** `n` cores of the machine for a container. */
    method Allocate(r: Request) returns (cores: Option<set<nat>>)
      modifies this`table
      ensures Answer(table, cores) == Allocated(old(table), PoolOf(r.node), r)
    {
      hide Orphans, Purged, Released, Pick, Score, Placement.Smallest, Clear, Given, Candidates, Mine;
      var pool := PoolOf(r.node);
      if r.n == 0 || r.node == 0 || pool == {} {
        return None;
      }
      PurgeOrphans(r.node, r.alive);
      var h := Rows(table, r.node);
      var mine := Mine(h, r.v);
      if mine != {} {
        cores := Review(r, pool, h, mine);
      } else {
        cores := AllocateFresh(r, pool, h);
      }
    }

    /** A container that already has cores keeps them, moves, or loses them. */
    method Review(r: Request, pool: set<nat>, h: Held, mine: set<nat>) returns (cores: Option<set<nat>>)
      requires r.n > 0 && h == Rows(table, r.node) && mine == Mine(h, r.v) && mine != {}
      modifies this`table
      ensures Answer(table, cores) == Carried(old(table), r, DecideAgain(h, pool, r))
    {
      hide Released, Score, Clear, Given, Mine, Pick;
      var cand := Candidates(h, pool, r);
      if Clear(mine, h, r.v, r.topo.phys) != mine {
        if |cand| >= r.n {
          var better := BestOf(cand, r);
          Move(r, better);
          return Some(better);
        }
        Release(r.v);
        return None;
      }
      var now := ScoreOf(mine, r);
      if now == 0 || |mine| != r.n || |cand| < r.n {
        return Some(mine);
      }
      var better := BestOf(cand, r);
      if ScoreOf(better, r) >= now {
        return Some(mine);
      }
      Move(r, better);
      return Some(better);
    }

    method AllocateFresh(r: Request, pool: set<nat>, h: Held) returns (cores: Option<set<nat>>)
      requires r.n > 0 && h == Rows(table, r.node) && Mine(h, r.v) == {}
      modifies this`table
      ensures Answer(table, cores) == Carried(old(table), r, DecideFresh(h, pool, r))
    {
      hide Released, Score, Clear, Given, Mine, Pick;
      var free := pool - h.Keys;
      if |free| < r.n {
        return None;
      }
      var clear := Clear(free, h, r.v, r.topo.phys);
      if |clear| < r.n {
        return None;
      }
      var pick := BestOf(clear, r);
      table := table[r.node := Given(Rows(table, r.node), pick, r.v)];
      return Some(pick);
    }

    method Move(r: Request, cores: set<nat>)
      modifies this`table
      ensures var t := Released(old(table), {r.v});
              table == t[r.node := Given(Rows(t, r.node), cores, r.v)]
    {
      Release(r.v);
      table := table[r.node := Given(Rows(table, r.node), cores, r.v)];
    }

    /** Takes the engine's cores, and their siblings, out of the pool; never the whole pool. */
    method ExcludeFromPool(node: nat, cores: set<nat>, phys: map<nat, nat>) returns (withdrawn: set<nat>)
      modifies this`pools
      ensures PoolOf(node) == Shrunk(old(PoolOf(node)), cores, phys)
      ensures withdrawn == old(PoolOf(node)) - PoolOf(node)
      ensures pools == old(pools) || pools == old(pools)[node := PoolOf(node)]
    {
      hide Forbidden;
      var pool := PoolOf(node);
      var forbidden := Forbidden(pool, cores, phys);
      var left := pool - forbidden;
      SplitPool(pool, forbidden);
      if pool * forbidden == {} || left == {} {
        return {};
      }
      pools := pools[node := left];
      return pool * forbidden;
    }

    /** Who holds some of the cores, core by core. */
    method NameVictims(h: Held, cores: set<nat>) returns (victims: map<nat, set<nat>>)
      ensures victims == Victims(h, cores)
    {
      hide Victims;
      victims := map[];
      var todo := cores;
      ghost var done: set<nat> := {};
      NoVictims(h);
      while todo != {}
        invariant done + todo == cores && victims == Victims(h, done)
        decreases |todo|
      {
        var c :| c in todo;
        OneMoreVictim(h, done, c);
        if c in h {
          victims := victims[h[c] := (if h[c] in victims then victims[h[c]] else {}) + {c}];
        }
        todo, done := todo - {c}, done + {c};
      }
      assert done == cores;
    }

    /** The engine takes its cores; whoever held them is named, and the pool shrinks. */
    method ReserveEngine(node: nat, v: nat, cores: set<nat>, phys: map<nat, nat>) returns (victims: map<nat, set<nat>>)
      modifies this
      ensures cores == {} || node == 0 ==> table == old(table) && pools == old(pools) && victims == map[]
      ensures cores != {} && node != 0 ==>
                && table == Reserved(old(table), node, v, cores)
                && PoolOf(node) == Shrunk(old(PoolOf(node)), cores, phys)
                && (pools == old(pools) || pools == old(pools)[node := PoolOf(node)])
                && victims == Victims(Without(Rows(old(table), node), {v}), cores)
    {
      hide Without, Given, Victims, Shrunk;
      victims := map[];
      if cores != {} && node != 0 {
        var h := Without(Rows(table, node), {v});
        victims := NameVictims(h, cores);
        table := table[node := Given(h, cores, v)];
        var withdrawn := ExcludeFromPool(node, cores, phys);
      }
    }

    /** The cores on which a container is deployed: its own, or those that are shared. */
    method EffectiveCpuset(r: Request, whole: bool, refuse: bool) returns (result: Cpuset)
      modifies this`table
      ensures var a := Allocated(old(table), PoolOf(r.node), r);
              if r.n > 0 && a.cores.Some? && a.cores.value != {}
                  then result == Dedicated(a.cores.value) && table == a.table
              else table == (if r.n > 0 then a.table else old(table))
                   && result == SharedCpuset(Rows(table, r.node), PoolOf(r.node), r, whole, refuse)
    {
      hide Allocated, SharedCpuset;
      if r.n > 0 {
        var cores := Allocate(r);
        if cores.Some? && cores.value != {} {
          return Dedicated(cores.value);
        }
      }
      return SharedCpuset(Rows(table, r.node), PoolOf(r.node), r, whole, refuse);
    }

    /** The choice among candidates, sorted first. */
    method BestOf(cand: set<nat>, r: Request) returns (cores: set<nat>)
      requires 0 < r.n <= |cand|
      ensures cores == Best(cand, r)
    {
      hide Pick, Score, Elems, Ascending;
      var sorted := Sort(cand);
      var pick, signal := ChooseCores(sorted, r.n, r.topo.sockets, r.prefer);
      cores := Elems(pick);
    }
  }

  lemma {:induction false} ReleasedNone(t: Table)
    ensures Released(t, {}) == t
  {
    forall node | node in t
      ensures Without(t[node], {}) == t[node]
    {
    }
  }

  lemma {:induction false} ReleasedMore(t: Table, done: set<nat>, v: nat)
    ensures Released(Released(t, done), {v}) == Released(t, done + {v})
  {
    forall node | node in t
      ensures Without(Without(t[node], done), {v}) == Without(t[node], done + {v})
    {
    }
  }
}
