/** The reconciliation pass as the source runs it: loops that update the registry and the dictionaries of
    the module in place (app/compositor_fabric.py:810-1145). Each step is proved against Fabric. */
module Orchestrator {
  import opened Collections
  import opened Signatures
  import opened Plan
  import opened Planner
  import opened Elimination
  import opened Fabric
  import opened Lines
  import Cascade

  lemma {:induction false} SelectStep(s: State, p: Pass, n: nat)
    requires 0 < n <= |p.walls|
    ensures var sel := Select(s, p, n - 1);
            var wall := p.walls[n - 1];
            Select(s, p, n)
            == if Wanted(sel.state.asm, p, wall) then sel.(heavy := sel.heavy + [wall])
               else if wall.key in sel.state.asm
               then sel.(state := Restored(sel.state, wall.key), restored := sel.restored + [wall.key])
               else sel
  {
  }

  lemma {:induction false} OneMoreKey(walls: seq<Wall>, some: seq<Wall>, n: nat)
    requires 0 < n <= |walls| && DistinctKeys(walls) && DistinctKeys(some)
    requires forall w :: w in some ==> w in walls[..n - 1]
    ensures DistinctKeys(some + [walls[n - 1]])
  {
    var more := some + [walls[n - 1]];
    forall i, j | 0 <= i < j < |more|
      ensures more[i].key != more[j].key
    {
      assert more[i] in some;
    }
  }

  /** Selected walls are walls of the pass, in the same order, so their keys stay distinct. */
  lemma {:induction false} SelectedDistinct(s: State, p: Pass, n: nat)
    requires n <= |p.walls| && DistinctKeys(p.walls)
    ensures forall w :: w in Select(s, p, n).heavy ==> w in p.walls[..n]
    ensures DistinctKeys(Select(s, p, n).heavy)
  {
    hide Wanted, Restored;
    if n > 0 {
      SelectedDistinct(s, p, n - 1);
      OneMoreKey(p.walls, Select(s, p, n - 1).heavy, n);
      assert p.walls[..n] == p.walls[..n - 1] + [p.walls[n - 1]];
    }
  }

  lemma {:induction false} KeptDistinct(walls: seq<Wall>, cells: nat, rules: Rules, n: nat)
    requires cells > 0 && n <= |walls| && DistinctKeys(walls)
    ensures forall w :: w in KeptUpTo(walls, cells, rules, n) ==> w in walls[..n]
    ensures DistinctKeys(KeptUpTo(walls, cells, rules, n))
  {
    hide TileCount;
    if n > 0 {
      KeptDistinct(walls, cells, rules, n - 1);
      OneMoreKey(walls, KeptUpTo(walls, cells, rules, n - 1), n);
      assert walls[..n] == walls[..n - 1] + [walls[n - 1]];
    }
  }

  /** The plan of a wall has as many tiles as were counted. */
  lemma {:induction false} PlannedTiles(walls: seq<Wall>, cells: nat, rules: Rules, i: nat)
    requires cells > 0 && i < |walls| && DistinctKeys(walls)
    ensures var outputs := PlanOf(walls, cells, rules).outputs;
            walls[i].key in outputs && |outputs[walls[i].key].tiles| == TileCount(walls, walls[i], cells, rules)
  {
    hide Tiles, AllNodes;
    OutputsAt(walls, cells, rules, |walls|, i);
  }

  class Registry {
    var rows: map<NodeSig, Row>
    var asm: set<nat>
    var pushed: map<nat, Push>
    var deferred: map<nat, nat>
    var tear: map<NodeSig, nat>
    var cmd: map<nat, Command>

    constructor (s: State)
      ensures Value() == s
    {
      rows, asm, pushed, deferred, tear, cmd := s.rows, s.asm, s.pushed, s.deferred, s.tear, s.cmd;
    }

    ghost function Value(): State
      reads this
    {
      State(rows, asm, pushed, deferred, tear, cmd)
    }

    method Restore(v: nat)
      modifies this
      ensures Value() == Restored(old(Value()), v)
    {
      cmd := cmd[v := Fabric.Restore];
      asm := asm - {v};
    }

    /** Which walls are wanted as assemblers; the others are restored. */
    method SelectWalls(p: Pass) returns (heavy: seq<Wall>, restored: seq<nat>)
      modifies this
      ensures Selection(Value(), heavy, restored) == Select(old(Value()), p, |p.walls|)
    {
      hide Wanted, Restored, Select;
      heavy, restored := [], [];
      ghost var s0 := Value();
      var i := 0;
      assert Select(s0, p, 0) == Selection(s0, [], []) by { SelectNone(s0, p); }
      while i < |p.walls|
        invariant 0 <= i <= |p.walls|
        invariant Selection(Value(), heavy, restored) == Select(s0, p, i)
      {
        var wall := p.walls[i];
        SelectStep(s0, p, i + 1);
        if Wanted(asm, p, wall) {
          heavy := heavy + [wall];
        } else if wall.key in asm {
          Restore(wall.key);
          restored := restored + [wall.key];
        }
        i := i + 1;
      }
    }

    /** The plan, with groups doubled until the machine can hold its nodes. */
    method PlanForMachine(p: Pass, heavy: seq<Wall>) returns (plan: FabricPlan, cells: nat)
      requires p.maxCells > 0
      ensures cells == MergedCells(p, heavy) && plan == PlanOf(heavy, cells, p.rules)
    {
      hide PlanOf;
      cells := p.maxCells;
      plan := PlanFabric(heavy, cells, p.rules);
      if p.maxNodes.Some? && p.maxNodes.value > 0 {
        while |plan.nodes.byKey| > p.maxNodes.value && cells < MERGE_LIMIT
          invariant cells > 0 && plan == PlanOf(heavy, cells, p.rules)
          invariant Grow(heavy, cells, p.rules, p.maxNodes.value) == MergedCells(p, heavy)
          decreases MERGE_LIMIT - cells
        {
          cells := 2 * cells;
          plan := PlanFabric(heavy, cells, p.rules);
        }
      }
    }

    /** Walls that would get fewer than two tiles are dropped, and restored if they were assemblers. */
    method DropSoloWalls(p: Pass, heavy: seq<Wall>, plan: FabricPlan, cells: nat)
        returns (walls: seq<Wall>, solos: seq<nat>)
      requires cells > 0 && DistinctKeys(heavy) && plan == PlanOf(heavy, cells, p.rules)
      modifies this
      ensures walls == Kept(heavy, cells, p.rules)
      ensures solos == SoloKeys(old(Value()), heavy, cells, p.rules)
      ensures Value() == DropSolos(old(Value()), heavy, cells, p.rules, |heavy|)
    {
      hide TileCount, PlanOf;
      ghost var s0 := Value();
      walls, solos := [], [];
      var i := 0;
      while i < |heavy|
        invariant 0 <= i <= |heavy|
        invariant walls == KeptUpTo(heavy, cells, p.rules, i)
        invariant solos == SoloKeysUpTo(s0, heavy, cells, p.rules, i)
        invariant Value() == DropSolos(s0, heavy, cells, p.rules, i)
        invariant forall j :: i <= j < |heavy| ==> (heavy[j].key in asm <==> heavy[j].key in s0.asm)
      {
        var v := heavy[i].key;
        PlannedTiles(heavy, cells, p.rules, i);
        if |plan.outputs[v].tiles| >= 2 {
          walls := walls + [heavy[i]];
        } else if v in asm {
          Restore(v);
          pushed := pushed - {v};
          solos := solos + [v];
        }
        i := i + 1;
      }
    }

    /** Where the plan shows each node. */
    method PlacesOf(walls: seq<Wall>, outputs: map<nat, Output>) returns (places: map<NodeSig, seq<Place>>)
      ensures forall sig :: Listed(places, sig) == Places(walls, outputs, sig)
    {
      places := map[];
      var i := 0;
      while i < |walls|
        invariant 0 <= i <= |walls|
        invariant forall sig :: Listed(places, sig) + Places(walls[i..], outputs, sig) == Places(walls, outputs, sig)
      {
        var key := walls[i].key;
        assert walls[i..][1..] == walls[i + 1..];
        if key in outputs {
          places := AddPlaces(places, key, outputs[key].tiles);
        }
        i := i + 1;
      }
    }

    method AddPlaces(places0: map<NodeSig, seq<Place>>, key: nat,
                     tiles: seq<Tile>) returns (places: map<NodeSig, seq<Place>>)
      ensures forall sig :: Listed(places, sig) == Listed(places0, sig) + TilePlaces(tiles, key, sig)
    {
      hide Listed, TilePlaces;
      places := places0;
      var j := 0;
      forall sig {
        NoTilePlaces(key, sig);
      }
      assert tiles[0..] == tiles;
      while j < |tiles|
        invariant 0 <= j <= |tiles|
        invariant forall sig :: Listed(places, sig) + TilePlaces(tiles[j..], key, sig)
                                == Listed(places0, sig) + TilePlaces(tiles, key, sig)
      {
        var t := tiles[j];
        forall sig {
          OnePlaceMore(places, tiles[j..], key, sig);
        }
        assert tiles[j..][1..] == tiles[j + 1..];
        places := places[t.sig := Listed(places, t.sig) + [Place(key, t.x, t.y, t.w, t.h)]];
        j := j + 1;
      }
      assert tiles[j..] == [];
    }

    /** Rows that leave the plan, by the slot that they free. */
    method FreeSlots(p: Pass, want: set<NodeSig>) returns (slots: map<Slot, seq<NodeSig>>)
      ensures slots == FreedSlots(rows, p.node, want, p.scan)
    {
      slots := map[];
      var i := 0;
      while i < |p.scan|
        invariant 0 <= i <= |p.scan|
        invariant slots == FreedSlots(rows, p.node, want, p.scan[..i])
      {
        var sig := p.scan[i];
        assert p.scan[..i + 1][..i] == p.scan[..i];
        if sig in rows && sig !in want {
          var slot := FreedSlot(rows[sig], p.node);
          if slot.Some? {
            slots := slots[slot.value := Listed(slots, slot.value) + [sig]];
          }
        }
        i := i + 1;
      }
      assert p.scan[..i] == p.scan;
    }

    /** One node: kept, rebound onto the shard that frees its slot, or created. */
    method MaterialiseOne(p: Pass, sig: NodeSig, node: Node, places: seq<Place>, b0: Bench) returns (b: Bench)
      requires b0.rows == rows && !b0.stale
      modifies this`rows
      ensures b == Materialise(b0, p, sig, node, places) && rows == b.rows
    {
      hide NeededSlot, FormatOf;
      b := b0;
      if sig in rows {
        b := b.(shm := b.shm[sig := rows[sig].shm], refOf := b.refOf[rows[sig].shm := rows[sig].ref]);
        return;
      }
      var need := NeededSlot(p, node, places);
      if need.Some? && Listed(b.slots, need.value) != [] {
        var slot := need.value;
        var free := b.slots[slot];
        var taken := free[|free| - 1];
        b := b.(slots := b.slots[slot := free[..|free| - 1]]);
        if taken in rows && sig in p.rebindOk {
          var row := RowOf(p, node, places, rows[taken].ref, rows[taken].shm);
          rows := (rows - {taken})[sig := row];
          b := b.(rows := rows, rebound := b.rebound[sig := taken],
                  shm := b.shm[sig := row.shm], refOf := b.refOf[row.shm := row.ref]);
          return;
        }
        b := b.(slots := b.slots[slot := b.slots[slot] + [taken]]);
        assert free[..|free| - 1] + [taken] == free;
        assert b.slots == b0.slots;
      }
      if sig in p.staleCreate {
        b := b.(stale := true);
        return;
      }
      var row := RowOf(p, node, places, NewRef(p, sig), Fab(sig));
      rows := rows[sig := row];
      b := b.(rows := rows, created := b.created + [sig],
              shm := b.shm[sig := row.shm], refOf := b.refOf[row.shm := row.ref]);
    }

    /** All nodes of the plan, until the pass finds that it is out of date. */
    method MaterialiseNodes(p: Pass, walls: seq<Wall>, plan: FabricPlan) returns (b: Bench)
      modifies this`rows
      ensures b == MaterialiseAll(StartBench(old(Value()), p, plan), p, walls, plan, |plan.nodes.order|)
      ensures rows == b.rows
    {
      hide Materialise, FreedSlots, Places;
      var places := PlacesOf(walls, plan.outputs);
      var slots := map[];
      if p.canRebind {
        slots := FreeSlots(p, plan.nodes.byKey.Keys);
      }
      b := Bench(rows, slots, map[], map[], [], map[], false);
      ghost var b0 := b;
      var i := 0;
      while i < |plan.nodes.order|
        invariant 0 <= i <= |plan.nodes.order|
        invariant rows == b.rows && b == MaterialiseAll(b0, p, walls, plan, i)
      {
        var sig := plan.nodes.order[i];
        MaterialiseStep(b0, p, walls, plan, i + 1);
        if sig in plan.nodes.byKey && !b.stale {
          b := MaterialiseOne(p, sig, plan.nodes.byKey[sig], Listed(places, sig), b);
        }
        i := i + 1;
      }
    }

    /** Whether the wall is left alone; without reports, what is about to be pushed is remembered first. */
    method LeaveAlone(p: Pass, v: nat, config: AsmConfig) returns (skip: bool)
      modifies this`pushed
      ensures skip == Skips(old(Value()), p, v, config)
      ensures Value() == if skip then old(Value()) else Remembered(old(Value()), p, v, config)
    {
      hide InPlace, ReportOf;
      skip := false;
      if p.asksReport {
        skip := InPlace(ReportOf(p.report, v), config) && v in pushed && pushed[v].config == config;
      } else if v in pushed && pushed[v].config == config && p.now - pushed[v].at < REFRESH_S {
        skip := true;
      } else {
        pushed := pushed[v := Fabric.Push(config, p.now)];
      }
    }

    method Defer(v: nat)
      modifies this`deferred, this`pushed
      ensures deferred == old(deferred)[v := Count(old(deferred), v) + 1] && pushed == old(pushed) - {v}
    {
      deferred := deferred[v := Count(deferred, v) + 1];
      pushed := pushed - {v};
    }

    method Push(v: nat, config: AsmConfig, now: int)
      modifies this
      ensures rows == old(rows) && tear == old(tear) && deferred == old(deferred) - {v} && asm == old(asm) + {v}
      ensures pushed == old(pushed)[v := Fabric.Push(config, now)] && cmd == old(cmd)[v := Assemble(config)]
    {
      deferred := deferred - {v};
      cmd := cmd[v := Assemble(config)];
      pushed := pushed[v := Fabric.Push(config, now)];
      if v !in asm {
        asm := asm + {v};
      }
    }

    /** One wall: left alone, deferred, given up, or switched to its assembler configuration. */
    method SwitchWall(p: Pass, v: nat, config: AsmConfig, refOf: map<Shm, Ref>) returns (o: Outcome)
      modifies this
      ensures o == OutcomeOf(old(Value()), p, v, config, refOf)
      ensures Value() == Apply(old(Value()), p, v, config, Silent(p, v, config, refOf), o)
    {
      hide Silent, Skips;
      Overwritten(pushed, v, Fabric.Push(config, p.now));
      Overwritten(deferred, v, 0);
      var skip := LeaveAlone(p, v, config);
      if skip {
        return Skipped;
      }
      var silent := Silent(p, v, config, refOf);
      if silent != {} && Count(deferred, v) >= DEFER_MAX {
        deferred := deferred - {v};
      } else if silent != {} {
        Defer(v);
        return Deferred;
      }
      if v in p.staleSwitch {
        return Abandoned;
      }
      Push(v, config, p.now);
      return Switched;
    }

    method SwitchWalls(p: Pass, walls: seq<Wall>, plan: FabricPlan, b: Bench) returns (outcomes: map<nat, Outcome>,
                       stale: bool)
      modifies this
      ensures Board(Value(), outcomes, stale)
              == SwitchAll(Board(old(Value()), map[], false), p, walls, plan, b.shm, b.refOf, |walls|)
    {
      hide OutcomeOf, Apply, AsmOf, Silent;
      outcomes, stale := map[], false;
      ghost var b0 := Board(Value(), outcomes, stale);
      var i := 0;
      while i < |walls|
        invariant 0 <= i <= |walls|
        invariant Board(Value(), outcomes, stale) == SwitchAll(b0, p, walls, plan, b.shm, b.refOf, i)
      {
        var v := walls[i].key;
        if v in plan.outputs && !stale {
          var o := SwitchWall(p, v, AsmOf(plan.outputs[v], b.shm), b.refOf);
          outcomes := outcomes[v := o];
          stale := o == Abandoned;
        }
        i := i + 1;
      }
    }

    /** What the consulted walls report to read, and whether one of them could not be read. */
    method Consult(p: Pass, consulted: seq<nat>) returns (read: set<Shm>, unknown: bool)
      ensures read == Read(p, consulted) && unknown == Unreadable(p, consulted)
    {
      read, unknown := {}, false;
      var i := 0;
      while i < |consulted|
        invariant 0 <= i <= |consulted|
        invariant read + Read(p, consulted[i..]) == Read(p, consulted)
        invariant (unknown || Unreadable(p, consulted[i..])) == Unreadable(p, consulted)
      {
        var v := consulted[i];
        assert consulted[i..][1..] == consulted[i + 1..];
        if v !in p.reportAfter {
          unknown := true;
        } else {
          read := read + PathsOf(p.reportAfter[v].windows);
        }
        i := i + 1;
      }
    }

    /** Destroys the container of a row, with what depends on it, and deletes the row. Gives the containers on
        which destruction was called. */
    method Discard(site: Cascade.Site, p: Pass, sig: NodeSig, row: Row, ghost e0: Entries, ghost gone: set<NodeSig>,
                   ghost fallen: set<nat>)
        returns (called: set<nat>)
      requires Cascade.Halfway(e0, p.known, p.stuck, gone, site.entries, site.containers, fallen)
      requires sig in e0.rows && row == e0.rows[sig]
      modifies site
      ensures Cascade.Halfway(e0, p.known, p.stuck, gone + {sig}, site.entries, site.containers,
                              fallen + called * p.known)
    {
      hide Cascade.Halfway, Cascade.Destroyed;
      ghost var s := site.Value();
      called := {};
      if row.ref.Given? {
        called := site.Destroy(row.ref.vmid, p.stuck);
        Cascade.HalfwayNext(e0, p.known, p.stuck, gone, fallen, s, site.Value(), sig, called);
      } else {
        assert fallen + called * p.known == fallen;
        Cascade.HalfwayDeleted(e0, p.known, p.stuck, gone, s.entries, s.containers, fallen, sig);
      }
      site.entries := site.entries.(rows := site.entries.rows - {sig});
    }

    /** One row of the list: kept when it is planned or of another machine, left for later, or destroyed. */
    method TearDownOne(p: Pass, want: set<NodeSig>, read: set<Shm>, unknown: bool, sig: NodeSig, row: Row,
                       site: Cascade.Site, fallen0: set<nat>, ghost e0: Entries, ghost gone: set<NodeSig>)
        returns (fallen: set<nat>)
      requires Cascade.Halfway(e0, p.known, p.stuck, gone, site.entries, site.containers, fallen0)
      requires sig in e0.rows && row == e0.rows[sig]
      modifies this`tear, site
      ensures var orphan := row.node == p.node && sig !in want;
              var waits := p.asksReport && (unknown || row.shm in read) && Count(old(tear), sig) < TEARDOWN_MAX;
              && tear == (if orphan && waits then old(tear)[sig := Count(old(tear), sig) + 1]
                          else if orphan then old(tear) - {sig} else old(tear))
              && Cascade.Halfway(e0, p.known, p.stuck, if orphan && !waits then gone + {sig} else gone,
                                 site.entries, site.containers, fallen)
    {
      hide Cascade.Halfway;
      fallen := fallen0;
      if row.node == p.node && sig !in want {
        var n := Count(tear, sig) + 1;
        if p.asksReport && (unknown || row.shm in read) && n <= TEARDOWN_MAX {
          tear := tear[sig := n];
        } else {
          tear := tear - {sig};
          var called := Discard(site, p, sig, row, e0, gone, fallen);
          fallen := fallen + called * p.known;
        }
      }
    }

    /** Every row of the list, in any order; gives the known containers that fell. */
    method TearDownRows(p: Pass, want: set<NodeSig>, read: set<Shm>, unknown: bool, list: map<NodeSig, Row>,
                        site: Cascade.Site, ghost s0: State, ghost consulted: seq<nat>)
        returns (fallen: set<nat>)
      requires list == s0.rows && tear == s0.tear
      requires p.asksReport ==> read == Read(p, consulted) && unknown == Unreadable(p, consulted)
      requires site.entries == EntriesOf(s0) && site.containers == p.known
      modifies this`tear, site
      ensures tear == TearAmong(s0, p, want, consulted, s0.rows.Keys)
      ensures Cascade.Halfway(EntriesOf(s0), p.known, p.stuck, CondemnedAmong(s0, p, want, consulted, s0.rows.Keys),
                              site.entries, site.containers, fallen)
    {
      hide TearAmong, CondemnedAmong, Read, Unreadable, Count, Cascade.Halfway;
      ghost var done: set<NodeSig> := {};
      var todo := list.Keys;
      fallen := {};
      NothingTorn(s0, p, want, consulted);
      Cascade.HalfwayStart(EntriesOf(s0), p.known, p.stuck);
      while todo != {}
        invariant done !! todo && done + todo == s0.rows.Keys
        invariant tear == TearAmong(s0, p, want, consulted, done)
        invariant Cascade.Halfway(EntriesOf(s0), p.known, p.stuck, CondemnedAmong(s0, p, want, consulted, done),
                                  site.entries, site.containers, fallen)
        decreases |todo|
      {
        var sig :| sig in todo;
        JudgedNext(s0, p, want, consulted, read, unknown, done, sig);
        fallen := TearDownOne(p, want, read, unknown, sig, list[sig], site, fallen, EntriesOf(s0),
                              CondemnedAmong(s0, p, want, consulted, done));
        todo, done := todo - {sig}, done + {sig};
      }
    }

    /** Condemned orphans are destroyed, with what depends on them; gives the known containers that fell. The
        rows are judged on the list read at the start, and a removal that fails changes nothing here. */
    method TearDown(p: Pass, want: set<NodeSig>, consulted: seq<nat>) returns (fallen: set<nat>)
      modifies this
      ensures Value() == Teardown(old(Value()), p, want, consulted)
      ensures fallen == FallenIn(old(Value()), p, want, consulted)
    {
      hide TearAmong, CondemnedAmong, Read, Unreadable, Cascade.Halfway, Teardown, FallenIn;
      var read, unknown := {}, false;
      if p.asksReport {
        read, unknown := Consult(p, consulted);
      }
      ghost var s0 := Value();
      var site := new Cascade.Site(Entries(asm, rows), p.known, map[]);
      fallen := TearDownRows(p, want, read, unknown, rows, site, s0, consulted);
      AllTorn(s0, p, want, consulted, site.entries, site.containers, fallen);
      rows, asm, cmd := site.entries.rows, site.entries.asm, cmd - fallen;
    }

    /** One pass. */
    method Reconcile(p: Pass) returns (r: Result)
      requires ValidPass(p)
      modifies this
      ensures r == Fabric.Reconcile(old(Value()), p) && Value() == r.state
    {
      hide Select, Kept, DropSolos, SoloKeys, PlanOf, MaterialiseAll, StartBench, SwitchAll, Teardown, FallenIn,
        MergedCells;
      ghost var s0 := Value();
      var heavy, restored := SelectWalls(p);
      SelectedDistinct(s0, p, |p.walls|);
      var plan, cells := PlanForMachine(p, heavy);
      var walls, solos := DropSoloWalls(p, heavy, plan, cells);
      if |walls| != |heavy| {
        plan := PlanFabric(walls, p.maxCells, p.rules);
      } else {
        AllKept(heavy, cells, p.rules);
      }
      var b := MaterialiseNodes(p, walls, plan);
      if b.stale {
        return Result(State(rows, asm, pushed, deferred, tear, cmd), walls, plan, b, map[], [], {}, true);
      }
      var outcomes, stale := SwitchWalls(p, walls, plan, b);
      if stale {
        return Result(State(rows, asm, pushed, deferred, tear, cmd), walls, plan, b, outcomes, [], {}, true);
      }
      var consulted := Keys(walls) + solos;
      var fallen := TearDown(p, plan.nodes.byKey.Keys, consulted);
      return Result(State(rows, asm, pushed, deferred, tear, cmd), walls, plan, b, outcomes, consulted, fallen, false);
    }
  }

  lemma {:induction false} NoTilePlaces(key: nat, sig: NodeSig)
    ensures TilePlaces([], key, sig) == []
  {
  }

  lemma {:induction false} OnePlaceMore(places: map<NodeSig, seq<Place>>, tiles: seq<Tile>, key: nat, sig: NodeSig)
    requires tiles != []
    ensures var t := tiles[0];
            var more := places[t.sig := Listed(places, t.sig) + [Place(key, t.x, t.y, t.w, t.h)]];
            Listed(more, sig) + TilePlaces(tiles[1..], key, sig) == Listed(places, sig) + TilePlaces(tiles, key, sig)
  {
    FirstTilePlace(tiles, key, sig);
    hide TilePlaces;
    var one := [Place(key, tiles[0].x, tiles[0].y, tiles[0].w, tiles[0].h)];
    Associative(Listed(places, sig), one, TilePlaces(tiles[1..], key, sig));
  }

  lemma {:induction false} FirstTilePlace(tiles: seq<Tile>, key: nat, sig: NodeSig)
    requires tiles != []
    ensures var rest := TilePlaces(tiles[1..], key, sig);
            TilePlaces(tiles, key, sig)
            == if tiles[0].sig == sig then [Place(key, tiles[0].x, tiles[0].y, tiles[0].w, tiles[0].h)] + rest else rest
  {
  }

  lemma {:induction false} Associative(a: seq<Place>, b: seq<Place>, c: seq<Place>)
    ensures (a + b) + c == a + (b + c)
  {
  }

  lemma {:induction false} MaterialiseStep(b: Bench, p: Pass, walls: seq<Wall>, plan: FabricPlan, n: nat)
    requires 0 < n <= |plan.nodes.order|
    ensures var sig := plan.nodes.order[n - 1];
            var c := MaterialiseAll(b, p, walls, plan, n - 1);
            MaterialiseAll(b, p, walls, plan, n)
            == if sig in plan.nodes.byKey && !c.stale
               then Materialise(c, p, sig, plan.nodes.byKey[sig], Places(walls, plan.outputs, sig)) else c
  {
  }

  lemma {:induction false} NothingTorn(s: State, p: Pass, want: set<NodeSig>, consulted: seq<nat>)
    ensures TearAmong(s, p, want, consulted, {}) == s.tear && CondemnedAmong(s, p, want, consulted, {}) == {}
  {
  }

  /** When every row of the list has been judged. */
  lemma {:induction false} AllTorn(s: State, p: Pass, want: set<NodeSig>, consulted: seq<nat>, e: Entries,
                                   now: set<nat>, fallen: set<nat>)
    requires Cascade.Halfway(EntriesOf(s), p.known, p.stuck, CondemnedAmong(s, p, want, consulted, s.rows.Keys),
                             e, now, fallen)
    ensures FallenIn(s, p, want, consulted) == fallen
    ensures Teardown(s, p, want, consulted)
            == s.(rows := e.rows, asm := e.asm, cmd := s.cmd - fallen,
                  tear := TearAmong(s, p, want, consulted, s.rows.Keys))
  {
    hide CondemnedAmong, TearAmong, OrphanRefs, ShownBy;
  }

  lemma {:induction false} Overwritten<V>(m: map<nat, V>, v: nat, x: V)
    ensures m[v := x] - {v} == m - {v} && m[v := x][v := x] == m[v := x] && (m - {v}) - {v} == m - {v}
  {
  }

  lemma {:induction false} MoreGone(tear: map<NodeSig, nat>, waiting: map<NodeSig, nat>, gone: set<NodeSig>,
                                    sig: NodeSig)
    requires sig !in waiting
    ensures (tear - (gone + {sig})) + waiting == ((tear - gone) + waiting) - {sig}
  {
  }

  lemma {:induction false} MoreWaiting(tear: map<NodeSig, nat>, kept: map<NodeSig, nat>, wait: set<NodeSig>,
                                       sig: NodeSig)
    ensures kept + Waiting(tear, wait + {sig}) == (kept + Waiting(tear, wait))[sig := Count(tear, sig) + 1]
  {
  }

  lemma {:induction false} AmongStep(s: State, p: Pass, want: set<NodeSig>, consulted: seq<nat>, done: set<NodeSig>,
                                     sig: NodeSig)
    requires sig !in done
    ensures Condemned(s, p, want, consulted, sig)
            ==> CondemnedAmong(s, p, want, consulted, done + {sig})
                == CondemnedAmong(s, p, want, consulted, done) + {sig}
    ensures !Condemned(s, p, want, consulted, sig)
            ==> CondemnedAmong(s, p, want, consulted, done + {sig}) == CondemnedAmong(s, p, want, consulted, done)
    ensures Postponed(s, p, want, consulted, sig)
            ==> PostponedAmong(s, p, want, consulted, done + {sig})
                == PostponedAmong(s, p, want, consulted, done) + {sig}
    ensures !Postponed(s, p, want, consulted, sig)
            ==> PostponedAmong(s, p, want, consulted, done + {sig}) == PostponedAmong(s, p, want, consulted, done)
  {
  }

  lemma {:induction false} RowDecision(s: State, p: Pass, want: set<NodeSig>, consulted: seq<nat>, sig: NodeSig)
    requires sig in s.rows
    ensures var orphan := s.rows[sig].node == p.node && sig !in want;
            var waits := p.asksReport && (Unreadable(p, consulted) || s.rows[sig].shm in Read(p, consulted))
                         && Count(s.tear, sig) < TEARDOWN_MAX;
            (Condemned(s, p, want, consulted, sig) <==> orphan && !waits)
            && (Postponed(s, p, want, consulted, sig) <==> orphan && waits)
  {
  }

  lemma {:induction false} JudgedNext(s: State, p: Pass, want: set<NodeSig>, consulted: seq<nat>, read: set<Shm>,
                                      unknown: bool,
                                      done: set<NodeSig>, sig: NodeSig)
    requires sig !in done && sig in s.rows
    requires p.asksReport ==> read == Read(p, consulted) && unknown == Unreadable(p, consulted)
    ensures var before := TearAmong(s, p, want, consulted, done);
            var orphan := s.rows[sig].node == p.node && sig !in want;
            var waits := p.asksReport && (unknown || s.rows[sig].shm in read) && Count(before, sig) < TEARDOWN_MAX;
            && TearAmong(s, p, want, consulted, done + {sig})
               == (if orphan && waits then before[sig := Count(before, sig) + 1]
                   else if orphan then before - {sig} else before)
            && CondemnedAmong(s, p, want, consulted, done + {sig})
               == (var gone := CondemnedAmong(s, p, want, consulted, done);
                   if orphan && !waits then gone + {sig} else gone)
  {
    hide TearAmong, CondemnedAmong, Condemned, Postponed, Read, Unreadable, Count;
    TearStep(s, p, want, consulted, done, sig);
    RowDecision(s, p, want, consulted, sig);
  }

  /** One more row judged. */
  lemma {:induction false} TearStep(s: State, p: Pass, want: set<NodeSig>, consulted: seq<nat>,
                                    done: set<NodeSig>, sig: NodeSig)
    requires sig !in done
    ensures var before := TearAmong(s, p, want, consulted, done);
            && Count(before, sig) == Count(s.tear, sig)
            && TearAmong(s, p, want, consulted, done + {sig})
               == (if Condemned(s, p, want, consulted, sig) then before - {sig}
                   else if Postponed(s, p, want, consulted, sig) then before[sig := Count(s.tear, sig) + 1]
                   else before)
    ensures CondemnedAmong(s, p, want, consulted, done + {sig})
            == (var gone := CondemnedAmong(s, p, want, consulted, done);
                if Condemned(s, p, want, consulted, sig) then gone + {sig} else gone)
  {
    hide Condemned, Postponed, CondemnedAmong, PostponedAmong, Waiting;
    AmongStep(s, p, want, consulted, done, sig);
    var gone, wait := CondemnedAmong(s, p, want, consulted, done), PostponedAmong(s, p, want, consulted, done);
    WaitAmong(s, p, want, consulted, done);
    if Condemned(s, p, want, consulted, sig) {
      NotBoth(s, p, want, consulted, sig);
      MoreGone(s.tear, Waiting(s.tear, wait), gone, sig);
    } else if Postponed(s, p, want, consulted, sig) {
      MoreWaiting(s.tear, s.tear - gone, wait, sig);
    }
  }

  lemma {:induction false} WaitAmong(s: State, p: Pass, want: set<NodeSig>, consulted: seq<nat>, some: set<NodeSig>)
    ensures PostponedAmong(s, p, want, consulted, some) <= some && CondemnedAmong(s, p, want, consulted, some) <= some
    ensures Waiting(s.tear, PostponedAmong(s, p, want, consulted, some)).Keys
            == PostponedAmong(s, p, want, consulted, some)
  {
  }

  lemma {:induction false} NotBoth(s: State, p: Pass, want: set<NodeSig>, consulted: seq<nat>, sig: NodeSig)
    requires Condemned(s, p, want, consulted, sig)
    ensures !Postponed(s, p, want, consulted, sig)
  {
  }

  lemma {:induction false} AllKept(walls: seq<Wall>, cells: nat, rules: Rules)
    requires cells > 0 && |Kept(walls, cells, rules)| == |walls|
    ensures Kept(walls, cells, rules) == walls
  {
    AllKeptUpTo(walls, cells, rules, |walls|);
  }

  lemma {:induction false} AllKeptUpTo(walls: seq<Wall>, cells: nat, rules: Rules, n: nat)
    requires cells > 0 && n <= |walls|
    ensures |KeptUpTo(walls, cells, rules, n)| <= n
    ensures |KeptUpTo(walls, cells, rules, n)| == n ==> KeptUpTo(walls, cells, rules, n) == walls[..n]
  {
    hide TileCount;
    if n > 0 {
      AllKeptUpTo(walls, cells, rules, n - 1);
      assert walls[..n] == walls[..n - 1] + [walls[n - 1]];
    }
  }

  lemma {:induction false} SelectNone(s: State, p: Pass)
    ensures Select(s, p, 0) == Selection(s, [], [])
  {
  }
}
