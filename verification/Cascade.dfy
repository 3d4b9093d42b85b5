/** Destroying a container and what depends on it (app/containers.py:38-106, 199-205). */
module Cascade {
  import opened Signatures
  import opened Lines
  import Cores = CorePool

  /** Nodes that do not run in the container. */
  function Others(rows: map<NodeSig, Row>, v: nat): map<NodeSig, Row> {
    map sig | sig in rows && !RunsIn(rows[sig], {v}) :: rows[sig]
  }

  function Shown(rows: map<NodeSig, Row>, asm: set<nat>): map<NodeSig, Row> {
    map sig | sig in rows && ShownBy(rows[sig], asm) :: rows[sig]
  }

  /** Nodes of the container itself are removed first; the orphans are then among the others. */
  lemma {:induction false} OrphansOfRest(e: Entries, v: nat)
    ensures OrphanRefs(Entries(e.asm - {v}, Others(e.rows, v)), {}) == OrphanRefs(e, {v}) - {v}
    ensures Shown(Others(e.rows, v), e.asm - {v}) == Without(e, {v}).rows
  {
    hide ShownBy;
    var rest := Entries(e.asm - {v}, Others(e.rows, v));
    assert rest.asm - {} == rest.asm;
    forall ref | ref in OrphanRefs(e, {v}) - {v}
      ensures ref in OrphanRefs(rest, {})
    {
      var sig :| sig in e.rows && e.rows[sig].ref == Given(ref) && !ShownBy(e.rows[sig], e.asm - {v});
      assert sig in rest.rows;
    }
    forall ref | ref in OrphanRefs(rest, {})
      ensures ref in OrphanRefs(e, {v}) - {v}
    {
      var sig :| sig in rest.rows && rest.rows[sig].ref == Given(ref) && !ShownBy(rest.rows[sig], rest.asm);
      assert sig in e.rows;
    }
  }

  datatype State = State(entries: Entries, containers: set<nat>, table: Cores.Table)

  /** Containers that fall when destruction is called on one. */
  function Fallen(s: State, v: nat): set<nat> {
    if v in s.containers then Fall(s.entries, s.containers, {v}) else {}
  }

  /** What a destruction does: the cores of every container called upon are given back on every machine; those
      that were known and not stuck are no longer known; the containers that fall are exactly the known ones
      called upon, and the registry is without them. */
  ghost predicate Destroyed(s: State, t: State, v: nat, stuck: set<nat>, called: set<nat>) {
    && v in called && called * s.containers == Fallen(s, v)
    && called <= {v} + OrphanRefs(s.entries, Fallen(s, v)) && (v !in s.containers ==> called == {v})
    && t.table == Cores.Released(s.table, called)
    && t.containers == s.containers - (called - stuck)
    && t.entries == if v in s.containers then Without(s.entries, Fallen(s, v)) else s.entries
  }

  /** The same, while the containers of `refs` are still to be destroyed. */
  ghost predicate Underway(s: State, t: State, v: nat, stuck: set<nat>, called: set<nat>, refs: set<nat>) {
    var gone := called * s.containers;
    && v in s.containers && v in called && gone <= Fallen(s, v)
    && OrphanRefs(s.entries, gone) * s.containers <= gone + refs
    && refs <= OrphanRefs(s.entries, {v})
    && called <= {v} + OrphanRefs(s.entries, gone)
    && t.table == Cores.Released(s.table, called)
    && t.containers == s.containers - (called - stuck)
    && t.entries == Without(s.entries, gone)
  }

  class Site {
    var entries: Entries
    var containers: set<nat>
    /** Dedicated cores. */
    var table: Cores.Table

    constructor (e: Entries, cs: set<nat>, t: Cores.Table)
      ensures Value() == State(e, cs, t)
    {
      entries, containers, table := e, cs, t;
    }

    ghost function Value(): State
      reads this
    {
      State(entries, containers, table)
    }

    /** Removes the lines of a container and of the nodes that nobody shows any more; gives the containers of
        the latter. */
    method Unregister(v: nat) returns (refs: set<nat>)
      modifies this`entries
      ensures entries == Without(old(entries), {v})
      ensures refs == OrphanRefs(old(entries), {v}) - {v}
    {
      hide ShownBy, OrphanRefs;
      OrphansOfRest(entries, v);
      entries := Entries(entries.asm - {v}, Others(entries.rows, v));
      refs := OrphanRefs(entries, {});
      entries := entries.(rows := Shown(entries.rows, entries.asm));
    }

    /** Destroys a container, then what nobody shows any more. `stuck` are the containers whose removal fails
        and that stay known. Gives the containers on which destruction was called. */
    method Destroy(v: nat, stuck: set<nat>) returns (called: set<nat>)
      modifies this
      ensures Destroyed(old(Value()), Value(), v, stuck, called)
      decreases |entries.rows|
    {
      hide Without, OrphanRefs, Cores.Released, Destroyed, Underway, Fallen;
      called := {v};
      ghost var s0 := Value();
      table := Cores.Released(table, {v});
      if v !in containers {
        NothingKnown(s0, v, stuck);
        return;
      }
      if v !in stuck {
        containers := containers - {v};
      }
      var refs := Unregister(v);
      FewerRows(s0.entries, {v});
      FirstGone(s0, v, stuck);
      while refs != {}
        invariant Underway(s0, Value(), v, stuck, called, refs)
        invariant refs != {} ==> |entries.rows| < |s0.entries.rows|
        decreases |refs|
      {
        var ref :| ref in refs;
        ghost var s1 := Value();
        var more := Destroy(ref, stuck);
        OneMoreDestroyed(s0, s1, Value(), v, ref, stuck, called, more, refs);
        NeverMore(s1, Value(), ref, stuck, more);
        called, refs := called + more, refs - {ref};
      }
      AllDestroyed(s0, Value(), v, stuck, called);
    }
  }

  lemma {:induction false} FewerRows(e: Entries, gone: set<nat>)
    ensures |Without(e, gone).rows| <= |e.rows|
    ensures OrphanRefs(e, gone) != {} ==> |Without(e, gone).rows| < |e.rows|
  {
    hide ShownBy;
    var left := Without(e, gone).rows.Keys;
    assert e.rows.Keys == left + (e.rows.Keys - left);
    if OrphanRefs(e, gone) != {} {
      var ref :| ref in OrphanRefs(e, gone);
      var sig :| sig in e.rows && e.rows[sig].ref == Given(ref) && !ShownBy(e.rows[sig], e.asm - gone);
      assert sig in e.rows.Keys - left;
    }
  }

  lemma {:induction false} NothingKnown(s: State, v: nat, stuck: set<nat>)
    requires v !in s.containers
    ensures Destroyed(s, s.(table := Cores.Released(s.table, {v})), v, stuck, {v})
  {
    hide OrphanRefs, Cores.Released;
  }

  lemma {:induction false} FirstGone(s: State, v: nat, stuck: set<nat>)
    requires v in s.containers
    ensures Underway(s, State(Without(s.entries, {v}), if v in stuck then s.containers else s.containers - {v},
                              Cores.Released(s.table, {v})),
                     v, stuck, {v}, OrphanRefs(s.entries, {v}) - {v})
  {
    hide OrphanRefs, Cores.Released, Without;
    assert {v} * s.containers == {v};
  }

  lemma {:induction false} NeverMore(s: State, t: State, v: nat, stuck: set<nat>, called: set<nat>)
    requires Destroyed(s, t, v, stuck, called)
    ensures |t.entries.rows| <= |s.entries.rows|
  {
    hide OrphanRefs, Cores.Released, Without;
    FewerRows(s.entries, Fallen(s, v));
  }

  /** Destroying in turn a container that nobody shows any more. */
  lemma {:induction false} OneMoreDestroyed(s: State, t: State, u: State, v: nat, ref: nat, stuck: set<nat>,
                                            before: set<nat>, more: set<nat>, refs: set<nat>)
    requires Underway(s, t, v, stuck, before, refs) && Destroyed(t, u, ref, stuck, more) && ref in refs
    ensures Underway(s, u, v, stuck, before + more, refs - {ref})
  {
    hide Without, OrphanRefs, Cores.Released, Fallen;
    var gone, gone2 := before * s.containers, Fallen(t, ref);
    FallenAfter(s, t, v, ref, before, stuck, refs);
    var all := (before + more) * s.containers;
    assert all == gone + gone2;
    WithoutTwice(s.entries, gone, gone2);
    OrphansAfter(s.entries, gone, gone2);
    NoneFell(t, ref);
    assert gone + {} == gone;
    ReleasedTwice(s.table, before, more);
    MoreOrphans(s.entries, gone, all);
    MoreOrphans(s.entries, {v}, all);
    assert u.entries == Without(s.entries, all);
    forall d | d in OrphanRefs(s.entries, all) && d in s.containers
      ensures d in all + (refs - {ref})
    {
      assert d == ref ==> d in all;
      if ref !in t.containers {
        assert all == gone;
        assert d in OrphanRefs(s.entries, gone) * s.containers;
      } else if d in OrphanRefs(t.entries, gone2) && d in t.containers {
        assert d in OrphanRefs(t.entries, gone2) * t.containers;
      } else if d in OrphanRefs(s.entries, gone) {
        assert d in OrphanRefs(s.entries, gone) * s.containers;
      } else {
        assert d in gone;
      }
    }
  }

  lemma {:induction false} NoneFell(t: State, ref: nat)
    ensures ref !in t.containers ==> Fallen(t, ref) == {}
    ensures Closed(t.entries, t.containers, Fallen(t, ref)) || ref !in t.containers
  {
  }

  /** What falls with one of them falls with the first. */
  lemma {:induction false} FallenAfter(s: State, t: State, v: nat, ref: nat, before: set<nat>, stuck: set<nat>,
                                       refs: set<nat>)
    requires Underway(s, t, v, stuck, before, refs) && ref in refs
    ensures Fallen(t, ref) <= Fallen(s, v)
  {
    hide Without, OrphanRefs, Cores.Released;
    if ref in t.containers {
      var gone, all := before * s.containers, Fallen(s, v);
      OrphansAfter(s.entries, gone, all);
      assert gone + all == all;
      MoreOrphans(s.entries, {v}, all);
      FallIsLeast(t.entries, t.containers, {ref}, all);
    }
  }

  lemma {:induction false} AllDestroyed(s: State, t: State, v: nat, stuck: set<nat>, called: set<nat>)
    requires Underway(s, t, v, stuck, called, {})
    ensures Destroyed(s, t, v, stuck, called)
  {
    hide Without, OrphanRefs, Cores.Released;
    FallIsLeast(s.entries, s.containers, {v}, called * s.containers);
    assert called * s.containers == Fallen(s, v);
  }

  lemma {:induction false} ReleasedTwice(t: Cores.Table, a: set<nat>, b: set<nat>)
    ensures Cores.Released(Cores.Released(t, a), b) == Cores.Released(t, a + b)
  {
    forall node | node in t
      ensures Cores.Without(Cores.Without(t[node], a), b) == Cores.Without(t[node], a + b)
    {
    }
  }

  // ----- What a destruction leaves

  /** Nobody is left behind: the container has no line and no node, and every node still registered is as it
      was and is shown by a wall that is still an assembler. */
  lemma {:induction false} NoOrphanLeft(s: State, t: State, v: nat, stuck: set<nat>, called: set<nat>, sig: NodeSig)
    requires Destroyed(s, t, v, stuck, called) && v in s.containers
    ensures v !in t.entries.asm
    ensures sig in t.entries.rows ==>
              && sig in s.entries.rows && t.entries.rows[sig] == s.entries.rows[sig]
              && t.entries.rows[sig].ref != Given(v) && ShownBy(t.entries.rows[sig], t.entries.asm)
  {
    hide ShownBy, OrphanRefs;
  }

  predicate OwnContainers(rows: map<NodeSig, Row>) {
    forall a, b :: a in rows && b in rows && rows[a].ref.Given? && rows[a].ref == rows[b].ref ==> a == b
  }

  /** No node runs in the container of an assembler. */
  predicate WallsApart(e: Entries) {
    forall sig :: sig in e.rows ==> !RunsIn(e.rows[sig], e.asm)
  }

  /** Nothing else is touched: when nodes have containers of their own, which are not walls, a node that an
      assembler other than the container shows stays, unless it was the container's own, and its container is
      not destroyed. */
  lemma {:induction false} ShownNodesStay(s: State, t: State, v: nat, stuck: set<nat>, called: set<nat>, sig: NodeSig)
    requires Destroyed(s, t, v, stuck, called)
    requires OwnContainers(s.entries.rows) && WallsApart(s.entries)
    requires sig in s.entries.rows && !RunsIn(s.entries.rows[sig], {v})
             && ShownBy(s.entries.rows[sig], s.entries.asm - {v})
    ensures sig in t.entries.rows && t.entries.rows[sig] == s.entries.rows[sig] && !RunsIn(s.entries.rows[sig], called)
  {
  }

  /** Every container called upon loses all its cores, and no other container loses any. */
  lemma {:induction false} CoresGivenBack(s: State, t: State, v: nat, stuck: set<nat>, called: set<nat>, u: nat,
                                          node: nat)
    requires Destroyed(s, t, v, stuck, called)
    ensures Cores.Mine(Cores.Rows(t.table, node), u) == if u in called then {}
            else Cores.Mine(Cores.Rows(s.table, node), u)
  {
  }

  // ----- Several destructions in a row

  /** The registry after destroying in turn the containers of the rows `gone`, and deleting those rows. Containers
      whose removal fails stay known. */
  predicate Halfway(e0: Entries, known: set<nat>, stuck: set<nat>, gone: set<NodeSig>, e: Entries, now: set<nat>,
                    fallen: set<nat>) {
    && fallen == Struck(e0, known, ContainersOf(e0.rows, gone))
    && e.asm == e0.asm - fallen && e.rows == Left(e0, fallen).rows - gone && now == known - (fallen - stuck)
  }

  lemma {:induction false} HalfwayStart(e: Entries, known: set<nat>, stuck: set<nat>)
    ensures Halfway(e, known, stuck, {}, e, known, {})
  {
    assert ContainersOf(e.rows, {}) == {};
    assert e.rows - {} == e.rows;
  }

  lemma {:induction false} FewerOrphans(e0: Entries, e: Entries, fallen: set<nat>, all: set<nat>)
    requires fallen <= all && e.asm == e0.asm - fallen
    requires forall sig :: sig in e.rows ==> sig in e0.rows && e.rows[sig] == e0.rows[sig]
    ensures OrphanRefs(e, all) <= OrphanRefs(e0, all)
  {
    hide ShownBy;
    assert e.asm - all == e0.asm - all;
    forall d | d in OrphanRefs(e, all)
      ensures d in OrphanRefs(e0, all)
    {
      var sig :| sig in e.rows && e.rows[sig].ref == Given(d) && !ShownBy(e.rows[sig], e.asm - all);
      assert sig in e0.rows;
    }
  }

  /** A container that falls next brings what the first ones and it bring together. */
  lemma {:induction false} FallsNext(e0: Entries, known: set<nat>, stuck: set<nat>, gone: set<NodeSig>, e: Entries,
                                     now: set<nat>, fallen: set<nat>, v: nat, struck: set<nat>)
    requires Halfway(e0, known, stuck, gone, e, now, fallen) && struck == ContainersOf(e0.rows, gone) && v in now
    ensures Struck(e0, known, struck + {v}) == fallen + Fall(e, now, {v})
  {
    hide ShownBy;
    var next, all := Fall(e, now, {v}), Struck(e0, known, struck + {v});
    assert v in (struck + {v}) * known;
    if struck * known != {} {
      FallIsLeast(e0, known, struck * known, all);
    }
    FewerOrphans(e0, e, fallen, all);
    FallIsLeast(e, now, {v}, all);
    forall d | d in OrphanRefs(e0, fallen + next) && d in known
      ensures d in fallen + next
    {
      var sig :| sig in e0.rows && e0.rows[sig].ref == Given(d) && !ShownBy(e0.rows[sig], e0.asm - (fallen + next));
      StaysOrFell(e0, known, stuck, gone, e, now, fallen, sig, d, struck);
      assert e.asm - next == e0.asm - (fallen + next);
      if sig in e.rows && d in now {
        assert d in OrphanRefs(e, next) * now;
      }
    }
    FallIsLeast(e0, known, (struck + {v}) * known, fallen + next);
  }

  lemma {:induction false} StaysOrFell(e0: Entries, known: set<nat>, stuck: set<nat>, gone: set<NodeSig>, e: Entries,
                                       now: set<nat>, fallen: set<nat>, sig: NodeSig, d: nat, struck: set<nat>)
    requires Halfway(e0, known, stuck, gone, e, now, fallen) && struck == ContainersOf(e0.rows, gone)
    requires sig in e0.rows && e0.rows[sig].ref == Given(d) && d in known
    ensures (sig in e.rows && e.rows[sig] == e0.rows[sig] && d in now) || d in fallen
  {
    hide ShownBy;
    if sig in gone {
      assert d in struck * known;
    } else if fallen != {} && !ShownBy(e0.rows[sig], e0.asm - fallen) {
      assert d in OrphanRefs(e0, fallen) * known;
    }
  }

  /** One more row of the list is destroyed. */
  lemma {:induction false} HalfwayNext(e0: Entries, known: set<nat>, stuck: set<nat>, gone: set<NodeSig>,
                                       fallen: set<nat>, s: State, t: State, sig: NodeSig, called: set<nat>)
    requires Halfway(e0, known, stuck, gone, s.entries, s.containers, fallen)
    requires sig in e0.rows && e0.rows[sig].ref.Given? && Destroyed(s, t, e0.rows[sig].ref.vmid, stuck, called)
    ensures Halfway(e0, known, stuck, gone + {sig}, t.entries.(rows := t.entries.rows - {sig}), t.containers,
                    fallen + called * known)
  {
    hide ShownBy, OrphanRefs, Without, Cores.Released;
    var v, struck := e0.rows[sig].ref.vmid, ContainersOf(e0.rows, gone);
    assert ContainersOf(e0.rows, gone + {sig}) == struck + {v};
    assert fallen + called * known == fallen + called * s.containers;
    var after := fallen + called * known;
    if v in s.containers {
      FallsNext(e0, known, stuck, gone, s.entries, s.containers, fallen, v, struck);
      LeftMore(e0, fallen, gone, s.entries, Fall(s.entries, s.containers, {v}));
      assert after == fallen + Fall(s.entries, s.containers, {v});
      assert t.entries.rows == Left(e0, after).rows - gone && t.entries.asm == e0.asm - after;
    } else {
      FallsAgain(e0, known, struck, v);
      assert after == fallen;
    }
    assert t.entries.rows - {sig} == Left(e0, after).rows - (gone + {sig});
    assert t.containers == known - (after - stuck);
  }

  lemma {:induction false} LeftMore(e0: Entries, fallen: set<nat>, gone: set<NodeSig>, e: Entries, next: set<nat>)
    requires e == Entries(e0.asm - fallen, Left(e0, fallen).rows - gone) && next != {}
    ensures Without(e, next) == Entries(e0.asm - (fallen + next), Left(e0, fallen + next).rows - gone)
  {
    hide ShownBy;
    assert e.asm - next == e0.asm - (fallen + next);
    forall sig | sig in e0.rows && ShownBy(e0.rows[sig], e0.asm - (fallen + next))
      ensures ShownBy(e0.rows[sig], e0.asm - fallen)
    {
      ShownByFewer(e0.rows[sig], e0.asm - (fallen + next), e0.asm - fallen);
    }
  }

  lemma {:induction false} FallsAgain(e: Entries, known: set<nat>, struck: set<nat>, v: nat)
    requires v !in known || v in Struck(e, known, struck)
    ensures Struck(e, known, struck + {v}) == Struck(e, known, struck)
  {
    hide OrphanRefs;
    if v !in known {
      assert (struck + {v}) * known == struck * known;
    } else {
      var fallen := Struck(e, known, struck);
      FallIsLeast(e, known, (struck + {v}) * known, fallen);
      FallIsLeast(e, known, struck * known, Struck(e, known, struck + {v}));
    }
  }

  /** A row without a container of its own is only deleted. */
  lemma {:induction false} HalfwayDeleted(e0: Entries, known: set<nat>, stuck: set<nat>, gone: set<NodeSig>,
                                          e: Entries, now: set<nat>, fallen: set<nat>, sig: NodeSig)
    requires Halfway(e0, known, stuck, gone, e, now, fallen) && sig in e0.rows && !e0.rows[sig].ref.Given?
    ensures Halfway(e0, known, stuck, gone + {sig}, e.(rows := e.rows - {sig}), now, fallen)
  {
    assert ContainersOf(e0.rows, gone + {sig}) == ContainersOf(e0.rows, gone);
  }
}
