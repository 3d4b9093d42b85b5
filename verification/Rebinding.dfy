/** Rebinding running shards in place is safe (app/compositor_fabric.py:770-811, 930-1005). */
module Rebinding {
  import opened Collections
  import opened Signatures
  import opened Plan
  import opened Fabric
  import opened Lines

  // ----- What is offered

  /** Offered rows leave the plan, are alone in their slot's list, and free exactly that slot. */
  predicate Offers(rows: map<NodeSig, Row>, node: nat, want: set<NodeSig>, slots: map<Slot, seq<NodeSig>>) {
    forall slot, sig :: slot in slots && sig in slots[slot] ==>
      sig in rows && sig !in want && FreedSlot(rows[sig], node) == Some(slot)
  }

  predicate OnceEach(slots: map<Slot, seq<NodeSig>>) {
    forall slot :: slot in slots ==> Distinct(slots[slot])
  }

  predicate OnlyOf(slots: map<Slot, seq<NodeSig>>, scan: seq<NodeSig>) {
    forall slot, sig :: slot in slots && sig in slots[slot] ==> sig in scan
  }

  lemma {:induction false} ScanOffers(rows: map<NodeSig, Row>, node: nat, want: set<NodeSig>, scan: seq<NodeSig>)
    requires Distinct(scan)
    ensures var slots := FreedSlots(rows, node, want, scan);
            Offers(rows, node, want, slots) && OnceEach(slots) && OnlyOf(slots, scan)
  {
    hide FreedSlot, Distinct;
    if scan == [] {
    } else {
      DistinctLast(scan);
      var sig, front := scan[|scan| - 1], scan[..|scan| - 1];
      ScanOffers(rows, node, want, front);
      assert scan == front + [sig];
      var slots := FreedSlots(rows, node, want, front);
      if sig in rows && sig !in want && FreedSlot(rows[sig], node).Some? {
        var slot := FreedSlot(rows[sig], node).value;
        assert sig !in Listed(slots, slot);
        OneMoreDistinct(Listed(slots, slot), sig);
      }
    }
  }

  lemma {:induction false} OneMoreDistinct(s: seq<NodeSig>, x: NodeSig)
    requires Distinct(s) && x !in s
    ensures Distinct(s + [x])
  {
  }

  // ----- What every step keeps

  /** A kept row is untouched, and a row leaves the registry only by being rebound. */
  predicate Untouched(rows: map<NodeSig, Row>, now: map<NodeSig, Row>, rebound: map<NodeSig, NodeSig>) {
    && (forall sig :: sig in rows && sig in now ==> now[sig] == rows[sig])
    && (forall sig :: sig in rows && sig !in now ==> exists heir :: heir in rebound && rebound[heir] == sig)
  }

  /** A rebound node is a new row, on the container and output of a row that left the plan and the registry. */
  predicate Rebound(rows: map<NodeSig, Row>, node: nat, want: set<NodeSig>,
                    now: map<NodeSig, Row>, rebound: map<NodeSig, NodeSig>) {
    forall sig :: sig in rebound ==>
      && sig !in rows && sig in now
      && rebound[sig] in rows && rebound[sig] !in want && rebound[sig] !in now
      && FreedSlot(rows[rebound[sig]], node).Some?
      && now[sig].ref == rows[rebound[sig]].ref && now[sig].shm == rows[rebound[sig]].shm
  }

  /** No row is rebound twice. */
  predicate ReboundOnce(rebound: map<NodeSig, NodeSig>) {
    forall a, c :: a in rebound && c in rebound && rebound[a] == rebound[c] ==> a == c
  }

  /** A created node is a new row, on a container of its own and on the output named after it. */
  predicate Created(rows: map<NodeSig, Row>, p: Pass, now: map<NodeSig, Row>, rebound: map<NodeSig, NodeSig>,
                    created: seq<NodeSig>) {
    forall sig :: sig in created ==>
      && sig !in rows && sig !in rebound && sig in now
      && now[sig].ref == NewRef(p, sig) && now[sig].shm == Fab(sig)
  }

  predicate NothingElse(rows: map<NodeSig, Row>, now: map<NodeSig, Row>, rebound: map<NodeSig, NodeSig>,
                        created: seq<NodeSig>) {
    forall sig :: sig in now ==> sig in rows || sig in rebound || sig in created
  }

  ghost predicate SafeRows(rows: map<NodeSig, Row>, p: Pass, want: set<NodeSig>, now: map<NodeSig, Row>,
                           rebound: map<NodeSig, NodeSig>, created: seq<NodeSig>) {
    && Untouched(rows, now, rebound) && Rebound(rows, p.node, want, now, rebound) && ReboundOnce(rebound)
    && Created(rows, p, now, rebound, created) && NothingElse(rows, now, rebound, created)
  }

  /** Offered rows are still in the registry. */
  predicate StillThere(slots: map<Slot, seq<NodeSig>>, now: map<NodeSig, Row>) {
    forall slot, sig :: slot in slots && sig in slots[slot] ==> sig in now
  }

  ghost predicate SafeOffers(rows: map<NodeSig, Row>, node: nat, want: set<NodeSig>, slots: map<Slot, seq<NodeSig>>,
                             now: map<NodeSig, Row>) {
    Offers(rows, node, want, slots) && OnceEach(slots) && StillThere(slots, now)
  }

  ghost predicate Safe(rows: map<NodeSig, Row>, p: Pass, want: set<NodeSig>, b: Bench) {
    SafeRows(rows, p, want, b.rows, b.rebound, b.created) && SafeOffers(rows, p.node, want, b.slots, b.rows)
  }

  /** A planned node that is not in the registry was not there before either. */
  lemma {:induction false} WantedIsNew(rows: map<NodeSig, Row>, node: nat, want: set<NodeSig>, now: map<NodeSig, Row>,
                                       rebound: map<NodeSig, NodeSig>, sig: NodeSig)
    requires Untouched(rows, now, rebound) && Rebound(rows, node, want, now, rebound) && sig in want && sig !in now
    ensures sig !in rows && sig !in rebound
  {
  }

  lemma {:induction false} CreateCreated(rows: map<NodeSig, Row>, p: Pass, now: map<NodeSig, Row>,
                                         rebound: map<NodeSig, NodeSig>,
                                         created: seq<NodeSig>, sig: NodeSig, row: Row)
    requires Created(rows, p, now, rebound, created) && NothingElse(rows, now, rebound, created)
    requires sig !in now && sig !in rows && sig !in rebound && row.ref == NewRef(p, sig) && row.shm == Fab(sig)
    ensures Created(rows, p, now[sig := row], rebound, created + [sig])
    ensures NothingElse(rows, now[sig := row], rebound, created + [sig])
  {
  }

  lemma {:induction false} CreateKeeps(rows: map<NodeSig, Row>, p: Pass, want: set<NodeSig>, now: map<NodeSig, Row>,
                                       rebound: map<NodeSig, NodeSig>, created: seq<NodeSig>, sig: NodeSig, row: Row)
    requires SafeRows(rows, p, want, now, rebound, created) && sig !in now && sig in want
    requires row.ref == NewRef(p, sig) && row.shm == Fab(sig)
    ensures SafeRows(rows, p, want, now[sig := row], rebound, created + [sig])
  {
    hide FreedSlot, NewRef, Created, NothingElse;
    WantedIsNew(rows, p.node, want, now, rebound, sig);
    CreateCreated(rows, p, now, rebound, created, sig, row);
  }

  lemma {:induction false} RebindUntouched(rows: map<NodeSig, Row>, now: map<NodeSig, Row>,
                                           rebound: map<NodeSig, NodeSig>,
                                           sig: NodeSig, taken: NodeSig, row: Row)
    requires Untouched(rows, now, rebound) && sig !in now && sig !in rows && sig !in rebound
    ensures Untouched(rows, (now - {taken})[sig := row], rebound[sig := taken])
  {
    var after, more := (now - {taken})[sig := row], rebound[sig := taken];
    forall o | o in rows && o !in after
      ensures exists heir :: heir in more && more[heir] == o
    {
      if o == taken {
        assert more[sig] == taken;
      } else {
        var heir :| heir in rebound && rebound[heir] == o;
        assert more[heir] == o;
      }
    }
  }

  lemma {:induction false} RebindRebound(rows: map<NodeSig, Row>, node: nat, want: set<NodeSig>, now: map<NodeSig, Row>,
                                         rebound: map<NodeSig, NodeSig>, sig: NodeSig, taken: NodeSig, row: Row)
    requires Rebound(rows, node, want, now, rebound) && ReboundOnce(rebound) && sig !in now && sig in want
             && sig !in rows
    requires taken in now && taken in rows && taken !in want && FreedSlot(rows[taken], node).Some?
    requires row.ref == rows[taken].ref && row.shm == rows[taken].shm
    ensures Rebound(rows, node, want, (now - {taken})[sig := row], rebound[sig := taken])
    ensures ReboundOnce(rebound[sig := taken])
  {
  }

  lemma {:induction false} RebindCreated(rows: map<NodeSig, Row>, p: Pass, now: map<NodeSig, Row>,
                                         rebound: map<NodeSig, NodeSig>,
                                         created: seq<NodeSig>, sig: NodeSig, taken: NodeSig, row: Row)
    requires Created(rows, p, now, rebound, created) && NothingElse(rows, now, rebound, created)
    requires sig !in now && taken in rows
    ensures Created(rows, p, (now - {taken})[sig := row], rebound[sig := taken], created)
    ensures NothingElse(rows, (now - {taken})[sig := row], rebound[sig := taken], created)
  {
  }

  lemma {:induction false} RebindKeeps(rows: map<NodeSig, Row>, p: Pass, want: set<NodeSig>, now: map<NodeSig, Row>,
                                       rebound: map<NodeSig, NodeSig>, created: seq<NodeSig>,
                                       sig: NodeSig, taken: NodeSig, row: Row)
    requires SafeRows(rows, p, want, now, rebound, created) && sig !in now && sig in want
    requires taken in now && taken in rows && taken !in want && FreedSlot(rows[taken], p.node).Some?
    requires row.ref == now[taken].ref && row.shm == now[taken].shm
    ensures SafeRows(rows, p, want, (now - {taken})[sig := row], rebound[sig := taken], created)
  {
    hide FreedSlot, NewRef, Rebound, ReboundOnce, Created, NothingElse;
    WantedIsNew(rows, p.node, want, now, rebound, sig);
    RebindUntouched(rows, now, rebound, sig, taken, row);
    RebindRebound(rows, p.node, want, now, rebound, sig, taken, row);
    RebindCreated(rows, p, now, rebound, created, sig, taken, row);
  }

  lemma {:induction false} PopOffer(rows: map<NodeSig, Row>, node: nat, want: set<NodeSig>,
                                    slots: map<Slot, seq<NodeSig>>, slot: Slot, now: map<NodeSig, Row>)
    requires SafeOffers(rows, node, want, slots, now) && Listed(slots, slot) != []
    ensures var all := slots[slot];
            var taken := all[|all| - 1];
            && taken in rows && taken in now && taken !in want && FreedSlot(rows[taken], node) == Some(slot)
            && SafeOffers(rows, node, want, slots[slot := all[..|all| - 1]], now - {taken})
  {
  }

  lemma {:induction false} MaterialiseKeepsSafe(rows: map<NodeSig, Row>, p: Pass, want: set<NodeSig>, b: Bench,
                                                sig: NodeSig, node: Node, places: seq<Place>)
    requires Safe(rows, p, want, b) && sig in want
    ensures Safe(rows, p, want, Materialise(b, p, sig, node, places))
  {
    hide SafeRows, SafeOffers, FormatOf, NewRef, NeededSlot;
    if b.stale || sig in b.rows {
    } else {
      var need := NeededSlot(p, node, places);
      var taken := Candidate(b, need);
      if taken.Some? && taken.value in b.rows && sig in p.rebindOk {
        PopOffer(rows, p.node, want, b.slots, need.value, b.rows);
        RebindKeeps(rows, p, want, b.rows, b.rebound, b.created, sig, taken.value,
                    RowOf(p, node, places, b.rows[taken.value].ref, b.rows[taken.value].shm));
        OffersGrow(rows, p.node, want, b.slots[need.value := b.slots[need.value][..|b.slots[need.value]| - 1]],
                   b.rows - {taken.value},
                   (b.rows - {taken.value})
                   [sig := RowOf(p, node, places, b.rows[taken.value].ref, b.rows[taken.value].shm)]);
      } else {
        var row := RowOf(p, node, places, NewRef(p, sig), Fab(sig));
        CreateKeeps(rows, p, want, b.rows, b.rebound, b.created, sig, row);
        OffersGrow(rows, p.node, want, b.slots, b.rows, b.rows[sig := row]);
      }
    }
  }

  lemma {:induction false} OffersGrow(rows: map<NodeSig, Row>, node: nat, want: set<NodeSig>,
                                      slots: map<Slot, seq<NodeSig>>,
                                      now: map<NodeSig, Row>, more: map<NodeSig, Row>)
    requires SafeOffers(rows, node, want, slots, now) && now.Keys <= more.Keys
    ensures SafeOffers(rows, node, want, slots, more)
  {
  }

  // ----- Outputs known to the assemblers

  /** What an assembler is given for a node is the output of the node's row. */
  predicate Wired(b: Bench, want: set<NodeSig>) {
    forall sig :: sig in b.shm ==> sig in want && sig in b.rows && b.shm[sig] == b.rows[sig].shm
  }

  /** A rebound node needs exactly the slot that the row freed. */
  predicate SameSlot(rows: map<NodeSig, Row>, p: Pass, walls: seq<Wall>, plan: FabricPlan,
                     rebound: map<NodeSig, NodeSig>) {
    forall sig :: sig in rebound ==>
      && sig in plan.nodes.byKey && sig in p.rebindOk && rebound[sig] in rows
      && NeededSlot(p, plan.nodes.byKey[sig], Places(walls, plan.outputs, sig)).Some?
      && FreedSlot(rows[rebound[sig]], p.node) == NeededSlot(p, plan.nodes.byKey[sig], Places(walls, plan.outputs, sig))
  }

  lemma {:induction false} WiredStep(rows: map<NodeSig, Row>, p: Pass, want: set<NodeSig>, b: Bench,
                                     sig: NodeSig, node: Node, places: seq<Place>)
    requires Safe(rows, p, want, b) && Wired(b, want) && sig in want
    ensures var c := Materialise(b, p, sig, node, places);
            Wired(c, want) && b.shm.Keys <= c.shm.Keys && (!c.stale ==> sig in c.shm)
            && (!c.stale ==> !b.stale)
  {
    hide SafeRows, FormatOf, NewRef, NeededSlot, Offers, OnceEach, StillThere, FreedSlot, At, Distinct;
    if !b.stale && sig !in b.rows {
      var need := NeededSlot(p, node, places);
      var taken := Candidate(b, need);
      if taken.Some? && taken.value in b.rows && sig in p.rebindOk {
        PopOffer(rows, p.node, want, b.slots, need.value, b.rows);
      }
    }
  }

  lemma {:induction false} SameSlotStep(rows: map<NodeSig, Row>, p: Pass, walls: seq<Wall>, plan: FabricPlan, b: Bench,
                                        sig: NodeSig)
    requires Safe(rows, p, plan.nodes.byKey.Keys, b) && sig in plan.nodes.byKey
    requires SameSlot(rows, p, walls, plan, b.rebound)
    ensures SameSlot(rows, p, walls, plan,
                     Materialise(b, p, sig, plan.nodes.byKey[sig], Places(walls, plan.outputs, sig)).rebound)
  {
    hide SafeRows, FormatOf, NewRef, NeededSlot, FreedSlot, Places, Offers;
    if !b.stale && sig !in b.rows {
      var need := NeededSlot(p, plan.nodes.byKey[sig], Places(walls, plan.outputs, sig));
      var taken := Candidate(b, need);
      if taken.Some? && taken.value in b.rows && sig in p.rebindOk {
        PopOffer(rows, p.node, plan.nodes.byKey.Keys, b.slots, need.value, b.rows);
      }
    }
  }

  lemma {:induction false} StartIsSafe(s: State, p: Pass, plan: FabricPlan)
    requires Distinct(p.scan)
    ensures Safe(s.rows, p, plan.nodes.byKey.Keys, StartBench(s, p, plan))
  {
    hide FreedSlot, NewRef, FreedSlots, Distinct;
    ScanOffers(s.rows, p.node, plan.nodes.byKey.Keys, p.scan);
  }

  /** Step 1 as a whole. */
  lemma {:induction false} AllMaterialised(s: State, p: Pass, walls: seq<Wall>, plan: FabricPlan, n: nat)
    requires Distinct(p.scan) && n <= |plan.nodes.order|
    ensures var b := MaterialiseAll(StartBench(s, p, plan), p, walls, plan, n);
            && Safe(s.rows, p, plan.nodes.byKey.Keys, b)
            && Wired(b, plan.nodes.byKey.Keys)
            && SameSlot(s.rows, p, walls, plan, b.rebound)
            && (!b.stale ==> forall k :: 0 <= k < n && plan.nodes.order[k] in plan.nodes.byKey ==>
                  plan.nodes.order[k] in b.shm)
  {
    hide Materialise, Safe, Places, NeededSlot, FreedSlot, FreedSlots;
    var b0 := StartBench(s, p, plan);
    if n == 0 {
      StartIsSafe(s, p, plan);
    } else {
      AllMaterialised(s, p, walls, plan, n - 1);
      var b, sig := MaterialiseAll(b0, p, walls, plan, n - 1), plan.nodes.order[n - 1];
      if sig in plan.nodes.byKey {
        MaterialiseKeepsSafe(s.rows, p, plan.nodes.byKey.Keys, b, sig, plan.nodes.byKey[sig],
                             Places(walls, plan.outputs, sig));
        WiredStep(s.rows, p, plan.nodes.byKey.Keys, b, sig, plan.nodes.byKey[sig], Places(walls, plan.outputs, sig));
        SameSlotStep(s.rows, p, walls, plan, b, sig);
      }
    }
  }

  // ----- The main results

  function BenchOf(s: State, p: Pass, walls: seq<Wall>, plan: FabricPlan): Bench {
    MaterialiseAll(StartBench(s, p, plan), p, walls, plan, |plan.nodes.order|)
  }

  /** Only a running shard of one wall is mutated: it leaves the plan, its single recorded parent is the wall
      that shows the new node, at the same place and size and with the same output format. Its container and
      output are taken over, once, and the old row is gone. */
  lemma {:induction false} RebindIsSafe(s: State, p: Pass, walls: seq<Wall>, plan: FabricPlan, sig: NodeSig)
      returns (place: Place)
    requires Distinct(p.scan) && sig in BenchOf(s, p, walls, plan).rebound
    ensures var b := BenchOf(s, p, walls, plan);
            var gone := b.rebound[sig];
            && sig in p.rebindOk && sig !in s.rows && sig in plan.nodes.byKey
            && plan.nodes.byKey[sig].kind == ShardKind && |plan.nodes.byKey[sig].sharedBy| == 1
            && Places(walls, plan.outputs, sig) == [place]
            && gone in s.rows && gone !in plan.nodes.byKey && gone !in b.rows
            && s.rows[gone].node == p.node && s.rows[gone].kind == ShardKind && s.rows[gone].parents == [place.wall]
            && s.rows[gone].at == Some((place.x, place.y)) && s.rows[gone].w == place.w && s.rows[gone].h == place.h
            && s.rows[gone].fmt == Some(FormatOf(p, plan.nodes.byKey[sig].style))
            && sig in b.rows && b.rows[sig].ref == s.rows[gone].ref && b.rows[sig].shm == s.rows[gone].shm
            && forall other :: other in b.rebound && b.rebound[other] == gone ==> other == sig
  {
    hide Materialise, FreedSlots, Places, FormatOf, NewRef;
    AllMaterialised(s, p, walls, plan, |plan.nodes.order|);
    var b := BenchOf(s, p, walls, plan);
    var need := NeededSlot(p, plan.nodes.byKey[sig], Places(walls, plan.outputs, sig));
    place := need.value.place;
    assert s.rows[b.rebound[sig]].parents == [s.rows[b.rebound[sig]].parents[0]];
    assert Places(walls, plan.outputs, sig) == [Places(walls, plan.outputs, sig)[0]];
  }

  /** Every row that was not rebound is as before, and every other row is a rebound or a created one. */
  lemma {:induction false} OtherRowsUntouched(s: State, p: Pass, walls: seq<Wall>, plan: FabricPlan, sig: NodeSig)
    requires Distinct(p.scan)
    ensures var b := BenchOf(s, p, walls, plan);
            && (sig in s.rows && sig !in b.rebound.Values ==> sig in b.rows && b.rows[sig] == s.rows[sig])
            && (sig in b.rows && sig !in s.rows ==> sig in plan.nodes.byKey && (sig in b.rebound || sig in b.created))
  {
    hide Materialise, FreedSlots, Places, FormatOf, NewRef, NeededSlot, FreedSlot;
    AllMaterialised(s, p, walls, plan, |plan.nodes.order|);
    CreatedArePlanned(s, p, walls, plan, |plan.nodes.order|);
  }

  lemma {:induction false} CreatedArePlanned(s: State, p: Pass, walls: seq<Wall>, plan: FabricPlan, n: nat)
    requires n <= |plan.nodes.order|
    ensures var b := MaterialiseAll(StartBench(s, p, plan), p, walls, plan, n);
            && (forall sig :: sig in b.created ==> sig in plan.nodes.byKey)
            && (forall sig :: sig in b.rebound ==> sig in plan.nodes.byKey)
  {
    hide FreedSlots, Places, FormatOf, NewRef, NeededSlot, Candidate;
    if n > 0 {
      CreatedArePlanned(s, p, walls, plan, n - 1);
    }
  }

  predicate ShmDistinct(rows: map<NodeSig, Row>) {
    forall a, c :: a in rows && c in rows && rows[a].shm == rows[c].shm ==> a == c
  }

  predicate RefDistinct(rows: map<NodeSig, Row>) {
    forall a, c :: a in rows && c in rows && rows[a].ref == rows[c].ref ==> a == c
  }

  lemma {:induction false} ShmCases(rows: map<NodeSig, Row>, p: Pass, want: set<NodeSig>, now: map<NodeSig, Row>,
                                    rebound: map<NodeSig, NodeSig>, created: seq<NodeSig>)
    requires SafeRows(rows, p, want, now, rebound, created) && ShmDistinct(rows)
    ensures ShmDistinct(now) <==> forall sig, o :: sig in created && o in rows ==> rows[o].shm != Fab(sig)
  {
  }

  lemma {:induction false} RefCases(rows: map<NodeSig, Row>, p: Pass, want: set<NodeSig>, now: map<NodeSig, Row>,
                                    rebound: map<NodeSig, NodeSig>, created: seq<NodeSig>)
    requires SafeRows(rows, p, want, now, rebound, created) && RefDistinct(rows)
    ensures RefDistinct(now)
            <==> && (forall sig, o :: sig in created && o in rows ==> rows[o].ref != NewRef(p, sig))
                 && (forall a, c :: a in created && c in created && NewRef(p, a) == NewRef(p, c) ==> a == c)
  {
  }

  // ----- What is created, from the state before the pass

  function NeedOf(p: Pass, walls: seq<Wall>, plan: FabricPlan, sig: NodeSig): Option<Slot>
    requires sig in plan.nodes.byKey
  {
    NeededSlot(p, plan.nodes.byKey[sig], Places(walls, plan.outputs, sig))
  }

  /** A missing node that would be rebound onto this slot. */
  predicate Claims(s: State, p: Pass, walls: seq<Wall>, plan: FabricPlan, slot: Slot, sig: NodeSig) {
    sig in plan.nodes.byKey && sig !in s.rows && sig in p.rebindOk && NeedOf(p, walls, plan, sig) == Some(slot)
  }

  /** How many of the first `n` planned nodes claim the slot. */
  function Claimants(s: State, p: Pass, walls: seq<Wall>, plan: FabricPlan, slot: Slot, n: nat): nat
    requires n <= |plan.nodes.order|
  {
    if n == 0 then 0 else
    Claimants(s, p, walls, plan, slot, n - 1)
        + (if Claims(s, p, walls, plan, slot, plan.nodes.order[n - 1]) then 1 else 0)
  }

  /** Rows that free the slot. */
  function Offered(s: State, p: Pass, plan: FabricPlan, slot: Slot): seq<NodeSig> {
    Listed(StartBench(s, p, plan).slots, slot)
  }

  /** The `k`-th planned node is missing, and no freed row is left for it: it claims no slot, or those before
      it claim as many as there are. */
  predicate Lacks(s: State, p: Pass, walls: seq<Wall>, plan: FabricPlan, k: nat)
    requires k < |plan.nodes.order| && plan.nodes.order[k] in plan.nodes.byKey
  {
    var sig := plan.nodes.order[k];
    && sig !in s.rows
    && match NeedOf(p, walls, plan, sig)
       case None => true
       case Some(slot) => sig !in p.rebindOk || Claimants(s, p, walls, plan, slot, k) >= |Offered(s, p, plan, slot)|
  }

  /** What is left of the freed rows after some nodes. */
  ghost predicate Remain(s: State, p: Pass, walls: seq<Wall>, plan: FabricPlan, n: nat, slots: map<Slot, seq<NodeSig>>)
    requires n <= |plan.nodes.order|
  {
    forall slot :: |Listed(slots, slot)| == Less(|Offered(s, p, plan, slot)|, Claimants(s, p, walls, plan, slot, n))
  }

  function Less(a: nat, b: nat): nat {
    if a >= b then a - b else 0
  }

  /** The nodes still to come are registered exactly when they were before the pass. */
  ghost predicate ToCome(s: State, plan: FabricPlan, n: nat, rows: map<NodeSig, Row>)
    requires n <= |plan.nodes.order|
  {
    forall k :: n <= k < |plan.nodes.order| ==> (plan.nodes.order[k] in rows <==> plan.nodes.order[k] in s.rows)
  }

  ghost predicate CreatedSoFar(s: State, p: Pass, walls: seq<Wall>, plan: FabricPlan, n: nat, created: seq<NodeSig>)
    requires n <= |plan.nodes.order| && ListedOnce(plan.nodes)
  {
    forall sig :: sig in created
        <==> exists k: nat :: k < n && plan.nodes.order[k] == sig && Lacks(s, p, walls, plan, k)
  }

  /** None of the first `n` nodes that lack a row makes the pass find itself out of date. */
  predicate NoneStale(s: State, p: Pass, walls: seq<Wall>, plan: FabricPlan, n: nat)
    requires n <= |plan.nodes.order| && forall sig :: sig in plan.nodes.order ==> sig in plan.nodes.byKey
  {
    forall k: nat :: k < n && Lacks(s, p, walls, plan, k) ==> plan.nodes.order[k] !in p.staleCreate
  }

  lemma {:induction false} TakenStep(s: State, p: Pass, walls: seq<Wall>, plan: FabricPlan, n: nat, b: Bench)
    requires 0 < n <= |plan.nodes.order| && ListedOnce(plan.nodes)
    requires Remain(s, p, walls, plan, n - 1, b.slots)
             && SafeOffers(s.rows, p.node, plan.nodes.byKey.Keys, b.slots, b.rows)
    requires !b.stale && (plan.nodes.order[n - 1] in b.rows <==> plan.nodes.order[n - 1] in s.rows)
    ensures var sig := plan.nodes.order[n - 1];
            var c := Materialise(b, p, sig, plan.nodes.byKey[sig], Places(walls, plan.outputs, sig));
            && Remain(s, p, walls, plan, n, c.slots)
            && (Lacks(s, p, walls, plan, n - 1) ==>
                  c == Create(b, p, sig, plan.nodes.byKey[sig], Places(walls, plan.outputs, sig)))
            && (!Lacks(s, p, walls, plan, n - 1) ==> c.created == b.created && !c.stale)
            && (!Lacks(s, p, walls, plan, n - 1) ==>
                  forall o :: o in plan.nodes.byKey && o != sig ==> (o in c.rows <==> o in b.rows))
  {
    hide Places, NeededSlot, FreedSlots, FreedSlot, RowOf, Offered, Offers, Distinct, NewRef, Claimants;
    var sig := plan.nodes.order[n - 1];
    ClaimantsStep(s, p, walls, plan, n);
    var need := NeedOf(p, walls, plan, sig);
    if sig !in b.rows && need.Some? && Listed(b.slots, need.value) != [] {
      PopOffer(s.rows, p.node, plan.nodes.byKey.Keys, b.slots, need.value, b.rows);
    }
  }

  lemma {:induction false} ClaimantsStep(s: State, p: Pass, walls: seq<Wall>, plan: FabricPlan, n: nat)
    requires 0 < n <= |plan.nodes.order|
    ensures forall slot :: Claimants(s, p, walls, plan, slot, n)
                           == Claimants(s, p, walls, plan, slot, n - 1)
                              + (if Claims(s, p, walls, plan, slot, plan.nodes.order[n - 1]) then 1 else 0)
  {
    hide Claims;
  }

  lemma {:induction false} CreatedUpTo(s: State, p: Pass, walls: seq<Wall>, plan: FabricPlan, n: nat)
    requires Distinct(p.scan) && n <= |plan.nodes.order| && ListedOnce(plan.nodes) && NoneStale(s, p, walls, plan, n)
    ensures var b := MaterialiseAll(StartBench(s, p, plan), p, walls, plan, n);
            && !b.stale && Remain(s, p, walls, plan, n, b.slots) && ToCome(s, plan, n, b.rows)
            && CreatedSoFar(s, p, walls, plan, n, b.created)
  {
    hide Places, Materialise, FreedSlots, Safe, Wired, SameSlot, Lacks, Remain, Create;
    if n == 0 {
      RemainAtStart(s, p, walls, plan);
    } else {
      CreatedUpTo(s, p, walls, plan, n - 1);
      AllMaterialised(s, p, walls, plan, n - 1);
      var b := MaterialiseAll(StartBench(s, p, plan), p, walls, plan, n - 1);
      var sig := plan.nodes.order[n - 1];
      SafeHasOffers(s.rows, p, plan.nodes.byKey.Keys, b);
      TakenStep(s, p, walls, plan, n, b);
      OneMoreCreated(s, p, walls, plan, n, b);
    }
  }

  lemma {:induction false} SafeHasOffers(rows: map<NodeSig, Row>, p: Pass, want: set<NodeSig>, b: Bench)
    requires Safe(rows, p, want, b)
    ensures SafeOffers(rows, p.node, want, b.slots, b.rows)
  {
  }

  lemma {:induction false} RemainAtStart(s: State, p: Pass, walls: seq<Wall>, plan: FabricPlan)
    ensures Remain(s, p, walls, plan, 0, StartBench(s, p, plan).slots)
  {
  }

  lemma {:induction false} OneMoreCreated(s: State, p: Pass, walls: seq<Wall>, plan: FabricPlan, n: nat, b: Bench)
    requires 0 < n <= |plan.nodes.order| && ListedOnce(plan.nodes) && NoneStale(s, p, walls, plan, n)
    requires ToCome(s, plan, n - 1, b.rows) && CreatedSoFar(s, p, walls, plan, n - 1, b.created)
    ensures var sig := plan.nodes.order[n - 1];
            var node, places := plan.nodes.byKey[sig], Places(walls, plan.outputs, sig);
            && (Lacks(s, p, walls, plan, n - 1) ==>
                  var c := Create(b, p, sig, node, places);
                  && c.stale == b.stale && ToCome(s, plan, n, c.rows) && CreatedSoFar(s, p, walls, plan, n, c.created))
            && (!Lacks(s, p, walls, plan, n - 1) ==> CreatedSoFar(s, p, walls, plan, n, b.created))
            && (forall k :: n <= k < |plan.nodes.order| ==> plan.nodes.order[k] != sig)
  {
    hide Places, Lacks, NewRef, RowOf;
    var sig := plan.nodes.order[n - 1];
    assert forall k :: n <= k < |plan.nodes.order| ==> plan.nodes.order[k] != sig;
    if Lacks(s, p, walls, plan, n - 1) {
      forall x
        ensures x in b.created + [sig]
                <==> exists k: nat :: k < n && plan.nodes.order[k] == x && Lacks(s, p, walls, plan, k)
      {
        if x == sig {
          assert plan.nodes.order[n - 1] == x;
        }
      }
    }
  }

  lemma {:induction false} StaleUpTo(s: State, p: Pass, walls: seq<Wall>, plan: FabricPlan, n: nat)
    requires Distinct(p.scan) && n <= |plan.nodes.order| && ListedOnce(plan.nodes) && !NoneStale(s, p, walls, plan, n)
    ensures MaterialiseAll(StartBench(s, p, plan), p, walls, plan, n).stale
  {
    hide Places, Materialise, FreedSlots, Safe, Wired, SameSlot, Lacks, Remain;
    var b := MaterialiseAll(StartBench(s, p, plan), p, walls, plan, n - 1);
    var sig := plan.nodes.order[n - 1];
    if NoneStale(s, p, walls, plan, n - 1) {
      CreatedUpTo(s, p, walls, plan, n - 1);
      AllMaterialised(s, p, walls, plan, n - 1);
      SafeHasOffers(s.rows, p, plan.nodes.byKey.Keys, b);
      TakenStep(s, p, walls, plan, n, b);
    } else {
      StaleUpTo(s, p, walls, plan, n - 1);
      StaysStale(b, p, sig, plan.nodes.byKey[sig], Places(walls, plan.outputs, sig));
    }
  }

  lemma {:induction false} StaysStale(b: Bench, p: Pass, sig: NodeSig, node: Node, places: seq<Place>)
    requires b.stale
    ensures Materialise(b, p, sig, node, places) == b
  {
  }

  /** The node is planned, lacks a row, and is reached: neither it nor one that lacks a row before it is found
      out of date. */
  predicate Missing(s: State, p: Pass, walls: seq<Wall>, plan: FabricPlan, sig: NodeSig)
    requires forall sig :: sig in plan.nodes.order ==> sig in plan.nodes.byKey
  {
    MissingUpTo(s, p, walls, plan, |plan.nodes.order|, sig)
  }

  predicate MissingUpTo(s: State, p: Pass, walls: seq<Wall>, plan: FabricPlan, n: nat, sig: NodeSig)
    requires n <= |plan.nodes.order| && forall sig :: sig in plan.nodes.order ==> sig in plan.nodes.byKey
  {
    exists k: nat :: k < n && plan.nodes.order[k] == sig && Lacks(s, p, walls, plan, k)
        && NoneStale(s, p, walls, plan, k + 1)
  }

  lemma {:induction false} NoneStaleBefore(s: State, p: Pass, walls: seq<Wall>, plan: FabricPlan, n: nat)
    requires n <= |plan.nodes.order| && ListedOnce(plan.nodes) && NoneStale(s, p, walls, plan, n)
    ensures forall k: nat :: k < n && Lacks(s, p, walls, plan, k) ==> NoneStale(s, p, walls, plan, k + 1)
  {
    hide Lacks;
  }

  lemma {:induction false} CreatedOrStale(s: State, p: Pass, walls: seq<Wall>, plan: FabricPlan, n: nat)
    requires Distinct(p.scan) && n <= |plan.nodes.order| && ListedOnce(plan.nodes)
    ensures var b := MaterialiseAll(StartBench(s, p, plan), p, walls, plan, n);
            && (b.stale <==> !NoneStale(s, p, walls, plan, n))
            && forall sig :: sig in b.created <==> MissingUpTo(s, p, walls, plan, n, sig)
  {
    hide Places, Materialise, FreedSlots, Safe, Wired, SameSlot, Lacks, Remain, NoneStale;
    var b := MaterialiseAll(StartBench(s, p, plan), p, walls, plan, n);
    if NoneStale(s, p, walls, plan, n) {
      CreatedUpTo(s, p, walls, plan, n);
      NoneStaleBefore(s, p, walls, plan, n);
    } else {
      StaleUpTo(s, p, walls, plan, n);
      assert n > 0 by {
        NoneOfNone(s, p, walls, plan);
      }
      CreatedOrStale(s, p, walls, plan, n - 1);
      StaleCreatesNothing(s, p, walls, plan, n);
    }
  }

  lemma {:induction false} NoneOfNone(s: State, p: Pass, walls: seq<Wall>, plan: FabricPlan)
    requires ListedOnce(plan.nodes)
    ensures NoneStale(s, p, walls, plan, 0)
  {
  }

  lemma {:induction false} StaleCreatesNothing(s: State, p: Pass, walls: seq<Wall>, plan: FabricPlan, n: nat)
    requires 0 < n <= |plan.nodes.order| && ListedOnce(plan.nodes)
    requires MaterialiseAll(StartBench(s, p, plan), p, walls, plan, n).stale
    ensures MaterialiseAll(StartBench(s, p, plan), p, walls, plan, n).created
            == MaterialiseAll(StartBench(s, p, plan), p, walls, plan, n - 1).created
  {
    hide Places, FreedSlots, NeededSlot, Candidate, NewRef, RowOf;
  }

  /** What step 1 creates, from the state before it: exactly the planned nodes that are missing and cannot be
      rebound, up to the first that is found out of date. */
  lemma {:induction false} CreatedExactly(s: State, p: Pass, walls: seq<Wall>, plan: FabricPlan)
    requires Distinct(p.scan) && ListedOnce(plan.nodes)
    ensures BenchOf(s, p, walls, plan).stale <==> !NoneStale(s, p, walls, plan, |plan.nodes.order|)
    ensures forall sig :: sig in BenchOf(s, p, walls, plan).created <==> Missing(s, p, walls, plan, sig)
  {
    hide MaterialiseAll, StartBench, NoneStale, MissingUpTo;
    CreatedOrStale(s, p, walls, plan, |plan.nodes.order|);
  }

  /** Outputs stay distinct exactly when no running row writes to a name made from a missing content. */
  lemma {:induction false} OutputsStayDistinct(s: State, p: Pass, walls: seq<Wall>, plan: FabricPlan)
    requires Distinct(p.scan) && ShmDistinct(s.rows) && ListedOnce(plan.nodes)
    ensures ShmDistinct(BenchOf(s, p, walls, plan).rows)
            <==> forall sig, o :: Missing(s, p, walls, plan, sig) && o in s.rows ==> s.rows[o].shm != Fab(sig)
  {
    hide Materialise, SafeRows, Wired, SameSlot, Missing, ShmDistinct, BenchOf;
    BenchIsSafe(s, p, walls, plan);
    CreatedExactly(s, p, walls, plan);
    var b := BenchOf(s, p, walls, plan);
    ShmCases(s.rows, p, plan.nodes.byKey.Keys, b.rows, b.rebound, b.created);
  }

  lemma {:induction false} BenchIsSafe(s: State, p: Pass, walls: seq<Wall>, plan: FabricPlan)
    requires Distinct(p.scan)
    ensures var b := BenchOf(s, p, walls, plan);
            SafeRows(s.rows, p, plan.nodes.byKey.Keys, b.rows, b.rebound, b.created)
  {
    hide MaterialiseAll, SafeRows, Wired, SameSlot;
    AllMaterialised(s, p, walls, plan, |plan.nodes.order|);
  }

  /** Containers stay distinct exactly when the references given to missing nodes are new and distinct. */
  lemma {:induction false} ContainersStayDistinct(s: State, p: Pass, walls: seq<Wall>, plan: FabricPlan)
    requires Distinct(p.scan) && RefDistinct(s.rows) && ListedOnce(plan.nodes)
    ensures RefDistinct(BenchOf(s, p, walls, plan).rows)
            <==> && (forall sig, o :: Missing(s, p, walls, plan, sig) && o in s.rows ==>
                       s.rows[o].ref != NewRef(p, sig))
                 && (forall a, c ::
                      Missing(s, p, walls, plan, a) && Missing(s, p, walls, plan, c) && NewRef(p, a) == NewRef(p, c) ==>
                        a == c)
  {
    hide Materialise, SafeRows, Wired, SameSlot, Missing, RefDistinct, BenchOf, NewRef;
    BenchIsSafe(s, p, walls, plan);
    CreatedExactly(s, p, walls, plan);
    var b := BenchOf(s, p, walls, plan);
    RefCases(s.rows, p, plan.nodes.byKey.Keys, b.rows, b.rebound, b.created);
  }
}
