/** Multicast addresses: the ledger of reservations and the address plan
    (app/allocations.py:365-427, 533-628; app/database.py:3406-3443). */
module Multicast {
  import opened Collections

  datatype Addr = Addr(ip: nat, port: nat)

  type Ledger = map<Addr, string>

  datatype Essence = Video | Anc | Audio | Unplanned

  /** A range: its base and size, and what it says of the plan. */
  datatype Rule = Rule(base: nat, size: int, oneEssence: bool, leg: Option<nat>, offsets: map<Essence, int>,
                       audioStep: Option<int>)

  /** A flow that needs an address on a port; `slot` is unknown for flows outside a transmitter. */
  datatype Flow = Flow(owner: string, port: nat, essence: Essence, leg: nat, slot: Option<int>, index: int)

  // ----- The plan

  function DefaultOffset(e: Essence): int {
    match e
    case Anc => 50
    case Audio => 100
    case _ => 0
  }

  function OffsetOf(rule: Rule, e: Essence): int {
    if e in rule.offsets then rule.offsets[e] else if rule.oneEssence then 0 else DefaultOffset(e)
  }

  function AudioStep(rule: Rule): int {
    if rule.audioStep.Some? then rule.audioStep.value else 100
  }

  /** The rank of the flow's address in its range, when the plan has one. */
  function PlanRank(rule: Rule, f: Flow): Option<int> {
    if f.slot.None? || f.essence == Unplanned then None
    else if f.leg != 0 && rule.leg.None? then None
    else Some(OffsetOf(rule, f.essence) + f.slot.value + 1
              + if f.essence == Audio then f.index * AudioStep(rule) else 0)
  }

  /** What makes a flow of a transmitter: its essence, its slot, and for audio its index. */
  predicate SameFlow(a: Flow, b: Flow) {
    a.essence == b.essence && a.slot == b.slot && (a.essence == Audio ==> a.index == b.index)
  }

  /** A flow of a transmitter with `n` slots. */
  predicate InTransmitter(f: Flow, n: nat) {
    f.essence != Unplanned && f.slot.Some? && 0 <= f.slot.value < n && f.index >= 0 && f.leg == 0
  }

  /** A rule that leaves the plan to its defaults. */
  predicate ByDefault(rule: Rule) {
    rule.offsets == map[] && !rule.oneEssence && rule.audioStep.None?
  }

  /** The ranks of a transmitter's flows are all different. */
  ghost predicate RanksDiffer(rule: Rule, n: nat) {
    forall a, b :: InTransmitter(a, n) && InTransmitter(b, n) && PlanRank(rule, a) == PlanRank(rule, b) ==>
        SameFlow(a, b)
  }

  lemma {:induction false} RankIs(rule: Rule, f: Flow, n: nat)
    requires ByDefault(rule) && InTransmitter(f, n)
    ensures PlanRank(rule, f)
            == Some(DefaultOffset(f.essence) + f.slot.value + 1 + if f.essence == Audio then f.index * 100 else 0)
  {
  }

  /** By default, flows get different ranks exactly when there are at most 50 slots. */
  lemma {:induction false} PlanInjective(rule: Rule, n: nat)
    requires ByDefault(rule)
    ensures RanksDiffer(rule, n) <==> n <= 50
  {
    if n <= 50 {
      forall a, b | InTransmitter(a, n) && InTransmitter(b, n) && PlanRank(rule, a) == PlanRank(rule, b)
        ensures SameFlow(a, b)
      {
        RankIs(rule, a, n);
        RankIs(rule, b, n);
      }
    } else {
      var video := Flow("", 0, Video, 0, Some(50), 0);
      var anc := Flow("", 0, Anc, 0, Some(0), 0);
      assert InTransmitter(video, n) && InTransmitter(anc, n);
      assert PlanRank(rule, video) == PlanRank(rule, anc);
      assert !SameFlow(video, anc);
    }
  }

  // ----- The ledger

  function Of(ledger: Ledger, owner: string): set<Addr> {
    set a | a in ledger && ledger[a] == owner
  }

  /** Every owner has at most one reservation. */
  ghost predicate OneEach(ledger: Ledger) {
    forall a, b :: a in ledger && b in ledger && ledger[a] == ledger[b] ==> a == b
  }

  function Released(ledger: Ledger, owner: string, keep: set<Addr>): Ledger {
    ledger - (Of(ledger, owner) - keep)
  }

  predicate CanReserve(ledger: Ledger, a: Addr, owner: string) {
    a in ledger ==> ledger[a] == owner
  }

  /** The reservation is on the port, and in the range when there is one. */
  predicate Reusable(a: Addr, port: nat, range: Option<(nat, int)>) {
    a.port == port && (range.Some? ==> 1 <= a.ip - range.value.0 < range.value.1)
  }

  function At(base: nat, rank: nat, port: nat): Addr {
    Addr(base + rank, port)
  }

  /** The first address of a range, from rank `i` on, that nobody uses. */
  function FirstFree(used: set<Addr>, base: nat, size: int, port: nat, i: nat): Option<Addr>
    decreases size - i
  {
    if i >= size then None
    else if At(base, i, port) in used then FirstFree(used, base, size, port, i + 1)
    else Some(At(base, i, port))
  }

  datatype Answer = Answer(ledger: Ledger, address: Option<Addr>)

  /** The reservation of the owner if it still fits, else the first free address. */
  ghost function Scan(ledger: Ledger, registry: set<Addr>, owner: string, port: nat, base: nat, size: int,
                range: Option<(nat, int)>): Answer {
    if exists a :: a in Of(ledger, owner) && Reusable(a, port, range) then
      var a :| a in Of(ledger, owner) && Reusable(a, port, range);
      Answer(ledger, Some(a))
    else
      var left := Released(ledger, owner, {});
      match FirstFree(registry + left.Keys, base, size, port, 1)
      case None => Answer(left, None)
      case Some(a) => Answer(left[a := owner], Some(a))
  }

  predicate Planned(rule: Rule, f: Flow) {
    PlanRank(rule, f).Some? && 1 <= PlanRank(rule, f).value < rule.size
  }

  function PlannedAddr(rule: Rule, f: Flow): Addr
    requires Planned(rule, f)
  {
    At(rule.base, PlanRank(rule, f).value, f.port)
  }

  /** The whole decision: the planned address if it can be had, else the owner's reservation if it fits the
      range, else the first free address of the range. Without a rule, the same on the common pool. */
  ghost function AllocatedFor(ledger: Ledger, registry: set<Addr>, rule: Option<Rule>, poolBase: nat, poolSize: int,
                              f: Flow): Answer {
    if f.owner == "" then Answer(ledger, None)
    else if rule.None? then Scan(ledger, registry, f.owner, f.port, poolBase, poolSize, None)
    else if Planned(rule.value, f) && CanReserve(ledger, PlannedAddr(rule.value, f), f.owner) then
      var a := PlannedAddr(rule.value, f);
      Answer(Released(ledger[a := f.owner], f.owner, {a}), Some(a))
    else Scan(ledger, registry, f.owner, f.port, rule.value.base, rule.value.size,
              Some((rule.value.base, rule.value.size)))
  }

  class Reservations {
    var ledger: Ledger

    constructor ()
      ensures ledger == map[]
    {
      ledger := map[];
    }

    /** The insertion decides: it succeeds unless another owner holds the address. */
    method Reserve(a: Addr, owner: string) returns (held: bool)
      modifies this
      ensures held == CanReserve(old(ledger), a, owner)
      ensures ledger == if held then old(ledger)[a := owner] else old(ledger)
    {
      if a in ledger {
        return ledger[a] == owner;
      }
      ledger := ledger[a := owner];
      return true;
    }

    /** Afterwards the owner holds what it held of `keep`, and everybody else holds what they held. */
    method ReleaseOwner(owner: string, keep: set<Addr>)
      modifies this
      ensures ledger == Released(old(ledger), owner, keep)
      ensures forall o :: Of(ledger, o) == if o == owner then Of(old(ledger), o) * keep else Of(old(ledger), o)
    {
      ledger := ledger - (Of(ledger, owner) - keep);
    }

    /** The owner's reservation if it still fits; otherwise it is released. */
    method Reuse(owner: string, port: nat, range: Option<(nat, int)>) returns (address: Option<Addr>)
      requires OneEach(ledger)
      modifies this
      ensures address.Some? ==>
                ledger == old(ledger) && address.value in Of(ledger, owner) && Reusable(address.value, port, range)
      ensures address.None? ==> ledger == Released(old(ledger), owner, {})
                                && forall a :: a in Of(old(ledger), owner) ==> !Reusable(a, port, range)
    {
      var mine := Of(ledger, owner);
      if mine == {} {
        assert Released(ledger, owner, {}) == ledger;
        return None;
      }
      var a :| a in mine;
      if Reusable(a, port, range) {
        return Some(a);
      }
      ReleaseOwner(owner, {});
      return None;
    }

    method ScanRange(registry: set<Addr>, owner: string, port: nat, base: nat, size: int, range: Option<(nat, int)>)
        returns (address: Option<Addr>)
      requires OneEach(ledger)
      modifies this
      ensures Answer(ledger, address) == Scan(old(ledger), registry, owner, port, base, size, range)
    {
      address := Reuse(owner, port, range);
      if address.Some? {
        return;
      }
      var used := registry + ledger.Keys;
      var i := 1;
      while i < size
        invariant 1 <= i && ledger == Released(old(ledger), owner, {})
        invariant FirstFree(used, base, size, port, i) == FirstFree(used, base, size, port, 1)
        decreases size - i
      {
        var a := At(base, i, port);
        if a !in used {
          var held := Reserve(a, owner);
          if held {
            return Some(a);
          }
        }
        i := i + 1;
      }
      return None;
    }

    method AllocateFor(registry: set<Addr>, rule: Option<Rule>, poolBase: nat, poolSize: int,
                       f: Flow) returns (address: Option<Addr>)
      requires OneEach(ledger)
      modifies this
      ensures Answer(ledger, address) == AllocatedFor(old(ledger), registry, rule, poolBase, poolSize, f)
    {
      if f.owner == "" {
        return None;
      }
      if rule.None? {
        address := ScanRange(registry, f.owner, f.port, poolBase, poolSize, None);
        return;
      }
      if Planned(rule.value, f) {
        var a := PlannedAddr(rule.value, f);
        var held := Reserve(a, f.owner);
        if held {
          ReleaseOwner(f.owner, {a});
          return Some(a);
        }
      }
      address := ScanRange(registry, f.owner, f.port, rule.value.base, rule.value.size,
                           Some((rule.value.base, rule.value.size)));
    }
  }

  // ----- Properties

  lemma {:induction false} FirstFreeFacts(used: set<Addr>, base: nat, size: int, port: nat, i: nat)
    ensures var r := FirstFree(used, base, size, port, i);
            && (r.Some? ==> r.value !in used && r.value.port == port && base + i <= r.value.ip < base + size)
            && (r.None? ==> forall k: nat :: i <= k < size ==> At(base, k, port) in used)
            && (r.Some? ==> forall k: nat :: i <= k < r.value.ip - base ==> At(base, k, port) in used)
    decreases size - i
  {
    if i < size && At(base, i, port) in used {
      FirstFreeFacts(used, base, size, port, i + 1);
    }
  }

  lemma {:induction false} ScanFacts(ledger: Ledger, registry: set<Addr>, owner: string, port: nat, base: nat,
                                     size: int,
                                     range: Option<(nat, int)>)
    requires OneEach(ledger)
    ensures var r := Scan(ledger, registry, owner, port, base, size, range);
            && OneEach(r.ledger)
            && (forall a :: a in ledger && ledger[a] != owner ==> a in r.ledger && r.ledger[a] == ledger[a])
            && (forall a :: a in r.ledger && r.ledger[a] != owner ==> a in ledger && r.ledger[a] == ledger[a])
            && (r.address.Some? ==> Of(r.ledger, owner) == {r.address.value} && r.address.value.port == port
                                    && CanReserve(ledger, r.address.value, owner))
            && (r.address.None? ==> Of(r.ledger, owner) == {}
                                    && forall k: nat :: 1 <= k < size ==> At(base, k, port) in registry + r.ledger.Keys)
            && (r.address.Some? ==> Reusable(r.address.value, port, range) || 0 < r.address.value.ip - base < size)
  {
    if exists a :: a in Of(ledger, owner) && Reusable(a, port, range) {
      var r := Scan(ledger, registry, owner, port, base, size, range);
      assert r.address.value in Of(ledger, owner);
      forall a | a in Of(ledger, owner)
        ensures a == r.address.value
      {
      }
    } else {
      var left := Released(ledger, owner, {});
      FirstFreeFacts(registry + left.Keys, base, size, port, 1);
    }
  }

  /** What one request does, whatever the ledger: at most one reservation per owner stays true; every other
      owner keeps exactly what it had; the owner ends with exactly the address it is given, which nobody else
      held, or with none, and then every address of the range is in use. */
  lemma {:induction false} OneRequest(ledger: Ledger, registry: set<Addr>, rule: Option<Rule>, poolBase: nat,
                                      poolSize: int, f: Flow)
    requires OneEach(ledger) && f.owner != ""
    ensures var r := AllocatedFor(ledger, registry, rule, poolBase, poolSize, f);
            var base := if rule.Some? then rule.value.base else poolBase;
            var size := if rule.Some? then rule.value.size else poolSize;
            && OneEach(r.ledger)
            && (forall a :: a in ledger && ledger[a] != f.owner ==> a in r.ledger && r.ledger[a] == ledger[a])
            && (forall a :: a in r.ledger && r.ledger[a] != f.owner ==> a in ledger && r.ledger[a] == ledger[a])
            && (r.address.Some? ==> Of(r.ledger, f.owner) == {r.address.value} && r.address.value.port == f.port
                                    && CanReserve(ledger, r.address.value, f.owner))
            && (r.address.None? ==> Of(r.ledger, f.owner) == {}
                                    && forall k: nat :: 1 <= k < size ==>
                                         At(base, k, f.port) in registry + r.ledger.Keys)
  {
    hide Scan, OneEach;
    if rule.None? {
      ScanFacts(ledger, registry, f.owner, f.port, poolBase, poolSize, None);
    } else {
      ScanFacts(ledger, registry, f.owner, f.port, rule.value.base, rule.value.size,
                Some((rule.value.base, rule.value.size)));
      if Planned(rule.value, f) && CanReserve(ledger, PlannedAddr(rule.value, f), f.owner) {
        TakesPlanned(ledger, PlannedAddr(rule.value, f), f.owner);
      }
    }
  }

  lemma {:induction false} TakesPlanned(ledger: Ledger, a: Addr, owner: string)
    requires OneEach(ledger) && CanReserve(ledger, a, owner)
    ensures var r := Released(ledger[a := owner], owner, {a});
            && OneEach(r) && Of(r, owner) == {a}
            && (forall b :: b in ledger && ledger[b] != owner ==> b in r && r[b] == ledger[b])
            && (forall b :: b in r && r[b] != owner ==> b in ledger && r[b] == ledger[b])
  {
  }

  /** Under a rule, the address given lies strictly inside the range, on the port asked for. */
  lemma {:induction false} InsideRange(ledger: Ledger, registry: set<Addr>, rule: Rule, poolBase: nat, poolSize: int,
                                       f: Flow)
    requires OneEach(ledger)
    ensures var r := AllocatedFor(ledger, registry, Some(rule), poolBase, poolSize, f);
            r.address.Some? ==> 0 < r.address.value.ip - rule.base < rule.size && r.address.value.port == f.port
  {
    hide Scan, OneEach;
    ScanFacts(ledger, registry, f.owner, f.port, rule.base, rule.size, Some((rule.base, rule.size)));
  }

  /** The owner that holds a reusable address, and only that, is given it again. */
  lemma {:induction false} ScansAgain(ledger: Ledger, registry: set<Addr>, owner: string, port: nat, base: nat,
                                      size: int,
                                      range: Option<(nat, int)>, a: Addr)
    requires Of(ledger, owner) == {a} && Reusable(a, port, range)
    ensures Scan(ledger, registry, owner, port, base, size, range) == Answer(ledger, Some(a))
  {
  }

  lemma {:induction false} NothingAgain(ledger: Ledger, registry: set<Addr>, owner: string, port: nat, base: nat,
                                        size: int,
                                        range: Option<(nat, int)>)
    requires Of(ledger, owner) == {} && FirstFree(registry + ledger.Keys, base, size, port, 1) == None
    ensures Scan(ledger, registry, owner, port, base, size, range) == Answer(ledger, None)
  {
    assert Released(ledger, owner, {}) == ledger;
  }

  lemma {:induction false} NoneLeft(used: set<Addr>, base: nat, size: int, port: nat, i: nat)
    requires forall k: nat :: i <= k < size ==> At(base, k, port) in used
    ensures FirstFree(used, base, size, port, i) == None
    decreases size - i
  {
    if i < size {
      NoneLeft(used, base, size, port, i + 1);
    }
  }

  /** Asking again changes nothing: same ledger, same answer. */
  lemma {:induction false} AskingTwice(ledger: Ledger, registry: set<Addr>, rule: Option<Rule>, poolBase: nat,
                                       poolSize: int, f: Flow)
    requires OneEach(ledger)
    ensures var r := AllocatedFor(ledger, registry, rule, poolBase, poolSize, f);
            AllocatedFor(r.ledger, registry, rule, poolBase, poolSize, f) == r
  {
    hide Scan, OneEach, Planned, FirstFree, Reusable;
    if f.owner != "" {
      var r := AllocatedFor(ledger, registry, rule, poolBase, poolSize, f);
      OneRequest(ledger, registry, rule, poolBase, poolSize, f);
      var base := if rule.Some? then rule.value.base else poolBase;
      var size := if rule.Some? then rule.value.size else poolSize;
      var range := if rule.Some? then Some((base, size)) else None;
      if rule.Some? && Planned(rule.value, f) && CanReserve(r.ledger, PlannedAddr(rule.value, f), f.owner) {
        PlannedAgain(ledger, registry, rule.value, poolBase, poolSize, f);
      } else if r.address.Some? {
        assert Reusable(r.address.value, f.port, range) by {
          if rule.Some? {
            InsideRange(ledger, registry, rule.value, poolBase, poolSize, f);
          }
          ReusableIs(r.address.value, f.port, range);
        }
        ScansAgain(r.ledger, registry, f.owner, f.port, base, size, range, r.address.value);
      } else {
        NoneLeft(registry + r.ledger.Keys, base, size, f.port, 1);
        NothingAgain(r.ledger, registry, f.owner, f.port, base, size, range);
      }
    }
  }

  lemma {:induction false} ReusableIs(a: Addr, port: nat, range: Option<(nat, int)>)
    ensures Reusable(a, port, range) <==> a.port == port && (range.Some? ==> 0 < a.ip - range.value.0 < range.value.1)
  {
  }

  /** The planned address that can be had after a request is the one that was given. */
  lemma {:induction false} PlannedAgain(ledger: Ledger, registry: set<Addr>, rule: Rule, poolBase: nat, poolSize: int,
                                        f: Flow)
    requires OneEach(ledger) && f.owner != "" && Planned(rule, f)
    requires var r := AllocatedFor(ledger, registry, Some(rule), poolBase, poolSize, f);
             CanReserve(r.ledger, PlannedAddr(rule, f), f.owner)
    ensures var r := AllocatedFor(ledger, registry, Some(rule), poolBase, poolSize, f);
            && r.address == Some(PlannedAddr(rule, f))
            && AllocatedFor(r.ledger, registry, Some(rule), poolBase, poolSize, f) == r
  {
  }

  // ----- Runs

  datatype Op = Get(registry: set<Addr>, rule: Option<Rule>, poolBase: nat, poolSize: int,
                    f: Flow) | Drop(owner: string)

  ghost function Step(ledger: Ledger, op: Op): Ledger {
    match op
    case Get(registry, rule, poolBase, poolSize, f) =>
      AllocatedFor(ledger, registry, rule, poolBase, poolSize, f).ledger
    case Drop(owner) => Released(ledger, owner, {})
  }

  ghost function Run(ledger: Ledger, ops: seq<Op>, n: nat): Ledger
    requires n <= |ops|
  {
    if n == 0 then ledger else Step(Run(ledger, ops, n - 1), ops[n - 1])
  }

  function OwnerOf(op: Op): string {
    if op.Get? then op.f.owner else op.owner
  }

  /** Over any run of allocations and releases, every owner keeps at most one reservation. */
  lemma {:induction false} NoLeak(ledger: Ledger, ops: seq<Op>, n: nat)
    requires n <= |ops| && OneEach(ledger)
    ensures OneEach(Run(ledger, ops, n))
  {
    hide AllocatedFor;
    if n > 0 {
      NoLeak(ledger, ops, n - 1);
      if ops[n - 1].Get? && ops[n - 1].f.owner != "" {
        var op := ops[n - 1];
        OneRequest(Run(ledger, ops, n - 1), op.registry, op.rule, op.poolBase, op.poolSize, op.f);
      } else if ops[n - 1].Get? {
        NoOwnerNothing(Run(ledger, ops, n - 1), ops[n - 1]);
      }
    }
  }

  lemma {:induction false} NoOwnerNothing(ledger: Ledger, op: Op)
    requires op.Get? && op.f.owner == ""
    ensures Step(ledger, op) == ledger
  {
  }

  /** And an owner keeps its reservation through everything that others do. */
  lemma {:induction false} NobodyElseTakes(ledger: Ledger, ops: seq<Op>, n: nat, a: Addr)
    requires n <= |ops| && OneEach(ledger) && a in ledger
    requires forall i :: 0 <= i < n ==> OwnerOf(ops[i]) != ledger[a]
    ensures a in Run(ledger, ops, n) && Run(ledger, ops, n)[a] == ledger[a]
  {
    hide AllocatedFor, OneEach;
    if n > 0 {
      NobodyElseTakes(ledger, ops, n - 1, a);
      NoLeak(ledger, ops, n - 1);
      var op := ops[n - 1];
      if op.Get? && op.f.owner != "" {
        OneRequest(Run(ledger, ops, n - 1), op.registry, op.rule, op.poolBase, op.poolSize, op.f);
      } else if op.Get? {
        NoOwnerNothing(Run(ledger, ops, n - 1), op);
      }
    }
  }

  // ----- A whole transmitter

  /** Flows of a transmitter, with an owner and a rank of their own, on one port. */
  ghost predicate Transmitter(rule: Rule, fs: seq<Flow>) {
    && (forall i :: 0 <= i < |fs| ==> fs[i].owner != "" && Planned(rule, fs[i]))
    && (forall i, j :: 0 <= i < j < |fs| ==>
          fs[i].owner != fs[j].owner && PlannedAddr(rule, fs[i]) != PlannedAddr(rule, fs[j]))
  }

  function Requests(registry: set<Addr>, rule: Rule, fs: seq<Flow>): seq<Op> {
    if fs == [] then [] else [Get(registry, Some(rule), 0, 0, fs[0])] + Requests(registry, rule, fs[1..])
  }

  lemma {:induction false} RequestAt(registry: set<Addr>, rule: Rule, fs: seq<Flow>, i: nat)
    requires i < |fs|
    ensures |Requests(registry, rule, fs)| == |fs|
            && Requests(registry, rule, fs)[i] == Get(registry, Some(rule), 0, 0, fs[i])
  {
    if i > 0 {
      RequestAt(registry, rule, fs[1..], i - 1);
    } else if |fs| > 1 {
      RequestAt(registry, rule, fs[1..], 0);
    }
  }

  /** The plan is reached: when none of the planned addresses is held by a stranger, allocating the flows one
      after the other gives each of them its planned address, and it keeps it to the end. */
  lemma {:induction false} PlanIsReached(ledger: Ledger, registry: set<Addr>, rule: Rule, fs: seq<Flow>, n: nat, i: nat)
    requires OneEach(ledger) && Transmitter(rule, fs) && n <= |fs| == |Requests(registry, rule, fs)| && i < |fs|
    requires forall k :: 0 <= k < |fs| ==> CanReserve(ledger, PlannedAddr(rule, fs[k]), fs[k].owner)
    ensures var now := Run(ledger, Requests(registry, rule, fs), n);
            && CanReserve(now, PlannedAddr(rule, fs[i]), fs[i].owner)
            && (i < n ==> Of(now, fs[i].owner) == {PlannedAddr(rule, fs[i])})
  {
    hide OneEach, PlannedAddr, Planned, Scan;
    if n > 0 {
      var ops := Requests(registry, rule, fs);
      var before := Run(ledger, ops, n - 1);
      RequestAt(registry, rule, fs, n - 1);
      PlanIsReached(ledger, registry, rule, fs, n - 1, i);
      PlanIsReached(ledger, registry, rule, fs, n - 1, n - 1);
      NoLeak(ledger, ops, n - 1);
      TakesPlanned(before, PlannedAddr(rule, fs[n - 1]), fs[n - 1].owner);
      assert Planned(rule, fs[n - 1]);
      if i < n - 1 {
        assert fs[i].owner != fs[n - 1].owner;
        OthersSame(before, Run(ledger, ops, n), fs[n - 1].owner, fs[i].owner);
      } else if i > n - 1 {
        assert PlannedAddr(rule, fs[i]) != PlannedAddr(rule, fs[n - 1]);
        assert fs[n - 1].owner != fs[i].owner;
        StillFree(before, PlannedAddr(rule, fs[n - 1]), fs[n - 1].owner, PlannedAddr(rule, fs[i]), fs[i].owner);
      }
    }
  }

  /** By default the hypothesis holds for up to 50 slots, when the range is large enough. */
  lemma {:induction false} DefaultTransmitter(rule: Rule, fs: seq<Flow>, slots: nat)
    requires ByDefault(rule) && slots <= 50
    requires forall i :: 0 <= i < |fs| ==>
               InTransmitter(fs[i], slots) && fs[i].owner != "" && PlanRank(rule, fs[i]).value < rule.size
    requires forall i, j :: 0 <= i < j < |fs| ==> !SameFlow(fs[i], fs[j]) && fs[i].owner != fs[j].owner
    ensures Transmitter(rule, fs)
  {
    hide PlanRank, SameFlow, InTransmitter;
    PlanInjective(rule, slots);
    forall i | 0 <= i < |fs|
      ensures Planned(rule, fs[i])
    {
      RankIs(rule, fs[i], slots);
      RankPositive(fs[i], slots);
    }
    forall i, j | 0 <= i < j < |fs|
      ensures PlannedAddr(rule, fs[i]) != PlannedAddr(rule, fs[j])
    {
      assert !SameFlow(fs[i], fs[j]);
    }
  }

  lemma {:induction false} RankPositive(f: Flow, n: nat)
    requires InTransmitter(f, n)
    ensures DefaultOffset(f.essence) + f.slot.value + 1 + (if f.essence == Audio then f.index * 100 else 0) >= 1
  {
  }

  lemma {:induction false} OthersSame(before: Ledger, after: Ledger, owner: string, u: string)
    requires owner != u
    requires forall b :: b in before && before[b] != owner ==> b in after && after[b] == before[b]
    requires forall b :: b in after && after[b] != owner ==> b in before && after[b] == before[b]
    ensures Of(after, u) == Of(before, u)
    ensures forall a :: a in Of(after, u) ==> CanReserve(after, a, u)
  {
  }

  lemma {:induction false} StillFree(ledger: Ledger, a: Addr, owner: string, b: Addr, u: string)
    requires CanReserve(ledger, b, u) && a != b
    ensures CanReserve(Released(ledger[a := owner], owner, {a}), b, u)
  {
  }
}
