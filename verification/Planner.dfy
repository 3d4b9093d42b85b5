/** The planner as loops over walls and elements (app/compositor_fabric.py:217-228, 369-445). */
module Planner {
  import opened Signatures
  import opened Plan

  function OwnersOf(bySig: map<ElemSig, seq<nat>>, sig: ElemSig): seq<nat> {
    if sig in bySig then bySig[sig] else []
  }

  lemma {:induction false} HasSigPrefix(elems: seq<Elem>, j: nat, sig: ElemSig)
    requires j < |elems|
    ensures HasSig(elems[..j + 1], sig) <==> HasSig(elems[..j], sig) || elems[j].sig == sig
  {
    HasSigMember(elems[..j + 1], sig);
    HasSigMember(elems[..j], sig);
    assert elems[..j + 1] == elems[..j] + [elems[j]];
    assert elems[j] in elems[..j + 1];
  }

  /** Records that a wall shows its signatures; a signature repeated inside the wall counts once. */
  method RecordWall(bySig0: map<ElemSig, seq<nat>>, elems: seq<Elem>, key: nat) returns (bySig: map<ElemSig, seq<nat>>)
    ensures forall sig :: OwnersOf(bySig, sig) == OwnersOf(bySig0, sig) + (if HasSig(elems, sig) then [key] else [])
  {
    bySig := bySig0;
    var seen: set<ElemSig> := {};
    var j := 0;
    while j < |elems|
      invariant 0 <= j <= |elems|
      invariant forall sig :: sig in seen <==> HasSig(elems[..j], sig)
      invariant forall sig :: OwnersOf(bySig, sig) == OwnersOf(bySig0, sig) + (if sig in seen then [key] else [])
    {
      var sig := elems[j].sig;
      forall s {
        HasSigPrefix(elems, j, s);
      }
      if sig !in seen {
        seen := seen + {sig};
        bySig := bySig[sig := OwnersOf(bySig, sig) + [key]];
      }
      j := j + 1;
    }
    assert elems[..j] == elems;
  }

  function AtLeastTwo(bySig: map<ElemSig, seq<nat>>): (r: map<ElemSig, seq<nat>>)
    ensures forall sig :: sig in r <==> |OwnersOf(bySig, sig)| >= 2
    ensures forall sig :: sig in r ==> r[sig] == OwnersOf(bySig, sig)
  {
    map sig | sig in bySig && |bySig[sig]| >= 2 :: bySig[sig]
  }

  /** Signatures shown by at least two walls, with the walls that show them. */
  method SharedElements(walls: seq<Wall>) returns (shared: map<ElemSig, seq<nat>>)
    ensures forall sig :: sig in shared <==> Shared(walls, sig)
    ensures forall sig :: sig in shared ==> shared[sig] == Owners(walls, sig)
  {
    hide HasSig, Elements, AtLeastTwo;
    var bySig: map<ElemSig, seq<nat>> := map[];
    var i := 0;
    while i < |walls|
      invariant 0 <= i <= |walls|
      invariant forall sig :: OwnersOf(bySig, sig) == OwnersUpTo(walls, sig, i)
    {
      bySig := RecordWall(bySig, Elements(walls[i]), walls[i].key);
      i := i + 1;
    }
    shared := AtLeastTwo(bySig);
    forall sig
      ensures sig in shared <==> Shared(walls, sig)
      ensures sig in shared ==> shared[sig] == Owners(walls, sig)
    {
      assert OwnersOf(bySig, sig) == Owners(walls, sig);
    }
  }

  function EmptyOutput(wall: Wall): Output {
    Output([], [], wall.outW, wall.outH, wall.style, wall.shmOut, wall.extra)
  }

  method SharedOfWall(walls: seq<Wall>, wall: Wall, shared: map<ElemSig, seq<nat>>, nodes0: Nodes)
      returns (nodes: Nodes, tiles: seq<Tile>)
    requires forall sig :: sig in shared <==> Shared(walls, sig)
    requires forall sig :: sig in shared ==> shared[sig] == Owners(walls, sig)
    ensures nodes == AddShared(nodes0, walls, wall, SharedElems(walls, Elements(wall)))
    ensures tiles == SharedTiles(SharedElems(walls, Elements(wall)))
  {
    hide Elements, Shared, Owners, SharedTile, NodeOfShared;
    nodes, tiles := nodes0, [];
    var elems := Elements(wall);
    var j := 0;
    while j < |elems|
      invariant 0 <= j <= |elems|
      invariant AddShared(nodes, walls, wall, SharedElems(walls, elems[j..]))
                == AddShared(nodes0, walls, wall, SharedElems(walls, elems))
      invariant tiles + SharedTiles(SharedElems(walls, elems[j..])) == SharedTiles(SharedElems(walls, elems))
    {
      var e := elems[j];
      assert elems[j..][1..] == elems[j + 1..];
      if e.sig in shared {
        var rest := SharedElems(walls, elems[j + 1..]);
        assert ([e] + rest)[1..] == rest;
        if SharedSig(e.sig) !in nodes.byKey {
          nodes := nodes.Add(SharedSig(e.sig), NodeOfShared(shared[e.sig], e, wall.style));
        }
        tiles := tiles + [SharedTile(e)];
      }
      j := j + 1;
    }
  }

  method ShardsOfWall(walls: seq<Wall>, wall: Wall, maxCells: nat, rules: Rules, nodes0: Nodes)
      returns (nodes: Nodes, tiles: seq<Tile>)
    requires maxCells > 0
    ensures nodes == AddShards(nodes0, wall, Groups(walls, wall, maxCells, rules))
    ensures tiles == ShardTiles(Groups(walls, wall, maxCells, rules), wall.style)
  {
    hide Groups, RegionOf, ShardNode, ShardTile;
    nodes, tiles := nodes0, [];
    var groups := Groups(walls, wall, maxCells, rules);
    var j := 0;
    while j < |groups|
      invariant 0 <= j <= |groups|
      invariant AddShards(nodes, wall, groups[j..]) == AddShards(nodes0, wall, groups)
      invariant tiles + ShardTiles(groups[j..], wall.style) == ShardTiles(groups, wall.style)
    {
      var sig := RegionOf(groups[j], wall.style);
      assert groups[j..][1..] == groups[j + 1..];
      if sig !in nodes.byKey {
        nodes := nodes.Add(sig, ShardNode(wall, groups[j]));
      }
      tiles := tiles + [ShardTile(groups[j], wall.style)];
      j := j + 1;
    }
  }

  function FirstPass(walls: seq<Wall>, wall: Wall): Output {
    EmptyOutput(wall).(tiles := SharedTiles(SharedElems(walls, Elements(wall))))
  }

  function FirstOuts(walls: seq<Wall>, n: nat): seq<Output>
    requires n <= |walls|
  {
    if n == 0 then [] else FirstOuts(walls, n - 1) + [FirstPass(walls, walls[n - 1])]
  }

  lemma {:induction false} FirstOutsAt(walls: seq<Wall>, n: nat, i: nat)
    requires i < n <= |walls|
    ensures |FirstOuts(walls, n)| == n && FirstOuts(walls, n)[i] == FirstPass(walls, walls[i])
  {
    hide FirstPass;
    if i < n - 1 {
      FirstOutsAt(walls, n - 1, i);
    } else if n > 1 {
      FirstOutsAt(walls, n - 1, 0);
    }
  }

  /** Shared elements become nodes and tiles. */
  method PlanShared(walls: seq<Wall>) returns (nodes: Nodes, outs: seq<Output>)
    ensures nodes == SharedNodes(walls, |walls|)
    ensures outs == FirstOuts(walls, |walls|)
  {
    hide AddShared, SharedTiles, SharedElems, Elements, Shared;
    var shared := SharedElements(walls);
    nodes, outs := Nodes(map[], []), [];
    var i := 0;
    while i < |walls|
      invariant 0 <= i <= |walls|
      invariant nodes == SharedNodes(walls, i)
      invariant outs == FirstOuts(walls, i)
    {
      var tiles;
      nodes, tiles := SharedOfWall(walls, walls[i], shared, nodes);
      outs := outs + [EmptyOutput(walls[i]).(tiles := tiles)];
      i := i + 1;
    }
  }

  function SecondPass(walls: seq<Wall>, wall: Wall, o: Output, tiles: seq<Tile>): Output {
    o.(tiles := o.tiles + tiles, overlays := DirectOverlays(walls, VisibleOverlays(wall.overlays), wall.style))
  }

  lemma {:induction false} TwoPasses(walls: seq<Wall>, wall: Wall, maxCells: nat, rules: Rules)
    requires maxCells > 0
    ensures SecondPass(walls, wall, FirstPass(walls, wall),
                       ShardTiles(Groups(walls, wall, maxCells, rules), wall.style))
            == OutputOf(walls, wall, maxCells, rules)
  {
  }

  lemma {:induction false} NothingPlanned(walls: seq<Wall>, maxCells: nat, rules: Rules)
    requires maxCells > 0
    ensures AllNodes(walls, maxCells, rules, 0) == SharedNodes(walls, |walls|)
            && Outputs(walls, maxCells, rules, 0) == map[]
  {
  }

  lemma {:induction false} OneMorePlanned(walls: seq<Wall>, maxCells: nat, rules: Rules, n: nat)
    requires maxCells > 0 && 0 < n <= |walls|
    ensures AllNodes(walls, maxCells, rules, n)
            == AddShards(AllNodes(walls, maxCells, rules, n - 1), walls[n - 1],
                         Groups(walls, walls[n - 1], maxCells, rules))
    ensures Outputs(walls, maxCells, rules, n)
            == Outputs(walls, maxCells, rules, n - 1)
               [walls[n - 1].key := OutputOf(walls, walls[n - 1], maxCells, rules)]
  {
  }

  /** The plan of a set of walls. */
  method PlanFabric(walls: seq<Wall>, maxCells: nat, rules: Rules) returns (plan: FabricPlan)
    requires maxCells > 0
    ensures plan == PlanOf(walls, maxCells, rules)
  {
    hide AddShards, ShardTiles, Groups, SharedNodes, FirstOuts, FirstPass, SecondPass, OutputOf, AllNodes, Outputs;
    var nodes, outs := PlanShared(walls);
    var outputs: map<nat, Output> := map[];
    var i := 0;
    NothingPlanned(walls, maxCells, rules);
    while i < |walls|
      invariant 0 <= i <= |walls|
      invariant nodes == AllNodes(walls, maxCells, rules, i)
      invariant outputs == Outputs(walls, maxCells, rules, i)
    {
      var tiles;
      nodes, tiles := ShardsOfWall(walls, walls[i], maxCells, rules, nodes);
      FirstOutsAt(walls, |walls|, i);
      TwoPasses(walls, walls[i], maxCells, rules);
      OneMorePlanned(walls, maxCells, rules, i + 1);
      outputs := outputs[walls[i].key := SecondPass(walls, walls[i], outs[i], tiles)];
      i := i + 1;
    }
    plan := FabricPlan(nodes, outputs);
  }
}
