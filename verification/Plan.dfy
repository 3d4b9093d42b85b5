/** The planner: walls to shared nodes, shards and assemblers (app/compositor_fabric.py:217-228, 369-445). */
module Plan {
  import opened Collections
  import opened Signatures
  import opened Geometry
  import opened Guillotine

  /** How each wall is partitioned. The planner is verified for all rules; `SourceRules` is the source's. */
  type Rules = Wall -> Policy

  function WallBudget(wall: Wall): Budget {
    if wall.outW == 0 || wall.outH == 0 then Unlimited else
    var area := wall.outW * wall.outH;
    Limited((if area < 1 then 1 else area) as real * 0.5)
  }

  function SourceRules(): Rules {
    wall => AreaPolicy(WallBudget(wall))
  }

  // ----- Shared elements

  predicate HasSig(elems: seq<Elem>, sig: ElemSig) {
    elems != [] && (elems[0].sig == sig || HasSig(elems[1..], sig))
  }

  lemma {:induction false} HasSigMember(elems: seq<Elem>, sig: ElemSig)
    ensures HasSig(elems, sig) <==> exists e :: e in elems && e.sig == sig
  {
    if elems != [] {
      HasSigMember(elems[1..], sig);
      assert elems[0] in elems;
      assert forall e :: e in elems <==> e == elems[0] || e in elems[1..];
    }
  }

  /** The keys of those among the first `n` walls that show a signature, in the order of the walls. */
  function OwnersUpTo(walls: seq<Wall>, sig: ElemSig, n: nat): seq<nat>
    requires n <= |walls|
  {
    if n == 0 then [] else
    OwnersUpTo(walls, sig, n - 1) + (if HasSig(Elements(walls[n - 1]), sig) then [walls[n - 1].key] else [])
  }

  function Owners(walls: seq<Wall>, sig: ElemSig): seq<nat> {
    OwnersUpTo(walls, sig, |walls|)
  }

  predicate Shared(walls: seq<Wall>, sig: ElemSig) {
    |Owners(walls, sig)| >= 2
  }

  function SharedElems(walls: seq<Wall>, elems: seq<Elem>): seq<Elem> {
    if elems == [] then []
    else if Shared(walls, elems[0].sig) then [elems[0]] + SharedElems(walls, elems[1..])
    else SharedElems(walls, elems[1..])
  }

  function OwnElems(walls: seq<Wall>, elems: seq<Elem>): seq<Elem> {
    if elems == [] then []
    else if Shared(walls, elems[0].sig) then OwnElems(walls, elems[1..])
    else [elems[0]] + OwnElems(walls, elems[1..])
  }

  lemma {:induction false} SharedOrOwn(walls: seq<Wall>, elems: seq<Elem>)
    ensures multiset(SharedElems(walls, elems)) + multiset(OwnElems(walls, elems)) == multiset(elems)
  {
    if elems != [] {
      SplitFirst(elems);
      SharedOrOwn(walls, elems[1..]);
    }
  }

  lemma {:induction false} SharedOwnMembers(walls: seq<Wall>, elems: seq<Elem>)
    ensures forall e :: e in SharedElems(walls, elems) <==> e in elems && Shared(walls, e.sig)
    ensures forall e :: e in OwnElems(walls, elems) <==> e in elems && !Shared(walls, e.sig)
  {
    if elems != [] {
      SharedOwnMembers(walls, elems[1..]);
      assert forall e :: e in elems <==> e == elems[0] || e in elems[1..];
    }
  }

  lemma {:induction false} SharedElemsConcat(walls: seq<Wall>, a: seq<Elem>, b: seq<Elem>)
    ensures SharedElems(walls, a + b) == SharedElems(walls, a) + SharedElems(walls, b)
    ensures OwnElems(walls, a + b) == OwnElems(walls, a) + OwnElems(walls, b)
  {
    hide Shared;
    if a == [] {
      assert a + b == b;
    } else {
      assert (a + b)[1..] == a[1..] + b;
      SharedElemsConcat(walls, a[1..], b);
    }
  }

  // ----- Tiles

  /** A rectangle of a wall that shows the output of a node. */
  datatype Tile = Tile(sig: NodeSig, x: int, y: int, w: int, h: int)

  function SharedTile(e: Elem): Tile {
    Tile(SharedSig(e.sig), e.x, e.y, Even(e.w), Even(e.h))
  }

  function SharedTiles(elems: seq<Elem>): seq<Tile> {
    if elems == [] then [] else [SharedTile(elems[0])] + SharedTiles(elems[1..])
  }

  function Shift(elems: seq<Elem>, dx: int, dy: int): seq<Elem> {
    if elems == [] then []
    else [elems[0].(x := elems[0].x + dx, y := elems[0].y + dy)] + Shift(elems[1..], dx, dy)
  }

  /** The box of a group; no group of a plan is empty. */
  function Frame(group: seq<Elem>): Box {
    if group == [] then Box(0, 0, 0, 0) else BBox(group)
  }

  /** The cells of a group, relative to the corner of its box. */
  function Relative(group: seq<Elem>): seq<Elem>
  {
    Shift(group, -Frame(group).x, -Frame(group).y)
  }

  function RegionOf(group: seq<Elem>, style: Style): NodeSig
  {
    RegionSig(Bag(Relative(group)), Frame(group).w, Frame(group).h, style)
  }

  function ShardTile(group: seq<Elem>, style: Style): Tile
  {
    Tile(RegionOf(group, style), Frame(group).x, Frame(group).y, Frame(group).w, Frame(group).h)
  }

  function ShardTiles(groups: seq<seq<Elem>>, style: Style): seq<Tile>
  {
    if groups == [] then [] else [ShardTile(groups[0], style)] + ShardTiles(groups[1..], style)
  }

  function Residual(walls: seq<Wall>, wall: Wall): seq<Elem> {
    OwnElems(walls, Cells(wall))
  }

  function Groups(walls: seq<Wall>, wall: Wall, maxCells: nat, rules: Rules): seq<seq<Elem>>
    requires maxCells > 0
  {
    if Residual(walls, wall) == [] then [] else Partition(Residual(walls, wall), maxCells, rules(wall), true)
  }

  /** All tiles of a wall, in drawing order: shared elements first, then the shards. */
  function Tiles(walls: seq<Wall>, wall: Wall, maxCells: nat, rules: Rules): seq<Tile>
    requires maxCells > 0
  {
    SharedTiles(SharedElems(walls, Elements(wall))) + ShardTiles(Groups(walls, wall, maxCells, rules), wall.style)
  }

  /** Overlays that the assembler draws itself. */
  function DirectOverlays(walls: seq<Wall>, overlays: seq<OverlayCfg>, style: Style): seq<OverlayCfg> {
    if overlays == [] then []
    else if Shared(walls, OverlayElem(overlays[0], style).sig) then DirectOverlays(walls, overlays[1..], style)
    else [overlays[0]] + DirectOverlays(walls, overlays[1..], style)
  }

  lemma {:induction false} DirectAreOwn(walls: seq<Wall>, overlays: seq<OverlayCfg>, style: Style)
    ensures OverlayElems(DirectOverlays(walls, overlays, style), style)
            == OwnElems(walls, OverlayElems(overlays, style))
  {
    if overlays != [] {
      DirectAreOwn(walls, overlays[1..], style);
      assert OverlayElems(overlays, style)[1..] == OverlayElems(overlays[1..], style);
      if !Shared(walls, OverlayElem(overlays[0], style).sig) {
        var rest := DirectOverlays(walls, overlays[1..], style);
        assert ([overlays[0]] + rest)[1..] == rest;
      }
    }
  }

  // ----- Nodes

  datatype Kind = SharedKind | ShardKind

  datatype Node = Node(kind: Kind, w: int, h: int, elements: multiset<Elem>, windows: seq<Elem>,
                       sharedBy: seq<nat>, style: Style)

  datatype Nodes = Nodes(byKey: map<NodeSig, Node>, order: seq<NodeSig>) {
    /** The first node stored under a signature stays. */
    function Add(sig: NodeSig, node: Node): Nodes {
      if sig in byKey then this else Nodes(byKey[sig := node], order + [sig])
    }
  }

  function NodeOfShared(owners: seq<nat>, e: Elem, style: Style): Node {
    var ow, oh := Even(e.w), Even(e.h);
    Node(SharedKind, ow, oh, multiset{Elem(e.sig, 0, 0, ow, oh)}, [e.(x := 0, y := 0)], owners, style)
  }

  function SharedNode(walls: seq<Wall>, e: Elem, style: Style): Node {
    NodeOfShared(Owners(walls, e.sig), e, style)
  }

  function ShardNode(wall: Wall, group: seq<Elem>): Node
  {
    Node(ShardKind, Frame(group).w, Frame(group).h, Bag(Relative(group)), Relative(group), [wall.key], wall.style)
  }

  function AddShared(ns: Nodes, walls: seq<Wall>, wall: Wall, elems: seq<Elem>): Nodes
    decreases elems
  {
    if elems == [] then ns else
    AddShared(ns.Add(SharedSig(elems[0].sig), SharedNode(walls, elems[0], wall.style)), walls, wall, elems[1..])
  }

  function AddShards(ns: Nodes, wall: Wall, groups: seq<seq<Elem>>): Nodes
    decreases groups
  {
    if groups == [] then ns else
    AddShards(ns.Add(RegionOf(groups[0], wall.style), ShardNode(wall, groups[0])), wall, groups[1..])
  }

  /** Shared nodes of the first `n` walls. */
  function SharedNodes(walls: seq<Wall>, n: nat): Nodes
    requires n <= |walls|
  {
    if n == 0 then Nodes(map[], []) else
    AddShared(SharedNodes(walls, n - 1), walls, walls[n - 1], SharedElems(walls, Elements(walls[n - 1])))
  }

  /** All shared nodes, then the shards of the first `n` walls. */
  function AllNodes(walls: seq<Wall>, maxCells: nat, rules: Rules, n: nat): Nodes
    requires maxCells > 0 && n <= |walls|
  {
    if n == 0 then SharedNodes(walls, |walls|) else
    AddShards(AllNodes(walls, maxCells, rules, n - 1), walls[n - 1], Groups(walls, walls[n - 1], maxCells, rules))
  }

  // ----- Outputs

  datatype Output = Output(tiles: seq<Tile>, overlays: seq<OverlayCfg>, outW: int, outH: int,
                           style: Style, shmOut: string, extra: string)

  function OutputOf(walls: seq<Wall>, wall: Wall, maxCells: nat, rules: Rules): Output
    requires maxCells > 0
  {
    Output(Tiles(walls, wall, maxCells, rules), DirectOverlays(walls, VisibleOverlays(wall.overlays), wall.style),
           wall.outW, wall.outH, wall.style, wall.shmOut, wall.extra)
  }

  function Outputs(walls: seq<Wall>, maxCells: nat, rules: Rules, n: nat): map<nat, Output>
    requires maxCells > 0 && n <= |walls|
  {
    if n == 0 then map[] else
    Outputs(walls, maxCells, rules, n - 1)[walls[n - 1].key := OutputOf(walls, walls[n - 1], maxCells, rules)]
  }

  datatype FabricPlan = FabricPlan(nodes: Nodes, outputs: map<nat, Output>)

  function PlanOf(walls: seq<Wall>, maxCells: nat, rules: Rules): FabricPlan
    requires maxCells > 0
  {
    FabricPlan(AllNodes(walls, maxCells, rules, |walls|), Outputs(walls, maxCells, rules, |walls|))
  }

  predicate DistinctKeys(walls: seq<Wall>) {
    forall i, j :: 0 <= i < j < |walls| ==> walls[i].key != walls[j].key
  }

  lemma {:induction false} OutputsAt(walls: seq<Wall>, maxCells: nat, rules: Rules, n: nat, i: nat)
    requires maxCells > 0 && i < n <= |walls| && DistinctKeys(walls)
    ensures walls[i].key in Outputs(walls, maxCells, rules, n)
    ensures Outputs(walls, maxCells, rules, n)[walls[i].key] == OutputOf(walls, walls[i], maxCells, rules)
  {
    hide OutputOf;
    if i < n - 1 {
      assert walls[i].key != walls[n - 1].key;
      OutputsAt(walls, maxCells, rules, n - 1, i);
    }
  }

  // ----- What a stored node contains

  /** A stored node shows what its signature says. */
  predicate NodeOk(sig: NodeSig, node: Node) {
    match sig
    case SharedSig(e) =>
      node.windows == [Elem(e, 0, 0, e.w, e.h)] && node.w == Even(e.w) && node.h == Even(e.h) && node.kind == SharedKind
    case RegionSig(members, w, h, style) =>
      Bag(node.windows) == members && node.w == w && node.h == h && node.style == style && node.kind == ShardKind
  }

  ghost predicate NodesOk(ns: Nodes) {
    && (forall sig :: sig in ns.byKey ==> NodeOk(sig, ns.byKey[sig]))
    && (forall sig :: sig in ns.byKey <==> sig in ns.order)
  }

  lemma {:induction false} AddKeeps(ns: Nodes, sig: NodeSig, node: Node)
    requires NodesOk(ns) && NodeOk(sig, node)
    ensures NodesOk(ns.Add(sig, node))
    ensures ns.byKey.Keys <= ns.Add(sig, node).byKey.Keys && sig in ns.Add(sig, node).byKey
  {
  }

  lemma {:induction false} AddSharedFacts(ns: Nodes, walls: seq<Wall>, wall: Wall, elems: seq<Elem>)
    requires NodesOk(ns) && forall e :: e in elems ==> Signed(e)
    ensures NodesOk(AddShared(ns, walls, wall, elems))
    ensures ns.byKey.Keys <= AddShared(ns, walls, wall, elems).byKey.Keys
    ensures forall e :: e in elems ==> SharedSig(e.sig) in AddShared(ns, walls, wall, elems).byKey
    decreases elems
  {
    if elems != [] {
      var e := elems[0];
      assert Signed(e);
      AddKeeps(ns, SharedSig(e.sig), SharedNode(walls, e, wall.style));
      hide NodesOk, SharedNode;
      AddSharedFacts(ns.Add(SharedSig(e.sig), SharedNode(walls, e, wall.style)), walls, wall, elems[1..]);
    }
  }

  lemma {:induction false} AddShardsFacts(ns: Nodes, wall: Wall, groups: seq<seq<Elem>>)
    requires NodesOk(ns)
    ensures NodesOk(AddShards(ns, wall, groups))
    ensures ns.byKey.Keys <= AddShards(ns, wall, groups).byKey.Keys
    ensures forall g :: g in groups ==> RegionOf(g, wall.style) in AddShards(ns, wall, groups).byKey
    decreases groups
  {
    if groups != [] {
      var g := groups[0];
      AddKeeps(ns, RegionOf(g, wall.style), ShardNode(wall, g));
      hide NodesOk, RegionOf, ShardNode;
      AddShardsFacts(ns.Add(RegionOf(g, wall.style), ShardNode(wall, g)), wall, groups[1..]);
    }
  }

  lemma {:induction false} AddSharedOfWall(ns: Nodes, walls: seq<Wall>, wall: Wall)
    requires NodesOk(ns)
    ensures var after := AddShared(ns, walls, wall, SharedElems(walls, Elements(wall)));
            && NodesOk(after)
            && ns.byKey.Keys <= after.byKey.Keys
            && forall e :: e in SharedElems(walls, Elements(wall)) ==> SharedSig(e.sig) in after.byKey
  {
    ElementsFacts(wall);
    SharedOwnMembers(walls, Elements(wall));
    AddSharedFacts(ns, walls, wall, SharedElems(walls, Elements(wall)));
  }

  lemma {:induction false} SharedNodesOk(walls: seq<Wall>, n: nat)
    requires n <= |walls|
    ensures NodesOk(SharedNodes(walls, n))
  {
    if n > 0 {
      hide NodesOk, AddShared, SharedElems, Elements;
      SharedNodesOk(walls, n - 1);
      AddSharedOfWall(SharedNodes(walls, n - 1), walls, walls[n - 1]);
    }
  }

  lemma {:induction false} SharedNodesHave(walls: seq<Wall>, n: nat, i: nat, e: Elem)
    requires i < n <= |walls| && e in SharedElems(walls, Elements(walls[i]))
    ensures SharedSig(e.sig) in SharedNodes(walls, n).byKey
  {
    hide NodesOk, AddShared, SharedElems;
    SharedNodesOk(walls, n - 1);
    AddSharedOfWall(SharedNodes(walls, n - 1), walls, walls[n - 1]);
    if i < n - 1 {
      SharedNodesHave(walls, n - 1, i, e);
    }
  }

  /** Every stored node shows what its signature says. */
  lemma {:induction false} AllNodesOk(walls: seq<Wall>, maxCells: nat, rules: Rules, n: nat)
    requires maxCells > 0 && n <= |walls|
    ensures NodesOk(AllNodes(walls, maxCells, rules, n))
  {
    if n == 0 {
      SharedNodesOk(walls, |walls|);
    } else {
      AllNodesOk(walls, maxCells, rules, n - 1);
      AddShardsFacts(AllNodes(walls, maxCells, rules, n - 1), walls[n - 1],
                     Groups(walls, walls[n - 1], maxCells, rules));
    }
  }

  /** Planning one more wall only adds nodes. */
  lemma {:induction false} AllNodesGrow(walls: seq<Wall>, maxCells: nat, rules: Rules, m: nat, n: nat)
    requires maxCells > 0 && m <= n <= |walls|
    ensures AllNodes(walls, maxCells, rules, m).byKey.Keys <= AllNodes(walls, maxCells, rules, n).byKey.Keys
    decreases n - m
  {
    hide NodesOk, AddShards, Groups, RegionOf;
    if m < n {
      AllNodesGrow(walls, maxCells, rules, m, n - 1);
      AllNodesOk(walls, maxCells, rules, n - 1);
      AddShardsFacts(AllNodes(walls, maxCells, rules, n - 1), walls[n - 1],
                     Groups(walls, walls[n - 1], maxCells, rules));
    }
  }

  lemma {:induction false} ShardNodesHave(walls: seq<Wall>, maxCells: nat, rules: Rules, i: nat, g: seq<Elem>)
    requires maxCells > 0 && i < |walls| && g in Groups(walls, walls[i], maxCells, rules)
    ensures RegionOf(g, walls[i].style) in AllNodes(walls, maxCells, rules, |walls|).byKey
  {
    AllNodesOk(walls, maxCells, rules, i);
    AddShardsFacts(AllNodes(walls, maxCells, rules, i), walls[i], Groups(walls, walls[i], maxCells, rules));
    AllNodesGrow(walls, maxCells, rules, i + 1, |walls|);
  }

  lemma {:induction false} SharedTilesMember(elems: seq<Elem>, t: Tile)
    ensures t in SharedTiles(elems) <==> exists e :: e in elems && t == SharedTile(e)
    ensures |SharedTiles(elems)| == |elems|
  {
    if elems != [] {
      SharedTilesMember(elems[1..], t);
      assert forall e :: e in elems <==> e == elems[0] || e in elems[1..];
    }
  }

  lemma {:induction false} ShardTilesMember(groups: seq<seq<Elem>>, style: Style, t: Tile)
    ensures t in ShardTiles(groups, style) ==> exists g :: g in groups && t == ShardTile(g, style)
    ensures |ShardTiles(groups, style)| == |groups|
  {
    if groups != [] {
      ShardTilesMember(groups[1..], style, t);
    }
  }

  /** Every tile has a node of its size that shows what the tile's signature says. */
  lemma {:induction false} TilesHaveNodes(walls: seq<Wall>, maxCells: nat, rules: Rules, i: nat, t: Tile)
    requires maxCells > 0 && i < |walls| && t in Tiles(walls, walls[i], maxCells, rules)
    ensures t.sig in AllNodes(walls, maxCells, rules, |walls|).byKey
    ensures NodeOk(t.sig, AllNodes(walls, maxCells, rules, |walls|).byKey[t.sig])
    ensures AllNodes(walls, maxCells, rules, |walls|).byKey[t.sig].w == t.w
    ensures AllNodes(walls, maxCells, rules, |walls|).byKey[t.sig].h == t.h
  {
    AllNodesOk(walls, maxCells, rules, |walls|);
    var shared := SharedElems(walls, Elements(walls[i]));
    SharedTilesMember(shared, t);
    if e :| e in shared && t == SharedTile(e) {
      SharedTileNode(walls, maxCells, rules, i, e);
    } else {
      ShardTilesMember(Groups(walls, walls[i], maxCells, rules), walls[i].style, t);
      var g :| g in Groups(walls, walls[i], maxCells, rules) && t == ShardTile(g, walls[i].style);
      ShardNodesHave(walls, maxCells, rules, i, g);
    }
  }

  lemma {:induction false} SharedTileNode(walls: seq<Wall>, maxCells: nat, rules: Rules, i: nat, e: Elem)
    requires maxCells > 0 && i < |walls| && e in SharedElems(walls, Elements(walls[i]))
    ensures SharedSig(e.sig) in AllNodes(walls, maxCells, rules, |walls|).byKey && Signed(e)
  {
    SharedNodesHave(walls, |walls|, i, e);
    AllNodesGrow(walls, maxCells, rules, 0, |walls|);
    ElementsFacts(walls[i]);
    SharedOwnMembers(walls, Elements(walls[i]));
  }

  // ----- No node is planned for nothing

  predicate ShownInWall(walls: seq<Wall>, maxCells: nat, rules: Rules, i: nat, sig: NodeSig)
    requires maxCells > 0 && i < |walls|
  {
    exists t :: t in Tiles(walls, walls[i], maxCells, rules) && t.sig == sig
  }

  lemma {:induction false} AddedShared(ns: Nodes, walls: seq<Wall>, wall: Wall, elems: seq<Elem>, sig: NodeSig)
    requires sig in AddShared(ns, walls, wall, elems).byKey
    ensures sig in ns.byKey || exists e :: e in elems && sig == SharedSig(e.sig)
    decreases elems
  {
    hide SharedNode;
    if elems != [] {
      AddedShared(ns.Add(SharedSig(elems[0].sig), SharedNode(walls, elems[0], wall.style)), walls, wall, elems[1..],
                  sig);
      assert elems[0] in elems;
    }
  }

  lemma {:induction false} AddedShards(ns: Nodes, wall: Wall, groups: seq<seq<Elem>>, sig: NodeSig)
    requires sig in AddShards(ns, wall, groups).byKey
    ensures sig in ns.byKey || exists g :: g in groups && sig == RegionOf(g, wall.style)
    decreases groups
  {
    hide RegionOf, ShardNode;
    if groups != [] {
      AddedShards(ns.Add(RegionOf(groups[0], wall.style), ShardNode(wall, groups[0])), wall, groups[1..], sig);
      assert groups[0] in groups;
    }
  }

  lemma {:induction false} GroupIsShown(walls: seq<Wall>, maxCells: nat, rules: Rules, i: nat, g: seq<Elem>)
    requires maxCells > 0 && i < |walls| && g in Groups(walls, walls[i], maxCells, rules)
    ensures ShownInWall(walls, maxCells, rules, i, RegionOf(g, walls[i].style))
  {
    hide Groups, RegionOf;
    ShardTilesHave(Groups(walls, walls[i], maxCells, rules), walls[i].style, g);
    assert ShardTile(g, walls[i].style) in Tiles(walls, walls[i], maxCells, rules);
  }

  lemma {:induction false} ShardTilesHave(groups: seq<seq<Elem>>, style: Style, g: seq<Elem>)
    requires g in groups
    ensures ShardTile(g, style) in ShardTiles(groups, style)
  {
    hide ShardTile;
    if g != groups[0] {
      ShardTilesHave(groups[1..], style, g);
    }
  }

  lemma {:induction false} ElemIsShown(walls: seq<Wall>, maxCells: nat, rules: Rules, i: nat, e: Elem)
    requires maxCells > 0 && i < |walls| && e in SharedElems(walls, Elements(walls[i]))
    ensures ShownInWall(walls, maxCells, rules, i, SharedSig(e.sig))
  {
    hide Groups, SharedElems, Elements;
    SharedTilesMember(SharedElems(walls, Elements(walls[i])), SharedTile(e));
    assert SharedTile(e) in Tiles(walls, walls[i], maxCells, rules);
  }

  lemma {:induction false} SharedNodeIsShown(walls: seq<Wall>, maxCells: nat, rules: Rules, n: nat,
                                             sig: NodeSig) returns (i: nat)
    requires maxCells > 0 && n <= |walls| && sig in SharedNodes(walls, n).byKey
    ensures i < |walls| && ShownInWall(walls, maxCells, rules, i, sig)
  {
    hide AddShared, SharedElems, Elements, ShownInWall;
    if sig in SharedNodes(walls, n - 1).byKey {
      i := SharedNodeIsShown(walls, maxCells, rules, n - 1, sig);
    } else {
      i := n - 1;
      AddedShared(SharedNodes(walls, i), walls, walls[i], SharedElems(walls, Elements(walls[i])), sig);
      var e :| e in SharedElems(walls, Elements(walls[i])) && sig == SharedSig(e.sig);
      ElemIsShown(walls, maxCells, rules, i, e);
    }
  }

  lemma {:induction false} NodeIsShown(walls: seq<Wall>, maxCells: nat, rules: Rules, n: nat,
                                       sig: NodeSig) returns (i: nat)
    requires maxCells > 0 && n <= |walls| && sig in AllNodes(walls, maxCells, rules, n).byKey
    ensures i < |walls| && ShownInWall(walls, maxCells, rules, i, sig)
  {
    hide AddShards, SharedNodes, Groups, ShownInWall, RegionOf;
    if n == 0 {
      i := SharedNodeIsShown(walls, maxCells, rules, |walls|, sig);
    } else if sig in AllNodes(walls, maxCells, rules, n - 1).byKey {
      i := NodeIsShown(walls, maxCells, rules, n - 1, sig);
    } else {
      i := n - 1;
      AddedShards(AllNodes(walls, maxCells, rules, i), walls[i], Groups(walls, walls[i], maxCells, rules), sig);
      var g :| g in Groups(walls, walls[i], maxCells, rules) && sig == RegionOf(g, walls[i].style);
      GroupIsShown(walls, maxCells, rules, i, g);
    }
  }

  /** The nodes of a plan are exactly those that some tile of some wall shows. */
  lemma {:induction false} NodesAreShown(walls: seq<Wall>, maxCells: nat, rules: Rules, sig: NodeSig)
    requires maxCells > 0
    ensures sig in PlanOf(walls, maxCells, rules).nodes.byKey
            <==> exists i: nat :: i < |walls| && ShownInWall(walls, maxCells, rules, i, sig)
  {
    hide Tiles, AllNodes, Outputs, NodeOk;
    if sig in PlanOf(walls, maxCells, rules).nodes.byKey {
      var i := NodeIsShown(walls, maxCells, rules, |walls|, sig);
    }
    if i: nat :| i < |walls| && ShownInWall(walls, maxCells, rules, i, sig) {
      var t :| t in Tiles(walls, walls[i], maxCells, rules) && t.sig == sig;
      TilesHaveNodes(walls, maxCells, rules, i, t);
    }
  }

  // ----- Nodes are listed once

  ghost predicate ListedOnce(ns: Nodes) {
    Distinct(ns.order) && forall sig :: sig in ns.order <==> sig in ns.byKey
  }

  lemma {:induction false} AddOnce(ns: Nodes, sig: NodeSig, node: Node)
    requires ListedOnce(ns)
    ensures ListedOnce(ns.Add(sig, node))
  {
  }

  lemma {:induction false} AddSharedOnce(ns: Nodes, walls: seq<Wall>, wall: Wall, elems: seq<Elem>)
    requires ListedOnce(ns)
    ensures ListedOnce(AddShared(ns, walls, wall, elems))
    decreases elems
  {
    hide ListedOnce, SharedNode;
    if elems != [] {
      AddOnce(ns, SharedSig(elems[0].sig), SharedNode(walls, elems[0], wall.style));
      AddSharedOnce(ns.Add(SharedSig(elems[0].sig), SharedNode(walls, elems[0], wall.style)), walls, wall, elems[1..]);
    }
  }

  lemma {:induction false} AddShardsOnce(ns: Nodes, wall: Wall, groups: seq<seq<Elem>>)
    requires ListedOnce(ns)
    ensures ListedOnce(AddShards(ns, wall, groups))
    decreases groups
  {
    hide ListedOnce, RegionOf, ShardNode;
    if groups != [] {
      AddOnce(ns, RegionOf(groups[0], wall.style), ShardNode(wall, groups[0]));
      AddShardsOnce(ns.Add(RegionOf(groups[0], wall.style), ShardNode(wall, groups[0])), wall, groups[1..]);
    }
  }

  lemma {:induction false} SharedListedOnce(walls: seq<Wall>, n: nat)
    requires n <= |walls|
    ensures ListedOnce(SharedNodes(walls, n))
  {
    if n > 0 {
      hide ListedOnce, AddShared, SharedElems, Elements;
      SharedListedOnce(walls, n - 1);
      AddSharedOnce(SharedNodes(walls, n - 1), walls, walls[n - 1], SharedElems(walls, Elements(walls[n - 1])));
    }
  }

  /** A plan lists each of its nodes once. */
  lemma {:induction false} NodesListedOnce(walls: seq<Wall>, maxCells: nat, rules: Rules, n: nat)
    requires maxCells > 0 && n <= |walls|
    ensures ListedOnce(AllNodes(walls, maxCells, rules, n))
  {
    hide ListedOnce, AddShards, Groups;
    if n == 0 {
      SharedListedOnce(walls, |walls|);
    } else {
      NodesListedOnce(walls, maxCells, rules, n - 1);
      AddShardsOnce(AllNodes(walls, maxCells, rules, n - 1), walls[n - 1],
                    Groups(walls, walls[n - 1], maxCells, rules));
    }
  }
}
