/** Small layouts and their plans, worked out. */
module Layouts {
  import opened Collections
  import opened Signatures
  import opened Geometry
  import opened Guillotine
  import opened Plan
  import opened PictureLimits
  import opened Elimination

  // ----- A window lost, another shown twice

  lemma {:induction false} SidesOfTwo(d: Elem, e: Elem, a: Axis, c: int)
    ensures Before([d, e], a, c) == (if Hi(d, a) <= c then [d] else []) + (if Hi(e, a) <= c then [e] else [])
    ensures After([d, e], a, c) == (if Lo(d, a) >= c then [d] else []) + (if Lo(e, a) >= c then [e] else [])
  {
    hide Hi, Lo;
    assert [d, e][1..] == [e] && [e][1..] == [];
    assert Before([e], a, c) == if Hi(e, a) <= c then [e] else [];
    assert After([e], a, c) == if Lo(e, a) >= c then [e] else [];
  }

  lemma {:induction false} SidesOfMore(d: Elem, rest: seq<Elem>, a: Axis, c: int)
    ensures Before([d] + rest, a, c) == (if Hi(d, a) <= c then [d] else []) + Before(rest, a, c)
    ensures After([d] + rest, a, c) == (if Lo(d, a) >= c then [d] else []) + After(rest, a, c)
  {
    assert ([d] + rest)[1..] == rest;
  }

  lemma {:induction false} EndsOfTwo(d: Elem, e: Elem, a: Axis)
    ensures Ends([d, e], a) == Insert([Hi(e, a)], Hi(d, a))
  {
    assert [d, e][1..] == [e] && [e][1..] == [];
    assert Ends([e], a) == [Hi(e, a)];
  }

  /** Two windows on one row, with an empty one between them and another across the line. */
  predicate Crossed(d: Elem, e: Elem, f: Elem, g: Elem) {
    && d.x == 0 && d.w == 2 && e.x == 2 && e.w == 0 && f.x == 1 && f.w == 3 && g.x == 2 && g.w == 2
    && d.y == 0 && d.h == 2 && e.y == 0 && e.h == 2 && f.y == 0 && f.h == 2 && g.y == 0 && g.h == 2
  }

  lemma {:induction false} CrossedEnds(d: Elem, e: Elem, f: Elem, g: Elem)
    requires Crossed(d, e, f, g)
    ensures Ends([d, e, f, g], X) == [2] + [4] && Ends([d, e, f, g], Y) == [2]
  {
    assert [d, e, f, g][1..] == [e, f, g] && [e, f, g][1..] == [f, g];
    EndsOfTwo(f, g, X);
    EndsOfTwo(f, g, Y);
    InsertTwo(2, 4);
    InsertTwo(4, 4);
    InsertTwo(2, 2);
    assert ([2] + [4])[0] == 2;
  }

  lemma {:induction false} CrossedSides(d: Elem, e: Elem, f: Elem, g: Elem)
    requires Crossed(d, e, f, g)
    ensures Before([d, e, f, g], X, 2) == [d, e] && After([d, e, f, g], X, 2) == [e, g]
    ensures After([d, e, f, g], X, 4) == [] && After([d, e, f, g], Y, 2) == []
  {
    assert [d, e, f, g] == [d] + [e, f, g];
    SidesOfThree(e, f, g, X, 2);
    SidesOfThree(e, f, g, X, 4);
    SidesOfThree(e, f, g, Y, 2);
    SidesOfMore(d, [e, f, g], X, 2);
    SidesOfMore(d, [e, f, g], X, 4);
    SidesOfMore(d, [e, f, g], Y, 2);
  }

  /** The length test accepts the line, although one window is on neither side and another on both. */
  lemma {:induction false} CrossedCut(d: Elem, e: Elem, f: Elem, g: Elem, budget: Budget)
    requires Crossed(d, e, f, g)
    ensures Chosen([d, e, f, g], AreaPolicy(budget)) == Some(Cut(X, 2, [d, e], [e, g]))
  {
    var cells := [d, e, f, g];
    AreaPolicyTakesBestCut(cells, budget);
    CrossedEnds(d, e, f, g);
    CrossedSides(d, e, f, g);
    hide Before, After, Ends, AreaPolicy, Chosen;
    CutsStep(cells, X, 2, [4]);
    CutsStep(cells, X, 4, []);
    CutsStep(cells, Y, 2, []);
    assert [4] + [] == [4] && [2] + [] == [2];
    assert FreeCuts(cells, X) + FreeCuts(cells, Y) == [Cut(X, 2, [d, e], [e, g])];
  }

  lemma {:induction false} FitsUnlimited(cells: seq<Elem>, maxCells: nat)
    requires 0 < |cells| <= maxCells
    ensures Partition(cells, maxCells, AreaPolicy(Unlimited), false) == [cells]
  {
    assert Fits(cells, maxCells, AreaPolicy(Unlimited));
  }

  lemma {:induction false} CrossedGroups(d: Elem, e: Elem, f: Elem, g: Elem, maxCells: nat)
    requires Crossed(d, e, f, g) && maxCells >= 2
    ensures Partition([d, e, f, g], maxCells, AreaPolicy(Unlimited), true) == [[d, e], [e, g]]
  {
    CrossedCut(d, e, f, g, Unlimited);
    FitsUnlimited([d, e], maxCells);
    FitsUnlimited([e, g], maxCells);
    hide Chosen, AreaPolicy, Fits;
  }

  /** So the partition of the source shows the empty window twice and the one across the line nowhere. */
  lemma {:induction false} CrossedWindowLost(d: Elem, e: Elem, f: Elem, g: Elem, maxCells: nat)
    requires Crossed(d, e, f, g) && maxCells >= 2
    ensures var p := Partition([d, e, f, g], maxCells, AreaPolicy(Unlimited), true);
            f !in Flatten(p) && multiset(Flatten(p))[e] == 2
  {
    CrossedGroups(d, e, f, g, maxCells);
    CrossedDiffer(d, e, f, g);
    hide Partition, Flatten, Crossed;
    TwoGroups(d, e, f, g);
  }

  lemma {:induction false} CrossedDiffer(d: Elem, e: Elem, f: Elem, g: Elem)
    requires Crossed(d, e, f, g)
    ensures e != d && e != g && f != d && f != e && f != g
  {
  }

  lemma {:induction false} TwoGroups(d: Elem, e: Elem, f: Elem, g: Elem)
    requires e != d && e != g && f != d && f != e && f != g
    ensures f !in Flatten([[d, e], [e, g]]) && multiset(Flatten([[d, e], [e, g]]))[e] == 2
  {
    var groups := [[d, e], [e, g]];
    assert groups[1..] == [[e, g]] && groups[1..][1..] == [];
    assert Flatten(groups[1..]) == [e, g];
    assert Flatten(groups) == [d, e, e, g];
    assert [d, e, e, g] == [d] + [e] + [e] + [g];
  }

  // ----- A block that no line can cut

  /** Four windows around a fifth one. */
  predicate Pinwheel(d: Elem, e: Elem, f: Elem, g: Elem, h: Elem) {
    && d.x == 0 && d.y == 0 && d.w == 4 && d.h == 2 && e.x == 4 && e.y == 0 && e.w == 2 && e.h == 4
    && f.x == 0 && f.y == 2 && f.w == 2 && f.h == 4 && g.x == 2 && g.y == 2 && g.w == 2 && g.h == 2
    && h.x == 2 && h.y == 4 && h.w == 4 && h.h == 2
  }

  lemma {:induction false} PinwheelUncut(d: Elem, e: Elem, f: Elem, g: Elem, h: Elem, policy: Policy)
    requires Pinwheel(d, e, f, g, h)
    ensures Chosen([d, e, f, g, h], policy) == None
  {
    var cells := [d, e, f, g, h];
    var r := Chosen(cells, policy);
    assert AllPositive(cells);
    if r.Some? {
      CutIsCorridor(cells, r.value);
      hide Chosen, IsFreeCut, AllPositive;
      PinwheelCrossed(d, e, f, g, h, r.value.axis, r.value.at);
    }
  }

  lemma {:induction false} PinwheelCrossed(d: Elem, e: Elem, f: Elem, g: Elem, h: Elem, a: Axis, c: int)
    requires Pinwheel(d, e, f, g, h)
    ensures !Corridor([d, e, f, g, h], a, c)
  {
    var cells := [d, e, f, g, h];
    assert d in cells && e in cells && f in cells && g in cells && h in cells;
  }

  /** Even disjoint windows, and slices of two whose boxes overlap. */
  lemma {:induction false} PinwheelOverlaps(d: Elem, e: Elem, f: Elem, g: Elem, h: Elem, budget: Budget)
    requires Pinwheel(d, e, f, g, h)
    ensures Partition([d, e, f, g, h], 2, AreaPolicy(budget), true) == [[d, e], [f, g], [h]]
    ensures BBox([d, e]) == Box(0, 0, 6, 4) && BBox([f, g]) == Box(0, 2, 4, 4)
    ensures !BoxesDisjoint(BBox([d, e]), BBox([f, g]))
  {
    PinwheelUncut(d, e, f, g, h, AreaPolicy(budget));
    PinwheelSliced(d, e, f, g, h);
    PinwheelBoxes(d, e, f, g);
    hide BBox, Chosen, AreaPolicy, ReadingOrder, Chunks;
  }

  lemma {:induction false} PinwheelSliced(d: Elem, e: Elem, f: Elem, g: Elem, h: Elem)
    requires Pinwheel(d, e, f, g, h)
    ensures Chunks(ReadingOrder([d, e, f, g, h]), 2) == [[d, e], [f, g], [h]]
  {
    var cells := [d, e, f, g, h];
    SortedStays(cells);
    hide ReadingOrder;
    assert cells[..2] == [d, e] && cells[2..] == [f, g, h];
    assert [f, g, h][..2] == [f, g] && [f, g, h][2..] == [h];
    assert Chunks([h], 2) == [[h]];
    assert Chunks([f, g, h], 2) == [[f, g], [h]];
  }

  lemma {:induction false} PinwheelBoxes(d: Elem, e: Elem, f: Elem, g: Elem)
    requires d.x == 0 && d.y == 0 && d.w == 4 && d.h == 2 && e.x == 4 && e.y == 0 && e.w == 2 && e.h == 4
    requires f.x == 0 && f.y == 2 && f.w == 2 && f.h == 4 && g.x == 2 && g.y == 2 && g.w == 2 && g.h == 2
    ensures BBox([d, e]) == Box(0, 0, 6, 4) && BBox([f, g]) == Box(0, 2, 4, 4)
  {
    assert [d, e][1..] == [e] && [f, g][1..] == [g];
    hide Even, BBox;
    assert MinLo([e], X) == 4 && MinLo([e], Y) == 0 && MaxHi([e], X) == 6 && MaxHi([e], Y) == 4;
    assert MinLo([d, e], X) == 0 && MinLo([d, e], Y) == 0 && MaxHi([d, e], X) == 6 && MaxHi([d, e], Y) == 4;
    assert MinLo([g], X) == 2 && MinLo([g], Y) == 2 && MaxHi([g], X) == 4 && MaxHi([g], Y) == 4;
    assert MinLo([f, g], X) == 0 && MinLo([f, g], Y) == 2 && MaxHi([f, g], X) == 4 && MaxHi([f, g], Y) == 6;
    BoxOfBounds([d, e], 0, 0, 6, 4);
    BoxOfBounds([f, g], 0, 2, 4, 6);
  }

  // ----- Two windows side by side

  function Window22(path: string, x: int): CellCfg {
    CellCfg(false, path, x, 0, 2, 2, "")
  }

  function Placed(path: string, x: int): Elem {
    CellElem(Window22(path, x), PLAIN)
  }

  /** A wall of two windows side by side, which its area limit splits. */
  function Pair(v: nat, a: string, b: string): Wall {
    Wall(v, [Window22(a, 0), Window22(b, 2)], [], 4, 2, PLAIN, "", "")
  }

  /** The shard of one window. */
  function Alone(path: string): NodeSig {
    RegionSig(multiset{Placed(path, 0)}, 2, 2, PLAIN)
  }

  function AloneNode(v: nat, path: string): Node {
    Node(ShardKind, 2, 2, multiset{Placed(path, 0)}, [Placed(path, 0)], [v], PLAIN)
  }

  function PairTiles(a: string, b: string): seq<Tile> {
    [Tile(Alone(a), 0, 0, 2, 2), Tile(Alone(b), 2, 0, 2, 2)]
  }

  function PairPlan(v: nat, a: string, b: string): FabricPlan {
    FabricPlan(Nodes(map[Alone(a) := AloneNode(v, a), Alone(b) := AloneNode(v, b)], [Alone(a), Alone(b)]),
               map[v := Output(PairTiles(a, b), [], 4, 2, PLAIN, "", "")])
  }

  lemma {:induction false} TwoCells(wall: Wall, c: CellCfg, d: CellCfg)
    requires wall.cells == [c, d] && VisibleCell(c) && VisibleCell(d) && wall.overlays == []
    ensures Cells(wall) == [CellElem(c, wall.style), CellElem(d, wall.style)] && Overlays(wall) == []
            && VisibleCount(wall) == 2
    ensures Elements(wall) == [CellElem(c, wall.style), CellElem(d, wall.style)]
  {
    assert [c, d][1..] == [d] && [d][1..] == [];
    assert VisibleCells([d]) == [d];
    assert VisibleCells([c, d]) == [c, d];
    assert CellElems([d], wall.style) == [CellElem(d, wall.style)];
    assert CellElems([c, d], wall.style) == [CellElem(c, wall.style), CellElem(d, wall.style)];
  }

  /** A wall planned alone shares nothing. */
  lemma {:induction false} NothingShared(wall: Wall, elems: seq<Elem>)
    ensures SharedElems([wall], elems) == [] && OwnElems([wall], elems) == elems
  {
    if elems != [] {
      assert Owners([wall], elems[0].sig) == OwnersUpTo([wall], elems[0].sig, 1);
      assert OwnersUpTo([wall], elems[0].sig, 0) == [];
      assert !Shared([wall], elems[0].sig);
      hide Shared;
      NothingShared(wall, elems[1..]);
    }
  }

  predicate SideBySide(l: Elem, r: Elem) {
    l.x == 0 && l.y == 0 && l.w == 2 && l.h == 2 && r.x == 2 && r.y == 0 && r.w == 2 && r.h == 2
  }

  lemma {:induction false} PairSides(l: Elem, r: Elem)
    requires SideBySide(l, r)
    ensures Before([l, r], X, 2) == [l] && After([l, r], X, 2) == [r]
    ensures After([l, r], X, 4) == [] && After([l, r], Y, 2) == []
  {
    SidesOfTwo(l, r, X, 2);
    SidesOfTwo(l, r, X, 4);
    SidesOfTwo(l, r, Y, 2);
  }

  lemma {:induction false} PairEnds(l: Elem, r: Elem)
    requires SideBySide(l, r)
    ensures Ends([l, r], X) == [2] + [4] && Ends([l, r], Y) == [2]
  {
    EndsOfTwo(l, r, X);
    EndsOfTwo(l, r, Y);
    InsertTwo(2, 4);
    InsertTwo(2, 2);
  }

  lemma {:induction false} PairCuts(l: Elem, r: Elem)
    requires SideBySide(l, r)
    ensures FreeCuts([l, r], X) == [Cut(X, 2, [l], [r])] && FreeCuts([l, r], Y) == []
  {
    PairEnds(l, r);
    PairSides(l, r);
    hide Before, After, Ends;
    CutsStep([l, r], X, 2, [4]);
    CutsStep([l, r], X, 4, []);
    CutsStep([l, r], Y, 2, []);
    var none: seq<int> := [];
    assert [4] + none == [4] && [2] + none == [2];
  }

  lemma {:induction false} PairChoice(l: Elem, r: Elem, budget: Budget)
    requires SideBySide(l, r)
    ensures Chosen([l, r], AreaPolicy(budget)) == Some(Cut(X, 2, [l], [r]))
  {
    AreaPolicyTakesBestCut([l, r], budget);
    PairCuts(l, r);
    hide FreeCuts, AreaPolicy, Chosen;
    var cut := Cut(X, 2, [l], [r]);
    assert FreeCuts([l, r], X) + FreeCuts([l, r], Y) == [cut];
    assert [cut][1..] == [];
  }

  lemma {:induction false} OneBox(e: Elem)
    requires e.x % 2 == 0 && e.y % 2 == 0 && e.w % 2 == 0 && e.h % 2 == 0
    ensures BBox([e]) == Box(e.x, e.y, e.w, e.h)
  {
    assert MinLo([e], X) == e.x && MinLo([e], Y) == e.y && MaxHi([e], X) == e.x + e.w && MaxHi([e], Y) == e.y + e.h;
    BoxOfBounds([e], e.x, e.y, e.x + e.w, e.y + e.h);
  }

  lemma {:induction false} OneShift(e: Elem, dx: int, dy: int)
    ensures Shift([e], dx, dy) == [e.(x := e.x + dx, y := e.y + dy)]
  {
    assert [e][1..] == [];
  }

  lemma {:induction false} SmallFits(e: Elem, maxCells: nat)
    requires e.x % 2 == 0 && e.y % 2 == 0 && e.w == 2 && e.h == 2 && maxCells > 0
    ensures Partition([e], maxCells, AreaPolicy(Limited(4.0)), false) == [[e]]
  {
    OneBox(e);
    hide BBox, Chosen;
    assert Fits([e], maxCells, AreaPolicy(Limited(4.0)));
  }

  lemma {:induction false} PairGroups(l: Elem, r: Elem, maxCells: nat)
    requires SideBySide(l, r) && maxCells > 0
    ensures Partition([l, r], maxCells, AreaPolicy(Limited(4.0)), true) == [[l], [r]]
  {
    hide Chosen, BBox, AreaPolicy, Fits;
    PairChoice(l, r, Limited(4.0));
    SmallFits(l, maxCells);
    SmallFits(r, maxCells);
  }

  lemma {:induction false} ShardOfOne(path: string, x: int, y: int)
    requires y == 0 && x % 2 == 0
    ensures ShardTile([Placed(path, x)], PLAIN) == Tile(Alone(path), x, 0, 2, 2)
    ensures RegionOf([Placed(path, x)], PLAIN) == Alone(path)
    ensures forall w: Wall :: w.style == PLAIN ==> ShardNode(w, [Placed(path, x)]) == AloneNode(w.key, path)
  {
    var e := Placed(path, x);
    OneBox(e);
    OneShift(e, -x, 0);
    hide BBox, Shift;
    assert Relative([e]) == [Placed(path, 0)];
    assert [Placed(path, 0)][1..] == [];
    assert Bag([Placed(path, 0)]) == multiset{Placed(path, 0)};
  }

  lemma {:induction false} PairGroupsOf(v: nat, a: string, b: string, maxCells: nat)
    requires a != "" && b != "" && maxCells > 0
    ensures var wall := Pair(v, a, b);
            && Groups([wall], wall, maxCells, SourceRules()) == [[Placed(a, 0)], [Placed(b, 2)]]
            && SharedElems([wall], Elements(wall)) == []
  {
    var wall := Pair(v, a, b);
    TwoCells(wall, Window22(a, 0), Window22(b, 2));
    NothingShared(wall, Elements(wall));
    NothingShared(wall, Cells(wall));
    PairGroups(Placed(a, 0), Placed(b, 2), maxCells);
    hide Partition, AreaPolicy, SharedElems, OwnElems;
    assert WallBudget(wall) == Limited(4.0);
    assert SourceRules()(wall) == AreaPolicy(WallBudget(wall));
  }

  lemma {:induction false} TwoShards(wall: Wall, g: seq<Elem>, h: seq<Elem>)
    requires RegionOf(g, wall.style) != RegionOf(h, wall.style)
    ensures AddShards(Nodes(map[], []), wall, [g, h])
            == Nodes(map[RegionOf(g, wall.style) := ShardNode(wall, g), RegionOf(h, wall.style) := ShardNode(wall, h)],
                     [RegionOf(g, wall.style), RegionOf(h, wall.style)])
  {
    hide RegionOf, ShardNode;
    assert [g, h][1..] == [h] && [h][1..] == [];
    var first := Nodes(map[], []).Add(RegionOf(g, wall.style), ShardNode(wall, g));
    assert AddShards(first, wall, [h]) == first.Add(RegionOf(h, wall.style), ShardNode(wall, h));
  }

  lemma {:induction false} TwoShardTiles(g: seq<Elem>, h: seq<Elem>, style: Style)
    ensures ShardTiles([g, h], style) == [ShardTile(g, style), ShardTile(h, style)]
  {
    hide ShardTile;
    assert [g, h][1..] == [h] && [h][1..] == [];
    assert ShardTiles([h], style) == [ShardTile(h, style)];
  }

  lemma {:induction false} DifferentShards(a: string, b: string)
    requires a != b
    ensures Alone(a) != Alone(b)
  {
    assert Placed(a, 0) in Alone(a).members && Placed(a, 0) !in Alone(b).members;
  }

  lemma {:induction false} PairNodes(v: nat, a: string, b: string, maxCells: nat)
    requires a != "" && b != "" && a != b && maxCells > 0
    ensures AllNodes([Pair(v, a, b)], maxCells, SourceRules(), 1) == PairPlan(v, a, b).nodes
  {
    hide Groups, Elements, RegionOf, ShardNode, SourceRules, SharedElems, AddShards, Alone, AloneNode, Placed;
    var wall, l, r := Pair(v, a, b), Placed(a, 0), Placed(b, 2);
    PairGroupsOf(v, a, b, maxCells);
    ShardOfOne(a, 0, 0);
    ShardOfOne(b, 2, 0);
    DifferentShards(a, b);
    TwoShards(wall, [l], [r]);
    var none := Nodes(map[], []);
    assert SharedNodes([wall], 0) == none;
    assert SharedNodes([wall], 1) == none;
    assert AllNodes([wall], maxCells, SourceRules(), 0) == none;
  }

  lemma {:induction false} PairOutput(v: nat, a: string, b: string, maxCells: nat)
    requires a != "" && b != "" && maxCells > 0
    ensures var wall := Pair(v, a, b);
            && Tiles([wall], wall, maxCells, SourceRules()) == PairTiles(a, b)
            && Outputs([wall], maxCells, SourceRules(), 1) == map[v := Output(PairTiles(a, b), [], 4, 2, PLAIN, "", "")]
  {
    PairTiled(v, a, b, maxCells);
    hide Tiles, SourceRules, PairTiles;
    var wall := Pair(v, a, b);
    assert VisibleOverlays([]) == [] && DirectOverlays([wall], [], PLAIN) == [];
    assert Outputs([wall], maxCells, SourceRules(), 0) == map[];
  }

  lemma {:induction false} PairTiled(v: nat, a: string, b: string, maxCells: nat)
    requires a != "" && b != "" && maxCells > 0
    ensures Tiles([Pair(v, a, b)], Pair(v, a, b), maxCells, SourceRules()) == PairTiles(a, b)
  {
    hide Groups, Elements, ShardTile, ShardTiles, SourceRules, SharedElems, Alone, Placed;
    var wall, l, r := Pair(v, a, b), Placed(a, 0), Placed(b, 2);
    PairGroupsOf(v, a, b, maxCells);
    ShardOfOne(a, 0, 0);
    ShardOfOne(b, 2, 0);
    TwoShardTiles([l], [r], PLAIN);
    assert SharedTiles([]) == [];
  }

  /** The plan of the wall alone: one shard per window, whatever the size of groups. */
  lemma {:induction false} PairPlanned(v: nat, a: string, b: string, maxCells: nat)
    requires a != "" && b != "" && a != b && maxCells > 0
    ensures PlanOf([Pair(v, a, b)], maxCells, SourceRules()) == PairPlan(v, a, b)
    ensures TileCount([Pair(v, a, b)], Pair(v, a, b), maxCells, SourceRules()) == 2 && VisibleCount(Pair(v, a, b)) == 2
  {
    PairNodes(v, a, b, maxCells);
    PairOutput(v, a, b, maxCells);
    TwoCells(Pair(v, a, b), Window22(a, 0), Window22(b, 2));
    hide AllNodes, Tiles, Outputs, SourceRules, Alone, AloneNode;
  }

  // ----- Two windows at the same place

  /** A wall of two windows at the same place: nothing can separate them. */
  function Stack(v: nat, a: string, b: string): Wall {
    Wall(v, [Window22(a, 0), Window22(b, 0)], [], 4, 2, PLAIN, "", "")
  }

  lemma {:induction false} StackChoice(d: Elem, e: Elem, budget: Budget)
    requires d.x == e.x && d.y == e.y && d.w == 2 && d.h == 2 && e.w == 2 && e.h == 2
    ensures Chosen([d, e], AreaPolicy(budget)) == None
  {
    var r := Chosen([d, e], AreaPolicy(budget));
    if r.Some? {
      SidesOfTwo(d, e, r.value.axis, r.value.at);
    }
  }

  /** It gets a single tile. */
  lemma {:induction false} StackPlanned(v: nat, a: string, b: string, maxCells: nat)
    requires a != "" && b != "" && maxCells >= 2
    ensures TileCount([Stack(v, a, b)], Stack(v, a, b), maxCells, SourceRules()) == 1
            && VisibleCount(Stack(v, a, b)) == 2
  {
    var wall := Stack(v, a, b);
    var cells := [Placed(a, 0), Placed(b, 0)];
    TwoCells(wall, Window22(a, 0), Window22(b, 0));
    NothingShared(wall, Elements(wall));
    NothingShared(wall, Cells(wall));
    StackChoice(Placed(a, 0), Placed(b, 0), WallBudget(wall));
    ReadingOrderPermutes(cells);
    ChunksFacts(ReadingOrder(cells), maxCells);
    TileCountIs([wall], wall, maxCells, SourceRules());
    hide AreaPolicy, SharedElems, OwnElems, TileCount, WallBudget, Chosen, ReadingOrder, Elements, Cells;
    assert SourceRules()(wall) == AreaPolicy(WallBudget(wall));
    assert Partition(cells, maxCells, AreaPolicy(WallBudget(wall)), true) == Chunks(ReadingOrder(cells), maxCells);
  }

  // ----- Windows in a row

  /** Windows of two pixels side by side, from a column. */
  predicate InRow(cells: seq<Elem>, x0: int) {
    forall i :: 0 <= i < |cells| ==> cells[i].x == x0 + 2 * i && cells[i].y == 0 && cells[i].w == 2 && cells[i].h == 2
  }

  lemma {:induction false} RowTail(cells: seq<Elem>, x0: int)
    requires InRow(cells, x0) && cells != []
    ensures InRow(cells[1..], x0 + 2)
  {
  }

  lemma {:induction false} RowSides(cells: seq<Elem>, x0: int, j: int)
    requires InRow(cells, x0) && 0 <= j <= |cells|
    ensures Before(cells, X, x0 + 2 * j) == cells[..j] && After(cells, X, x0 + 2 * j) == cells[j..]
    ensures After(cells, Y, 2) == []
  {
    if cells != [] {
      hide Before, After;
      RowTail(cells, x0);
      var rest := cells[1..];
      assert cells == [cells[0]] + rest;
      SidesOfMore(cells[0], rest, X, x0 + 2 * j);
      SidesOfMore(cells[0], rest, Y, 2);
      if j > 0 {
        RowSides(rest, x0 + 2, j - 1);
        assert cells[..j] == [cells[0]] + rest[..j - 1] && cells[j..] == rest[j - 1..];
      } else {
        RowSides(rest, x0 + 2, 0);
        RowAfter(rest, x0 + 2, x0);
      }
    }
  }

  lemma {:induction false} RowAfter(cells: seq<Elem>, x0: int, c: int)
    requires InRow(cells, x0) && c < x0
    ensures Before(cells, X, c) == [] && After(cells, X, c) == cells
  {
    if cells != [] {
      RowTail(cells, x0);
      RowAfter(cells[1..], x0 + 2, c);
    }
  }

  /** The lines between the windows, and the end of the row. */
  function RowLines(x0: int, n: nat): seq<int>
    decreases n
  {
    if n == 0 then [] else [x0 + 2] + RowLines(x0 + 2, n - 1)
  }

  lemma {:induction false} RowEnds(cells: seq<Elem>, x0: int)
    requires InRow(cells, x0)
    ensures Ends(cells, X) == RowLines(x0, |cells|)
    ensures Ends(cells, Y) == if cells == [] then [] else [2]
  {
    if cells != [] {
      RowTail(cells, x0);
      RowEnds(cells[1..], x0 + 2);
    }
  }

  function RowCut(cells: seq<Elem>, x0: int, j: nat): Cut
    requires j <= |cells|
  {
    Cut(X, x0 + 2 * j, cells[..j], cells[j..])
  }

  /** The cuts of the row from its `j`-th line on. */
  function RowCuts(cells: seq<Elem>, x0: int, j: nat): seq<Cut>
    decreases |cells| - j
  {
    if j >= |cells| then [] else [RowCut(cells, x0, j)] + RowCuts(cells, x0, j + 1)
  }

  lemma {:induction false} RowCutsFound(cells: seq<Elem>, x0: int, j: nat)
    requires InRow(cells, x0) && 1 <= j <= |cells|
    ensures CutsAmong(cells, X, RowLines(x0 + 2 * (j - 1), |cells| - j + 1)) == RowCuts(cells, x0, j)
    decreases |cells| - j
  {
    hide Before, After, InRow;
    RowSides(cells, x0, j);
    var rest := RowLines(x0 + 2 * j, |cells| - j);
    CutsStep(cells, X, x0 + 2 * j, rest);
    if j < |cells| {
      RowCutsFound(cells, x0, j + 1);
    }
  }

  lemma {:induction false} RowFreeCuts(cells: seq<Elem>, x0: int)
    requires InRow(cells, x0) && cells != []
    ensures FreeCuts(cells, X) == RowCuts(cells, x0, 1) && FreeCuts(cells, Y) == []
  {
    hide Before, After, InRow, Ends;
    RowEnds(cells, x0);
    RowCutsFound(cells, x0, 1);
    RowSides(cells, x0, 0);
    CutsStep(cells, Y, 2, []);
    var none: seq<int> := [];
    assert [2] + none == [2];
  }

  lemma {:induction false} RowBounds(cells: seq<Elem>, x0: int)
    requires InRow(cells, x0) && cells != []
    ensures MinLo(cells, X) == x0 && MinLo(cells, Y) == 0 && MaxHi(cells, X) == x0 + 2 * |cells| && MaxHi(cells, Y) == 2
  {
    if |cells| > 1 {
      RowTail(cells, x0);
      RowBounds(cells[1..], x0 + 2);
    }
  }

  lemma {:induction false} RowBox(cells: seq<Elem>, x0: int)
    requires InRow(cells, x0) && cells != [] && x0 % 2 == 0
    ensures BBox(cells) == Box(x0, 0, 2 * |cells|, 2)
  {
    RowBounds(cells, x0);
    BoxOfBounds(cells, x0, 0, x0 + 2 * |cells|, 2);
  }

  lemma {:induction false} RowPart(cells: seq<Elem>, x0: int, j: int, k: int)
    requires InRow(cells, x0) && 0 <= j <= k <= |cells|
    ensures InRow(cells[j..k], x0 + 2 * j)
  {
  }

  lemma {:induction false} RowGap(cells: seq<Elem>, x0: int, j: nat)
    requires InRow(cells, x0) && x0 % 2 == 0 && 0 < j < |cells|
    ensures ScoreOf(RowCut(cells, x0, j), AreaGap)
            == if 2 * j >= |cells| then 8 * j - 4 * |cells| else 4 * |cells| - 8 * j
  {
    RowPart(cells, x0, 0, j);
    RowPart(cells, x0, j, |cells|);
    assert cells[0..j] == cells[..j] && cells[j..|cells|] == cells[j..];
    RowBox(cells[..j], x0);
    RowBox(cells[j..], x0 + 2 * j);
    hide BBox, InRow;
  }

  /** Five windows are first cut after the second. */
  lemma {:induction false} FiveChoice(cells: seq<Elem>, x0: int, budget: Budget)
    requires InRow(cells, x0) && x0 % 2 == 0 && |cells| == 5
    ensures Chosen(cells, AreaPolicy(budget)) == Some(RowCut(cells, x0, 2))
  {
    hide InRow, Chosen, AreaPolicy, FreeCuts, ScoreOf, RowCut;
    AreaPolicyTakesBestCut(cells, budget);
    RowFreeCuts(cells, x0);
    RowGap(cells, x0, 1);
    RowGap(cells, x0, 2);
    RowGap(cells, x0, 3);
    RowGap(cells, x0, 4);
    var a, b, c, d := RowCut(cells, x0, 1), RowCut(cells, x0, 2), RowCut(cells, x0, 3), RowCut(cells, x0, 4);
    RowCutsOfFive(cells, x0);
    FirstOfFour(a, b, c, d);
    assert [a, b, c, d] + [] == [a, b, c, d];
  }

  lemma {:induction false} RowCutsOfFive(cells: seq<Elem>, x0: int)
    requires |cells| == 5
    ensures RowCuts(cells, x0, 1)
            == [RowCut(cells, x0, 1), RowCut(cells, x0, 2), RowCut(cells, x0, 3), RowCut(cells, x0, 4)]
  {
    hide RowCut;
    assert RowCuts(cells, x0, 4) == [RowCut(cells, x0, 4)];
    assert RowCuts(cells, x0, 3) == [RowCut(cells, x0, 3), RowCut(cells, x0, 4)];
    assert RowCuts(cells, x0, 2) == [RowCut(cells, x0, 2), RowCut(cells, x0, 3), RowCut(cells, x0, 4)];
  }

  lemma {:induction false} FirstOfFour(a: Cut, b: Cut, c: Cut, d: Cut)
    requires ScoreOf(a, AreaGap) > ScoreOf(b, AreaGap) && ScoreOf(b, AreaGap) <= ScoreOf(c, AreaGap)
    requires ScoreOf(c, AreaGap) <= ScoreOf(d, AreaGap)
    ensures Best([a, b, c, d], AreaGap) == Some(b)
  {
    hide ScoreOf;
    var cuts := [a, b, c, d];
    var k := BestIsFirstLeast(cuts, AreaGap);
    assert cuts[0] == a && cuts[1] == b && cuts[2] == c && cuts[3] == d;
  }

  /** Three windows are cut after the first. */
  lemma {:induction false} ThreeChoice(cells: seq<Elem>, x0: int, budget: Budget)
    requires InRow(cells, x0) && x0 % 2 == 0 && |cells| == 3
    ensures Chosen(cells, AreaPolicy(budget)) == Some(RowCut(cells, x0, 1))
  {
    hide InRow, Chosen, AreaPolicy, FreeCuts, ScoreOf, RowCut;
    AreaPolicyTakesBestCut(cells, budget);
    RowFreeCuts(cells, x0);
    RowGap(cells, x0, 1);
    RowGap(cells, x0, 2);
    var a, b := RowCut(cells, x0, 1), RowCut(cells, x0, 2);
    assert RowCuts(cells, x0, 2) == [b];
    assert RowCuts(cells, x0, 1) == [a, b];
    var k := BestIsFirstLeast([a, b], AreaGap);
    assert [a, b] + [] == [a, b] && [a, b][0] == a && [a, b][1] == b;
  }

  lemma {:induction false} RowFits(cells: seq<Elem>, x0: int, maxCells: nat)
    requires InRow(cells, x0) && x0 % 2 == 0 && 0 < |cells| <= maxCells && |cells| <= 5
    ensures Partition(cells, maxCells, AreaPolicy(Limited(200.0)), false) == [cells]
  {
    RowBox(cells, x0);
    hide BBox, Chosen;
    assert Fits(cells, maxCells, AreaPolicy(Limited(200.0)));
  }

  /** With groups of two the row makes three shards, with larger ones two. */
  lemma {:induction false} FiveGroups(cells: seq<Elem>, maxCells: nat)
    requires InRow(cells, 0) && |cells| == 5 && maxCells >= 2
    ensures Partition(cells, maxCells, AreaPolicy(Limited(200.0)), true)
            == if maxCells == 2 then [cells[..2], cells[2..3], cells[3..]] else [cells[..2], cells[2..]]
  {
    hide Chosen, BBox, AreaPolicy, Fits;
    var budget := Limited(200.0);
    FiveChoice(cells, 0, budget);
    RowPart(cells, 0, 0, 2);
    RowPart(cells, 0, 2, 5);
    assert cells[0..2] == cells[..2] && cells[2..5] == cells[2..];
    RowFits(cells[..2], 0, maxCells);
    var rest := cells[2..];
    if maxCells == 2 {
      ThreeChoice(rest, 4, budget);
      RowPart(rest, 4, 0, 1);
      RowPart(rest, 4, 1, 3);
      assert rest[0..1] == rest[..1] == cells[2..3] && rest[1..3] == rest[1..] == cells[3..];
      RowFits(rest[..1], 4, maxCells);
      RowFits(rest[1..], 6, maxCells);
      ThreeTooMany(rest);
      assert Partition(rest, maxCells, AreaPolicy(budget), false) == [rest[..1], rest[1..]];
    } else {
      RowFits(rest, 4, maxCells);
    }
  }

  lemma {:induction false} ThreeTooMany(cells: seq<Elem>)
    requires |cells| == 3
    ensures !Fits(cells, 2, AreaPolicy(Limited(200.0)))
  {
  }

  // ----- A wall of five windows in a row, and a pile of two

  const CPU := Style(None, None, "", true)
  const ROW := Wall(1, [Window22("a", 0), Window22("b", 2), Window22("c", 4), Window22("d", 6), Window22("e", 8)], [],
                    20, 20, PLAIN, "", "")
  const PILE := Wall(2, [Window22("p", 0), Window22("q", 0)], [], 4, 2, CPU, "", "")

  function RowElems(): seq<Elem> {
    [Placed("a", 0), Placed("b", 2), Placed("c", 4), Placed("d", 6), Placed("e", 8)]
  }

  lemma {:induction false} VisibleStep(c: CellCfg, rest: seq<CellCfg>, style: Style)
    requires VisibleCell(c)
    ensures VisibleCells([c] + rest) == [c] + VisibleCells(rest)
    ensures CellElems([c] + rest, style) == [CellElem(c, style)] + CellElems(rest, style)
  {
    assert ([c] + rest)[1..] == rest;
  }

  lemma {:induction false} FiveCells(c0: CellCfg, c1: CellCfg, c2: CellCfg, c3: CellCfg, c4: CellCfg, style: Style)
    requires VisibleCell(c0) && VisibleCell(c1) && VisibleCell(c2) && VisibleCell(c3) && VisibleCell(c4)
    ensures VisibleCells([c0, c1, c2, c3, c4]) == [c0, c1, c2, c3, c4]
    ensures CellElems([c0, c1, c2, c3, c4], style)
            == [CellElem(c0, style), CellElem(c1, style), CellElem(c2, style), CellElem(c3, style), CellElem(c4, style)]
  {
    hide VisibleCell, CellElem;
    assert [c4] + [] == [c4] && [c3] + [c4] == [c3, c4] && [c2] + [c3, c4] == [c2, c3, c4];
    assert [c1] + [c2, c3, c4] == [c1, c2, c3, c4] && [c0] + [c1, c2, c3, c4] == [c0, c1, c2, c3, c4];
    VisibleStep(c4, [], style);
    VisibleStep(c3, [c4], style);
    VisibleStep(c2, [c3, c4], style);
    VisibleStep(c1, [c2, c3, c4], style);
    VisibleStep(c0, [c1, c2, c3, c4], style);
  }

  lemma {:induction false} RowCells()
    ensures Cells(ROW) == RowElems() && Elements(ROW) == RowElems() && VisibleCount(ROW) == 5
    ensures InRow(RowElems(), 0) && ROW.overlays == [] && WallBudget(ROW) == Limited(200.0)
  {
    FiveCells(Window22("a", 0), Window22("b", 2), Window22("c", 4), Window22("d", 6), Window22("e", 8), PLAIN);
    assert Overlays(ROW) == [];
  }

  /** Walls of different styles share no window. */
  lemma {:induction false} OtherStyle(u: Wall, v: Wall, sig: ElemSig)
    requires u.style != v.style && u.overlays == [] && v.overlays == []
    ensures !Shared([u, v], sig) && !Shared([u], sig)
  {
    ElementsFacts(u);
    ElementsFacts(v);
    HasSigMember(Elements(u), sig);
    HasSigMember(Elements(v), sig);
    hide HasSig, Elements;
    assert Overlays(u) == [] && Overlays(v) == [];
    assert Elements(u) == Cells(u) && Elements(v) == Cells(v) by {
      NoOverlayElements(u);
      NoOverlayElements(v);
    }
    assert OwnersUpTo([u, v], sig, 0) == [] && OwnersUpTo([u], sig, 0) == [];
    assert OwnersUpTo([u, v], sig, 1) == if HasSig(Elements(u), sig) then [u.key] else [];
    assert OwnersUpTo([u], sig, 1) == if HasSig(Elements(u), sig) then [u.key] else [];
  }

  lemma {:induction false} NoOverlayElements(w: Wall)
    requires w.overlays == []
    ensures Elements(w) == Cells(w)
  {
    assert Overlays(w) == [];
  }

  lemma {:induction false} NothingSharedAmong(walls: seq<Wall>, elems: seq<Elem>)
    requires forall sig :: !Shared(walls, sig)
    ensures SharedElems(walls, elems) == [] && OwnElems(walls, elems) == elems
  {
    hide Shared;
    if elems != [] {
      NothingSharedAmong(walls, elems[1..]);
    }
  }

  lemma {:induction false} RowGroups(walls: seq<Wall>, maxCells: nat)
    requires maxCells >= 2 && forall sig :: !Shared(walls, sig)
    ensures var e := RowElems();
            Groups(walls, ROW, maxCells, SourceRules())
            == if maxCells == 2 then [e[..2], e[2..3], e[3..]] else [e[..2], e[2..]]
    ensures SharedElems(walls, Elements(ROW)) == []
  {
    hide Shared, Partition, AreaPolicy, WallBudget, RowElems, InRow;
    RowCells();
    NothingSharedAmong(walls, Cells(ROW));
    NothingSharedAmong(walls, Elements(ROW));
    assert |RowElems()| == 5 by {
      FiveElems();
    }
    FiveGroups(RowElems(), maxCells);
    assert SourceRules()(ROW) == AreaPolicy(WallBudget(ROW));
  }

  lemma {:induction false} FiveElems()
    ensures |RowElems()| == 5
  {
  }

  lemma {:induction false} RowTileCount(walls: seq<Wall>, maxCells: nat)
    requires maxCells >= 2 && forall sig :: !Shared(walls, sig)
    ensures TileCount(walls, ROW, maxCells, SourceRules()) == if maxCells == 2 then 3 else 2
  {
    hide Shared, Groups, SharedElems, TileCount, RowElems;
    FiveElems();
    RowGroups(walls, maxCells);
    TileCountIs(walls, ROW, maxCells, SourceRules());
  }

  lemma {:induction false} PileTileCount(walls: seq<Wall>, maxCells: nat)
    requires maxCells >= 2 && forall sig :: !Shared(walls, sig)
    ensures TileCount(walls, PILE, maxCells, SourceRules()) == 1 && VisibleCount(PILE) == 2
  {
    var c, d := CellElem(Window22("p", 0), CPU), CellElem(Window22("q", 0), CPU);
    TwoCells(PILE, Window22("p", 0), Window22("q", 0));
    NothingSharedAmong(walls, Elements(PILE));
    NothingSharedAmong(walls, Cells(PILE));
    StackChoice(c, d, WallBudget(PILE));
    ReadingOrderPermutes([c, d]);
    ChunksFacts(ReadingOrder([c, d]), maxCells);
    TileCountIs(walls, PILE, maxCells, SourceRules());
    hide Shared, AreaPolicy, SharedElems, OwnElems, TileCount, WallBudget, Chosen, ReadingOrder, Elements, Cells;
    assert SourceRules()(PILE) == AreaPolicy(WallBudget(PILE));
    assert Partition([c, d], maxCells, AreaPolicy(WallBudget(PILE)), true) == Chunks(ReadingOrder([c, d]), maxCells);
  }

  /** The sizes of the shards of the row. */
  lemma {:induction false} RowSigs(walls: seq<Wall>, maxCells: nat)
    requires maxCells >= 2 && forall sig :: !Shared(walls, sig)
    ensures var e := RowElems();
            var tiles := Tiles(walls, ROW, maxCells, SourceRules());
            && |tiles| == (if maxCells == 2 then 3 else 2)
            && tiles[0].sig == RegionOf(e[..2], PLAIN)
            && tiles[1].sig == RegionOf(if maxCells == 2 then e[2..3] else e[2..], PLAIN)
            && (maxCells == 2 ==> tiles[2].sig == RegionOf(e[3..], PLAIN))
  {
    hide Shared, Groups, SharedElems, RegionOf, RowElems;
    FiveElems();
    RowGroups(walls, maxCells);
    var groups := Groups(walls, ROW, maxCells, SourceRules());
    ShardTilesAt(groups, PLAIN, 0);
    ShardTilesAt(groups, PLAIN, 1);
    ShardTilesAt(groups, PLAIN, 2);
    assert SharedTiles([]) == [];
  }

  lemma {:induction false} RegionWidth(cells: seq<Elem>, x0: int)
    requires InRow(cells, x0) && cells != [] && x0 % 2 == 0
    ensures RegionOf(cells, PLAIN).RegionSig? && RegionOf(cells, PLAIN).w == 2 * |cells|
  {
    RowBox(cells, x0);
    hide BBox, Relative, Bag;
  }

  lemma {:induction false} RowSizes()
    ensures var e := RowElems();
            && RegionOf(e[..2], PLAIN).w == 4 && RegionOf(e[2..3], PLAIN).w == 2 && RegionOf(e[3..], PLAIN).w == 4
            && RegionOf(e[2..], PLAIN).w == 6 && RegionOf(e[..2], PLAIN) != RegionOf(e[3..], PLAIN)
  {
    hide RowElems, RegionOf, InRow;
    RowCells();
    FiveElems();
    var e := RowElems();
    RowPart(e, 0, 0, 2);
    RowPart(e, 0, 2, 3);
    RowPart(e, 0, 3, 5);
    RowPart(e, 0, 2, 5);
    assert e[0..2] == e[..2] && e[3..5] == e[3..] && e[2..5] == e[2..];
    RegionWidth(e[..2], 0);
    RegionWidth(e[2..3], 4);
    RegionWidth(e[3..], 6);
    RegionWidth(e[2..], 4);
    EndsDiffer();
  }

  lemma {:induction false} ShiftedPath(group: seq<Elem>, dx: int, dy: int, k: nat)
    requires k < |group|
    ensures exists m :: m in Shift(group, dx, dy) && m.sig == group[k].sig
    ensures forall m :: m in Shift(group, dx, dy) ==> exists g :: g in group && g.sig == m.sig
  {
    ShiftSigs(group, dx, dy);
    var t := Shift(group, dx, dy);
    assert t[k] in t;
    forall m | m in t
      ensures exists g :: g in group && g.sig == m.sig
    {
      var j :| 0 <= j < |t| && t[j] == m;
      assert group[j] in group;
    }
  }

  lemma {:induction false} ShiftSigs(group: seq<Elem>, dx: int, dy: int)
    ensures |Shift(group, dx, dy)| == |group|
    ensures forall k :: 0 <= k < |group| ==> Shift(group, dx, dy)[k].sig == group[k].sig
  {
    if group != [] {
      ShiftSigs(group[1..], dx, dy);
    }
  }

  /** A window that only one of two groups shows. */
  lemma {:induction false} OtherMembers(g: seq<Elem>, h: seq<Elem>, k: nat)
    requires k < |g| && forall m :: m in h ==> m.sig != g[k].sig
    ensures RegionOf(g, PLAIN) != RegionOf(h, PLAIN)
  {
    var l, r := Relative(g), Relative(h);
    ShiftedPath(g, -Frame(g).x, -Frame(g).y, k);
    if h != [] {
      ShiftedPath(h, -Frame(h).x, -Frame(h).y, 0);
    }
    hide Shift, Frame, Bag;
    BagIsMultiset(l);
    BagIsMultiset(r);
    var m :| m in l && m.sig == g[k].sig;
    NotShifted(h, m);
    assert m in multiset(l) && m !in multiset(r);
  }

  lemma {:induction false} NotShifted(h: seq<Elem>, m: Elem)
    requires forall e :: e in h ==> e.sig != m.sig
    ensures m !in Relative(h)
  {
    if h != [] {
      ShiftedPath(h, -Frame(h).x, -Frame(h).y, 0);
    }
  }

  lemma {:induction false} EndsDiffer()
    ensures RegionOf(RowElems()[..2], PLAIN) != RegionOf(RowElems()[3..], PLAIN)
  {
    hide RegionOf;
    var e := RowElems();
    assert e[3..] == [e[3], e[4]] && e[..2][0] == e[0];
    assert e[0].sig.path == "a" && e[3].sig.path == "d" && e[4].sig.path == "e";
    OtherMembers(e[..2], e[3..], 0);
  }
}
