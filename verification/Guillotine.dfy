/** The recursive guillotine partition of a wall into groups (app/compositor_fabric.py:330-366). */
module Guillotine {
  import opened Collections
  import opened Signatures
  import opened Geometry

  datatype Line = Line(axis: Axis, at: int)

  /** What the recursion asks of the geometry: which line to cut along, and which groups are small
      enough in area. Every property below holds for all policies; `AreaPolicy` is the source's. */
  datatype Policy = Policy(choose: seq<Elem> -> Option<Line>, allows: seq<Elem> -> bool)

  /** The cut along the chosen line, if the line is a free cut. */
  function Chosen(cells: seq<Elem>, policy: Policy): (r: Option<Cut>)
    ensures r.Some? ==> IsFreeCut(cells, r.value)
    ensures r.Some? ==> r.value.left != [] && r.value.right != []
    ensures r.Some? ==> |r.value.left| < |cells| && |r.value.right| < |cells|
  {
    match policy.choose(cells)
    case None => None
    case Some(line) =>
      var cut := CutAt(cells, line.axis, line.at);
      if Accepted(cells, line.axis, line.at) && EndsOn(cells, line.axis, line.at) then Some(cut) else None
  }

  /** Area allowed to one group. */
  datatype Budget = Unlimited | Limited(limit: real)

  predicate AreaAllowed(budget: Budget, cells: seq<Elem>) {
    cells == [] || budget.Unlimited? || (BBox(cells).w * BBox(cells).h) as real <= budget.limit
  }

  /** The source's policy: the free cut whose two aligned boxes differ least in area. */
  function AreaPolicy(budget: Budget): Policy {
    Policy(cells => match BestCut(cells, AreaGap) case None => None case Some(cut) => Some(Line(cut.axis, cut.at)),
           cells => AreaAllowed(budget, cells))
  }

  /** Under the source's policy the chosen cut is the best cut. */
  lemma {:induction false} AreaPolicyTakesBestCut(cells: seq<Elem>, budget: Budget)
    ensures Chosen(cells, AreaPolicy(budget)) == BestCut(cells, AreaGap)
  {
    BestCutIsFree(cells, AreaGap);
  }

  predicate Fits(cells: seq<Elem>, maxCells: nat, policy: Policy) {
    |cells| <= maxCells && policy.allows(cells)
  }

  predicate NotAfter(d: Elem, e: Elem) {
    d.y < e.y || (d.y == e.y && d.x <= e.x)
  }

  function Place(e: Elem, s: seq<Elem>): seq<Elem> {
    if s == [] then [e]
    else if NotAfter(e, s[0]) then [e] + s
    else [s[0]] + Place(e, s[1..])
  }

  lemma {:induction false} PlaceAdds(e: Elem, s: seq<Elem>)
    ensures multiset(Place(e, s)) == multiset(s) + multiset{e}
  {
    if s != [] {
      SplitFirst(s);
      PlaceAdds(e, s[1..]);
    }
  }

  /** Stable sort by row, then by column. */
  function ReadingOrder(s: seq<Elem>): seq<Elem> {
    if s == [] then [] else Place(s[0], ReadingOrder(s[1..]))
  }

  lemma {:induction false} ReadingOrderPermutes(s: seq<Elem>)
    ensures multiset(ReadingOrder(s)) == multiset(s)
    ensures |ReadingOrder(s)| == |s|
    ensures forall e :: e in ReadingOrder(s) <==> e in s
  {
    if s != [] {
      SplitFirst(s);
      ReadingOrderPermutes(s[1..]);
      PlaceAdds(s[0], ReadingOrder(s[1..]));
    }
    SameMembers(ReadingOrder(s), s);
  }

  predicate InOrder(s: seq<Elem>) {
    forall i, j :: 0 <= i < j < |s| ==> NotAfter(s[i], s[j])
  }

  lemma {:induction false} PlaceInOrder(e: Elem, s: seq<Elem>)
    requires InOrder(s)
    ensures InOrder(Place(e, s))
    ensures forall d :: d in Place(e, s) ==> d == e || d in s
  {
    if s != [] && !NotAfter(e, s[0]) {
      PlaceInOrder(e, s[1..]);
      var rest := Place(e, s[1..]);
      forall d | d in rest
        ensures NotAfter(s[0], d)
      {
        if d != e {
          var i :| 0 <= i < |s[1..]| && s[1..][i] == d;
          assert s[i + 1] == d;
        }
      }
    }
  }

  /** The fallback lists cells row by row, and from left to right within a row. */
  lemma {:induction false} ReadingOrderInOrder(s: seq<Elem>)
    ensures InOrder(ReadingOrder(s))
  {
    if s != [] {
      ReadingOrderInOrder(s[1..]);
      PlaceInOrder(s[0], ReadingOrder(s[1..]));
    }
  }

  /** Consecutive slices of `n` elements. */
  function Chunks(s: seq<Elem>, n: nat): seq<seq<Elem>>
    requires n > 0
  {
    if s == [] then []
    else if |s| <= n then [s]
    else [s[..n]] + Chunks(s[n..], n)
  }

  lemma {:induction false} ChunksFacts(s: seq<Elem>, n: nat)
    requires n > 0
    ensures Flatten(Chunks(s, n)) == s
    ensures forall i :: 0 <= i < |Chunks(s, n)| ==> Chunks(s, n)[i] != [] && |Chunks(s, n)[i]| <= n
    ensures s != [] ==> Chunks(s, n) != []
    ensures 0 < |s| <= n ==> Chunks(s, n) == [s]
  {
    if 0 < |s| <= n {
      assert Flatten([s]) == s + Flatten([s][1..]);
    } else if s != [] {
      assert s == s[..n] + s[n..];
      ChunksFacts(s[n..], n);
    }
  }

  function Partition(cells: seq<Elem>, maxCells: nat, policy: Policy, force: bool): seq<seq<Elem>>
    requires cells != [] && maxCells > 0
    decreases |cells|
  {
    if !force && Fits(cells, maxCells, policy) then
      [cells]
    else
      match Chosen(cells, policy)
      case None => Chunks(ReadingOrder(cells), maxCells)
      case Some(cut) =>
        Partition(cut.left, maxCells, policy, false) + Partition(cut.right, maxCells, policy, false)
  }

  /** There is a group, and every group is non-empty and holds at most `maxCells` cells. */
  lemma {:induction false} GroupSizes(cells: seq<Elem>, maxCells: nat, policy: Policy, force: bool)
    requires cells != [] && maxCells > 0
    ensures Partition(cells, maxCells, policy, force) != []
    ensures forall g :: g in Partition(cells, maxCells, policy, force) ==> 0 < |g| <= maxCells
    decreases |cells|
  {
    if force || !Fits(cells, maxCells, policy) {
      match Chosen(cells, policy)
      case None =>
        ReadingOrderPermutes(cells);
        ChunksFacts(ReadingOrder(cells), maxCells);
      case Some(cut) =>
        GroupSizes(cut.left, maxCells, policy, false);
        GroupSizes(cut.right, maxCells, policy, false);
    }
  }

  // ----- Permutation

  /** No cut that the partition takes has a cell of non-positive extent on it. */
  predicate CutsClean(cells: seq<Elem>, maxCells: nat, policy: Policy, force: bool)
    requires cells != [] && maxCells > 0
    decreases |cells|
  {
    if !force && Fits(cells, maxCells, policy) then
      true
    else
      match Chosen(cells, policy)
      case None => true
      case Some(cut) =>
        && CleanLine(cells, cut.axis, cut.at)
        && CutsClean(cut.left, maxCells, policy, false)
        && CutsClean(cut.right, maxCells, policy, false)
  }

  lemma {:induction false} PartitionMembers(cells: seq<Elem>, maxCells: nat, policy: Policy, force: bool)
    requires cells != [] && maxCells > 0
    ensures forall e :: e in Flatten(Partition(cells, maxCells, policy, force)) ==> e in cells
    decreases |cells|
  {
    if !force && Fits(cells, maxCells, policy) {
      assert Flatten([cells]) == cells + Flatten([cells][1..]);
    } else {
      match Chosen(cells, policy)
      case None =>
        ReadingOrderPermutes(cells);
        ChunksFacts(ReadingOrder(cells), maxCells);
      case Some(cut) =>
        FreeParts(cells, cut);
        PartitionMembers(cut.left, maxCells, policy, false);
        PartitionMembers(cut.right, maxCells, policy, false);
        FlattenConcat(Partition(cut.left, maxCells, policy, false), Partition(cut.right, maxCells, policy, false));
    }
  }

  lemma {:induction false} NoStraddlerIsClean(cells: seq<Elem>, cut: Cut)
    requires IsFreeCut(cells, cut)
    requires forall e :: e in cells ==> Hi(e, cut.axis) <= cut.at || Lo(e, cut.axis) >= cut.at
    ensures CleanLine(cells, cut.axis, cut.at)
  {
    var a, c := cut.axis, cut.at;
    forall e
      ensures multiset(cut.left)[e] == if Hi(e, a) <= c then multiset(cells)[e] else 0
      ensures multiset(cut.right)[e] == if Lo(e, a) >= c then multiset(cells)[e] else 0
    {
      SidesCount(cells, a, c, e);
    }
    var both := multiset(cut.left) + multiset(cut.right);
    forall d
      ensures both[d] >= multiset(cells)[d]
    {
      if d !in cells {
        assert multiset(cells)[d] == 0;
      }
    }
    assert multiset(cells) <= both;
    assert |both| == |cut.left| + |cut.right| == |cells| == |multiset(cells)|;
    assert |both - multiset(cells)| == 0;
    assert both == multiset(cells) + (both - multiset(cells));
    SidesPartition(cells, a, c);
  }

  /** An accepted but unclean cut leaves some cell out of both parts. */
  lemma {:induction false} UncleanDropsACell(cells: seq<Elem>, cut: Cut) returns (e: Elem)
    requires IsFreeCut(cells, cut) && !CleanLine(cells, cut.axis, cut.at)
    ensures e in cells && e !in cut.left && e !in cut.right
  {
    if forall e :: e in cells ==> Hi(e, cut.axis) <= cut.at || Lo(e, cut.axis) >= cut.at {
      NoStraddlerIsClean(cells, cut);
    }
    FreeParts(cells, cut);
    e :| e in cells && !(Hi(e, cut.axis) <= cut.at) && !(Lo(e, cut.axis) >= cut.at);
  }

  /** Two lists over disjoint element sets are conserved together only if each is. */
  lemma {:induction false} DisjointSums<T>(p: seq<T>, q: seq<T>, l: seq<T>, r: seq<T>)
    requires forall e :: e in p ==> e in l
    requires forall e :: e in q ==> e in r
    requires forall e :: e in l ==> e !in r
    ensures multiset(p) + multiset(q) == multiset(l) + multiset(r)
            <==> multiset(p) == multiset(l) && multiset(q) == multiset(r)
  {
    if multiset(p) + multiset(q) == multiset(l) + multiset(r) {
      forall e
        ensures multiset(p)[e] == multiset(l)[e] && multiset(q)[e] == multiset(r)[e]
      {
        assert (multiset(p) + multiset(q))[e] == (multiset(l) + multiset(r))[e];
        assert e in multiset(p) <==> e in p;
        assert e in multiset(q) <==> e in q;
        assert e in multiset(l) <==> e in l;
        assert e in multiset(r) <==> e in r;
      }
    }
  }

  /** The groups are a permutation of the cells exactly when every cut taken is clean. */
  lemma {:induction false} PartitionConservesExactly(cells: seq<Elem>, maxCells: nat, policy: Policy, force: bool)
    requires cells != [] && maxCells > 0
    ensures multiset(Flatten(Partition(cells, maxCells, policy, force))) == multiset(cells)
            <==> CutsClean(cells, maxCells, policy, force)
    decreases |cells|, 1
  {
    if !force && Fits(cells, maxCells, policy) {
      assert Flatten([cells]) == cells + Flatten([cells][1..]);
    } else {
      match Chosen(cells, policy)
      case None =>
        ReadingOrderPermutes(cells);
        ChunksFacts(ReadingOrder(cells), maxCells);
      case Some(cut) =>
        PartsConserveExactly(cells, cut, maxCells, policy);
    }
  }

  lemma {:induction false} PartsConserveExactly(cells: seq<Elem>, cut: Cut, maxCells: nat, policy: Policy)
    requires maxCells > 0 && Chosen(cells, policy) == Some(cut)
    ensures multiset(Flatten(Partition(cut.left, maxCells, policy, false)
                             + Partition(cut.right, maxCells, policy, false))) == multiset(cells)
            <==> (&& CleanLine(cells, cut.axis, cut.at)
                  && CutsClean(cut.left, maxCells, policy, false)
                  && CutsClean(cut.right, maxCells, policy, false))
    decreases |cells|, 0
  {
    hide Partition, CutsClean, Fits;
    var pl, pr := Partition(cut.left, maxCells, policy, false), Partition(cut.right, maxCells, policy, false);
    FlattenConcat(pl, pr);
    PartitionMembers(cut.left, maxCells, policy, false);
    PartitionMembers(cut.right, maxCells, policy, false);
    if CleanLine(cells, cut.axis, cut.at) {
      CleanSides(cells, policy, cut);
      PartitionConservesExactly(cut.left, maxCells, policy, false);
      PartitionConservesExactly(cut.right, maxCells, policy, false);
      DisjointSums(Flatten(pl), Flatten(pr), cut.left, cut.right);
    } else {
      var e := UncleanDropsACell(cells, cut);
      assert e in multiset(cells);
      assert e !in Flatten(pl) + Flatten(pr);
    }
  }

  lemma {:induction false} CleanSides(cells: seq<Elem>, policy: Policy, cut: Cut)
    requires Chosen(cells, policy) == Some(cut) && CleanLine(cells, cut.axis, cut.at)
    ensures multiset(cut.left) + multiset(cut.right) == multiset(cells)
    ensures forall e :: e in cut.left ==> e !in cut.right
  {
    AcceptedCleanPartition(cells, cut.axis, cut.at);
    FreeParts(cells, cut);
  }

  lemma {:induction false} PositiveIsClean(cells: seq<Elem>, maxCells: nat, policy: Policy, force: bool)
    requires cells != [] && maxCells > 0 && AllPositive(cells)
    ensures CutsClean(cells, maxCells, policy, force)
    decreases |cells|
  {
    if force || !Fits(cells, maxCells, policy) {
      match Chosen(cells, policy)
      case None =>
      case Some(cut) =>
        FreeParts(cells, cut);
        PositiveLineClean(cells, cut.axis, cut.at);
        PositiveIsClean(cut.left, maxCells, policy, false);
        PositiveIsClean(cut.right, maxCells, policy, false);
    }
  }

  // ----- Number of groups

  lemma {:induction false} ChunksShrink(s: seq<Elem>, t: seq<Elem>, m: nat, n: nat)
    requires 0 < m <= n && |t| <= |s|
    ensures |Chunks(t, n)| <= |Chunks(s, m)|
    decreases |t|
  {
    if |t| > n {
      ChunksShrink(s[m..], t[n..], m, n);
    }
  }

  /** Allowing more cells per group never yields more groups. */
  lemma {:induction false} FewerGroups(cells: seq<Elem>, m: nat, n: nat, policy: Policy, force: bool)
    requires cells != [] && 0 < m <= n
    ensures |Partition(cells, n, policy, force)| <= |Partition(cells, m, policy, force)|
    decreases |cells|
  {
    GroupSizes(cells, m, policy, force);
    if force || !Fits(cells, n, policy) {
      assert force || !Fits(cells, m, policy);
      match Chosen(cells, policy)
      case None =>
        ReadingOrderPermutes(cells);
        ChunksShrink(ReadingOrder(cells), ReadingOrder(cells), m, n);
      case Some(cut) =>
        FewerGroups(cut.left, m, n, policy, false);
        FewerGroups(cut.right, m, n, policy, false);
    }
  }

  // ----- Separation

  /** The recursion never has to slice a block that no line can cut. */
  predicate Cuttable(cells: seq<Elem>, maxCells: nat, policy: Policy, force: bool)
    requires cells != [] && maxCells > 0
    decreases |cells|
  {
    if !force && Fits(cells, maxCells, policy) then
      true
    else
      match Chosen(cells, policy)
      case None => |cells| <= maxCells
      case Some(cut) =>
        Cuttable(cut.left, maxCells, policy, false) && Cuttable(cut.right, maxCells, policy, false)
  }

  lemma {:induction false} GroupMembers(cells: seq<Elem>, maxCells: nat, policy: Policy, force: bool, i: int, e: Elem)
    requires cells != [] && maxCells > 0
    requires 0 <= i < |Partition(cells, maxCells, policy, force)|
    requires e in Partition(cells, maxCells, policy, force)[i]
    ensures e in cells
  {
    PartitionMembers(cells, maxCells, policy, force);
    FlattenMember(Partition(cells, maxCells, policy, force), i, e);
  }

  lemma {:induction false} AcrossCut(cells: seq<Elem>, cut: Cut, maxCells: nat, policy: Policy, i: int,
                                     j: int) returns (e: Elem)
    requires maxCells > 0 && Chosen(cells, policy) == Some(cut)
    requires 0 <= i < |Partition(cut.left, maxCells, policy, false)|
    requires 0 <= j < |Partition(cut.right, maxCells, policy, false)|
    ensures e in cells && SplitAt(Partition(cut.left, maxCells, policy, false)[i],
                                  Partition(cut.right, maxCells, policy, false)[j], cut.axis, Hi(e, cut.axis))
  {
    FreeParts(cells, cut);
    var g := Partition(cut.left, maxCells, policy, false)[i];
    var h := Partition(cut.right, maxCells, policy, false)[j];
    forall e | e in g
      ensures Hi(e, cut.axis) <= cut.at
    {
      GroupMembers(cut.left, maxCells, policy, false, i, e);
    }
    forall e | e in h
      ensures Lo(e, cut.axis) >= cut.at
    {
      GroupMembers(cut.right, maxCells, policy, false, j, e);
    }
    EndsOnMember(cells, cut.axis, cut.at);
    e :| e in cells && cut.at == Hi(e, cut.axis);
  }

  lemma {:induction false} PartitionOfCut(cells: seq<Elem>, maxCells: nat, policy: Policy, force: bool, cut: Cut)
    requires cells != [] && maxCells > 0 && Chosen(cells, policy) == Some(cut)
    requires force || !Fits(cells, maxCells, policy)
    ensures Partition(cells, maxCells, policy, force)
            == Partition(cut.left, maxCells, policy, false) + Partition(cut.right, maxCells, policy, false)
    ensures Cuttable(cells, maxCells, policy, force)
            <==> Cuttable(cut.left, maxCells, policy, false) && Cuttable(cut.right, maxCells, policy, false)
  {
  }

  lemma {:induction false} PartitionUncut(cells: seq<Elem>, maxCells: nat, policy: Policy, force: bool)
    requires cells != [] && maxCells > 0 && Cuttable(cells, maxCells, policy, force)
    requires (!force && Fits(cells, maxCells, policy)) || Chosen(cells, policy).None?
    ensures |Partition(cells, maxCells, policy, force)| == 1
  {
    ReadingOrderPermutes(cells);
    ChunksFacts(ReadingOrder(cells), maxCells);
  }

  /** When no block is sliced, any two groups lie on two sides of the end of some cell. */
  lemma {:induction false} GroupsSeparated(cells: seq<Elem>, maxCells: nat, policy: Policy, force: bool,
                                           i: int, j: int, g: seq<Elem>, h: seq<Elem>)
      returns (a: Axis, e: Elem)
    requires cells != [] && maxCells > 0 && Cuttable(cells, maxCells, policy, force)
    requires 0 <= i < j < |Partition(cells, maxCells, policy, force)|
    requires g == Partition(cells, maxCells, policy, force)[i] && h == Partition(cells, maxCells, policy, force)[j]
    ensures e in cells && SplitAt(g, h, a, Hi(e, a))
    decreases |cells|, 1
  {
    if (!force && Fits(cells, maxCells, policy)) || Chosen(cells, policy).None? {
      PartitionUncut(cells, maxCells, policy, force);
    } else {
      PartitionOfCut(cells, maxCells, policy, force, Chosen(cells, policy).value);
      a, e := PartsSeparated(cells, Chosen(cells, policy).value, maxCells, policy, i, j, g, h);
    }
  }

  lemma {:induction false} PartsSeparated(cells: seq<Elem>, cut: Cut, maxCells: nat, policy: Policy,
                                          i: int, j: int, g: seq<Elem>, h: seq<Elem>)
      returns (a: Axis, e: Elem)
    requires maxCells > 0 && Chosen(cells, policy) == Some(cut)
    requires Cuttable(cut.left, maxCells, policy, false) && Cuttable(cut.right, maxCells, policy, false)
    requires var p := Partition(cut.left, maxCells, policy, false) + Partition(cut.right, maxCells, policy, false);
             0 <= i < j < |p| && g == p[i] && h == p[j]
    ensures e in cells && SplitAt(g, h, a, Hi(e, a))
    decreases |cells|, 0
  {
    hide Partition, Cuttable, Hi, SplitAt;
    var n := |Partition(cut.left, maxCells, policy, false)|;
    if j < n {
      a, e := GroupsSeparated(cut.left, maxCells, policy, false, i, j, g, h);
      PartMember(cells, policy, cut, e);
    } else if i >= n {
      a, e := GroupsSeparated(cut.right, maxCells, policy, false, i - n, j - n, g, h);
      PartMember(cells, policy, cut, e);
    } else {
      a := cut.axis;
      e := AcrossCut(cells, cut, maxCells, policy, i, j - n);
    }
  }

  lemma {:induction false} PartMember(cells: seq<Elem>, policy: Policy, cut: Cut, e: Elem)
    requires Chosen(cells, policy) == Some(cut) && (e in cut.left || e in cut.right)
    ensures e in cells
  {
    FreeParts(cells, cut);
  }

  predicate EvenAligned(e: Elem) {
    e.x % 2 == 0 && e.y % 2 == 0 && e.w % 2 == 0 && e.h % 2 == 0
  }

  lemma {:induction false} EvenSplitDisjoint(g: seq<Elem>, h: seq<Elem>, a: Axis, c: int)
    requires g != [] && h != [] && SplitAt(g, h, a, c) && c % 2 == 0
    ensures BoxesDisjoint(BBox(g), BBox(h))
  {
    SplitBoxesNearlyApart(g, h, a, c);
  }

  /** Even cells: the boxes of the groups do not overlap as long as no block is sliced. */
  lemma {:induction false} EvenGroupsDisjoint(cells: seq<Elem>, maxCells: nat, policy: Policy, force: bool, i: int,
                                              j: int)
    requires cells != [] && maxCells > 0 && Cuttable(cells, maxCells, policy, force)
    requires forall e :: e in cells ==> EvenAligned(e)
    requires 0 <= i < j < |Partition(cells, maxCells, policy, force)|
    ensures var p := Partition(cells, maxCells, policy, force);
            p[i] != [] && p[j] != [] && BoxesDisjoint(BBox(p[i]), BBox(p[j]))
  {
    GroupSizes(cells, maxCells, policy, force);
    hide Partition, Fits, Cuttable;
    var g := Partition(cells, maxCells, policy, force)[i];
    var h := Partition(cells, maxCells, policy, force)[j];
    var a, e := GroupsSeparated(cells, maxCells, policy, force, i, j, g, h);
    assert EvenAligned(e);
    EvenSplitDisjoint(g, h, a, Hi(e, a));
  }

  // ----- Blocks that have to be sliced

  /** The recursion reaches the block, which is too large or has too many cells, and no line cuts it. */
  predicate Sliced(cells: seq<Elem>, maxCells: nat, policy: Policy, force: bool, block: seq<Elem>)
    requires cells != []
    decreases |cells|
  {
    if !force && Fits(cells, maxCells, policy) then false
    else
      match Chosen(cells, policy)
      case None => block == cells
      case Some(cut) =>
        Sliced(cut.left, maxCells, policy, false, block) || Sliced(cut.right, maxCells, policy, false, block)
  }

  function Slices(block: seq<Elem>, maxCells: nat): seq<seq<Elem>>
    requires maxCells > 0
  {
    Chunks(ReadingOrder(block), maxCells)
  }

  lemma {:induction false} SlicedUncut(cells: seq<Elem>, maxCells: nat, policy: Policy, force: bool, block: seq<Elem>)
    requires cells != [] && Sliced(cells, maxCells, policy, force, block)
    ensures block != [] && Chosen(block, policy) == None && forall e :: e in block ==> e in cells
    decreases |cells|
  {
    if Chosen(cells, policy).Some? {
      var cut := Chosen(cells, policy).value;
      FreeParts(cells, cut);
      if Sliced(cut.left, maxCells, policy, false, block) {
        SlicedUncut(cut.left, maxCells, policy, false, block);
      } else {
        SlicedUncut(cut.right, maxCells, policy, false, block);
      }
    }
  }

  /** Every group is within the budget, or is a slice of a block that no line can cut. */
  lemma {:induction false} GroupsWithinBudget(cells: seq<Elem>, maxCells: nat, policy: Policy, force: bool,
                                              g: seq<Elem>)
    requires cells != [] && maxCells > 0 && g in Partition(cells, maxCells, policy, force)
    ensures policy.allows(g)
            || exists block :: Sliced(cells, maxCells, policy, force, block) && Chosen(block, policy) == None
                               && g in Slices(block, maxCells)
    decreases |cells|
  {
    hide Chunks, ReadingOrder;
    if force || !Fits(cells, maxCells, policy) {
      match Chosen(cells, policy)
      case None =>
        assert Sliced(cells, maxCells, policy, force, cells) && g in Slices(cells, maxCells);
      case Some(cut) =>
        if g in Partition(cut.left, maxCells, policy, false) {
          GroupsWithinBudget(cut.left, maxCells, policy, false, g);
        } else {
          GroupsWithinBudget(cut.right, maxCells, policy, false, g);
        }
    }
  }

  predicate GroupsApart(g: seq<Elem>, h: seq<Elem>) {
    g != [] && h != [] && BoxesDisjoint(BBox(g), BBox(h))
  }

  /** No two boxes overlap. */
  predicate AllApart(groups: seq<seq<Elem>>) {
    forall i, j :: 0 <= i < j < |groups| ==> GroupsApart(groups[i], groups[j])
  }

  /** In every block that has to be sliced, the boxes of the slices do not overlap. */
  ghost predicate SlicesApart(cells: seq<Elem>, maxCells: nat, policy: Policy, force: bool)
    requires cells != [] && maxCells > 0
  {
    forall block :: Sliced(cells, maxCells, policy, force, block) ==> AllApart(Slices(block, maxCells))
  }

  lemma {:induction false} SlicesOfCut(cells: seq<Elem>, maxCells: nat, policy: Policy, force: bool, cut: Cut)
    requires cells != [] && maxCells > 0 && Chosen(cells, policy) == Some(cut)
    requires force || !Fits(cells, maxCells, policy)
    ensures SlicesApart(cells, maxCells, policy, force)
            <==> SlicesApart(cut.left, maxCells, policy, false) && SlicesApart(cut.right, maxCells, policy, false)
  {
    hide AllApart, Slices;
  }

  lemma {:induction false} ConcatApart(a: seq<seq<Elem>>, b: seq<seq<Elem>>)
    requires forall i, j :: 0 <= i < |a| && 0 <= j < |b| ==> GroupsApart(a[i], b[j])
    ensures AllApart(a + b) <==> AllApart(a) && AllApart(b)
  {
    hide GroupsApart;
    var all := a + b;
    if AllApart(all) {
      assert forall i :: 0 <= i < |a| ==> all[i] == a[i];
      assert forall j :: 0 <= j < |b| ==> all[|a| + j] == b[j];
    }
  }

  lemma {:induction false} EvenSidesApart(cells: seq<Elem>, cut: Cut, maxCells: nat, policy: Policy, i: int, j: int)
    requires maxCells > 0 && Chosen(cells, policy) == Some(cut) && forall e :: e in cells ==> EvenAligned(e)
    requires 0 <= i < |Partition(cut.left, maxCells, policy, false)|
    requires 0 <= j < |Partition(cut.right, maxCells, policy, false)|
    ensures GroupsApart(Partition(cut.left, maxCells, policy, false)[i],
                        Partition(cut.right, maxCells, policy, false)[j])
  {
    GroupSizes(cut.left, maxCells, policy, false);
    GroupSizes(cut.right, maxCells, policy, false);
    var e := AcrossCut(cells, cut, maxCells, policy, i, j);
    hide Partition;
    assert EvenAligned(e);
    EvenSplitDisjoint(Partition(cut.left, maxCells, policy, false)[i], Partition(cut.right, maxCells, policy, false)[j],
                      cut.axis, Hi(e, cut.axis));
  }

  lemma {:induction false} EvenParts(cells: seq<Elem>, policy: Policy, cut: Cut)
    requires Chosen(cells, policy) == Some(cut) && forall e :: e in cells ==> EvenAligned(e)
    ensures forall e :: e in cut.left ==> EvenAligned(e)
    ensures forall e :: e in cut.right ==> EvenAligned(e)
  {
    hide EvenAligned;
    FreeParts(cells, cut);
  }

  lemma {:induction false} UncutApart(cells: seq<Elem>, maxCells: nat, policy: Policy, force: bool)
    requires cells != [] && maxCells > 0
    requires (!force && Fits(cells, maxCells, policy)) || Chosen(cells, policy).None?
    ensures AllApart(Partition(cells, maxCells, policy, force)) <==> SlicesApart(cells, maxCells, policy, force)
  {
    hide ReadingOrder, Chunks, GroupsApart;
    if !force && Fits(cells, maxCells, policy) {
      assert forall block :: !Sliced(cells, maxCells, policy, force, block);
    } else {
      assert Partition(cells, maxCells, policy, force) == Slices(cells, maxCells);
      assert forall block :: Sliced(cells, maxCells, policy, force, block) <==> block == cells;
    }
  }

  /** Even cells: no two boxes overlap exactly when none do among the slices of each block that no line can cut. */
  lemma {:induction false} EvenGroupsApartExactly(cells: seq<Elem>, maxCells: nat, policy: Policy, force: bool)
    requires cells != [] && maxCells > 0 && forall e :: e in cells ==> EvenAligned(e)
    ensures AllApart(Partition(cells, maxCells, policy, force)) <==> SlicesApart(cells, maxCells, policy, force)
    decreases |cells|
  {
    if (!force && Fits(cells, maxCells, policy)) || Chosen(cells, policy).None? {
      UncutApart(cells, maxCells, policy, force);
    } else {
      var cut := Chosen(cells, policy).value;
      EvenParts(cells, policy, cut);
      EvenGroupsApartExactly(cut.left, maxCells, policy, false);
      EvenGroupsApartExactly(cut.right, maxCells, policy, false);
      PartitionOfCut(cells, maxCells, policy, force, cut);
      SlicesOfCut(cells, maxCells, policy, force, cut);
      hide Partition, SlicesApart, AllApart, EvenAligned, GroupsApart, Fits;
      forall i, j | 0 <= i < |Partition(cut.left, maxCells, policy, false)|
                    && 0 <= j < |Partition(cut.right, maxCells, policy, false)|
        ensures GroupsApart(Partition(cut.left, maxCells, policy, false)[i],
                            Partition(cut.right, maxCells, policy, false)[j])
      {
        EvenSidesApart(cells, cut, maxCells, policy, i, j);
      }
      ConcatApart(Partition(cut.left, maxCells, policy, false), Partition(cut.right, maxCells, policy, false));
    }
  }

  lemma {:induction false} SortedStays(s: seq<Elem>)
    requires InOrder(s)
    ensures ReadingOrder(s) == s
  {
    if s != [] {
      assert forall i, j :: 0 <= i < j < |s[1..]| ==> s[1..][i] == s[i + 1] && s[1..][j] == s[j + 1];
      SortedStays(s[1..]);
      hide NotAfter;
      assert |s| > 1 ==> NotAfter(s[0], s[1]);
    }
  }
}
