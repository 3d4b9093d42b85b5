/** Bounding boxes and guillotine cuts (app/compositor_fabric.py:281-327). */
module Geometry {
  import opened Collections
  import opened Signatures

  datatype Axis = X | Y

  datatype Box = Box(x: int, y: int, w: int, h: int)

  function Lo(e: Elem, a: Axis): int {
    if a.X? then e.x else e.y
  }

  function Size(e: Elem, a: Axis): int {
    if a.X? then e.w else e.h
  }

  function Hi(e: Elem, a: Axis): int {
    Lo(e, a) + Size(e, a)
  }

  function BoxLo(b: Box, a: Axis): int {
    if a.X? then b.x else b.y
  }

  function BoxHi(b: Box, a: Axis): int {
    if a.X? then b.x + b.w else b.y + b.h
  }

  function MinLo(cells: seq<Elem>, a: Axis): int
    requires cells != []
  {
    if |cells| == 1 then Lo(cells[0], a) else
    var rest := MinLo(cells[1..], a);
    if Lo(cells[0], a) <= rest then Lo(cells[0], a) else rest
  }

  function MaxHi(cells: seq<Elem>, a: Axis): int
    requires cells != []
  {
    if |cells| == 1 then Hi(cells[0], a) else
    var rest := MaxHi(cells[1..], a);
    if Hi(cells[0], a) >= rest then Hi(cells[0], a) else rest
  }

  lemma {:induction false} MinLoLeast(cells: seq<Elem>, a: Axis) returns (e: Elem)
    requires cells != []
    ensures forall d :: d in cells ==> MinLo(cells, a) <= Lo(d, a)
    ensures e in cells && MinLo(cells, a) == Lo(e, a)
  {
    assert forall d :: d in cells <==> d == cells[0] || d in cells[1..];
    e := cells[0];
    if |cells| > 1 {
      var f := MinLoLeast(cells[1..], a);
      if Lo(e, a) > Lo(f, a) {
        e := f;
      }
    }
  }

  lemma {:induction false} MaxHiGreatest(cells: seq<Elem>, a: Axis) returns (e: Elem)
    requires cells != []
    ensures forall d :: d in cells ==> Hi(d, a) <= MaxHi(cells, a)
    ensures e in cells && MaxHi(cells, a) == Hi(e, a)
  {
    assert forall d :: d in cells <==> d == cells[0] || d in cells[1..];
    e := cells[0];
    if |cells| > 1 {
      var f := MaxHiGreatest(cells[1..], a);
      if Hi(e, a) < Hi(f, a) {
        e := f;
      }
    }
  }

  /** Rounded up to even. */
  function Even(n: int): (m: int)
    ensures m % 2 == 0 && n <= m <= n + 1
  {
    n + n % 2
  }

  /** The box of a group: origin rounded down to even, size rounded up to even. */
  function BBox(cells: seq<Elem>): Box
    requires cells != []
  {
    var x0 := MinLo(cells, X) - MinLo(cells, X) % 2;
    var y0 := MinLo(cells, Y) - MinLo(cells, Y) % 2;
    Box(x0, y0, Even(MaxHi(cells, X) - x0), Even(MaxHi(cells, Y) - y0))
  }

  /** The box holds every cell of the group. */
  lemma {:induction false} BBoxHolds(cells: seq<Elem>, e: Elem)
    requires e in cells
    ensures var b := BBox(cells); b.x <= e.x && e.x + e.w <= b.x + b.w && b.y <= e.y && e.y + e.h <= b.y + b.h
  {
    var ex := MinLoLeast(cells, X);
    var fx := MaxHiGreatest(cells, X);
    var ey := MinLoLeast(cells, Y);
    var fy := MaxHiGreatest(cells, Y);
    assert Lo(e, X) == e.x && Lo(e, Y) == e.y && Hi(e, X) == e.x + e.w && Hi(e, Y) == e.y + e.h;
  }

  /** The box ends at most one pixel away from the group it holds. */
  lemma {:induction false} BBoxTight(cells: seq<Elem>, a: Axis)
    requires cells != []
    ensures BoxLo(BBox(cells), a) == MinLo(cells, a) - MinLo(cells, a) % 2
    ensures BoxHi(BBox(cells), a) == Even(MaxHi(cells, a))
  {
  }

  // ----- Free cuts

  datatype Cut = Cut(axis: Axis, at: int, left: seq<Elem>, right: seq<Elem>)

  function Before(cells: seq<Elem>, a: Axis, c: int): seq<Elem> {
    if cells == [] then []
    else if Hi(cells[0], a) <= c then [cells[0]] + Before(cells[1..], a, c)
    else Before(cells[1..], a, c)
  }

  function After(cells: seq<Elem>, a: Axis, c: int): seq<Elem> {
    if cells == [] then []
    else if Lo(cells[0], a) >= c then [cells[0]] + After(cells[1..], a, c)
    else After(cells[1..], a, c)
  }

  /** The test of app/compositor_fabric.py:309. */
  predicate Accepted(cells: seq<Elem>, a: Axis, c: int) {
    var left := Before(cells, a, c);
    var right := After(cells, a, c);
    |left| + |right| == |cells| && left != [] && right != []
  }

  /** Insertion into a strictly increasing list. */
  function Insert(s: seq<int>, v: int): seq<int> {
    if s == [] then [v]
    else if v < s[0] then [v] + s
    else if v == s[0] then s
    else [s[0]] + Insert(s[1..], v)
  }

  predicate Increasing(s: seq<int>) {
    forall i, j :: 0 <= i < j < |s| ==> s[i] < s[j]
  }

  lemma {:induction false} InsertMember(s: seq<int>, v: int, x: int)
    ensures x in Insert(s, v) <==> x == v || x in s
  {
    if s != [] {
      InsertMember(s[1..], v, x);
      assert x in s <==> x == s[0] || x in s[1..];
    }
  }

  lemma {:induction false} InsertIncreasing(s: seq<int>, v: int)
    requires Increasing(s)
    ensures Increasing(Insert(s, v))
  {
    if s != [] && v > s[0] {
      InsertIncreasing(s[1..], v);
      var rest := Insert(s[1..], v);
      forall j | 0 <= j < |rest|
        ensures s[0] < rest[j]
      {
        InsertMember(s[1..], v, rest[j]);
      }
    }
  }

  /** The cell ends of an axis, increasing and without repetition: the candidate cuts. */
  function Ends(cells: seq<Elem>, a: Axis): seq<int> {
    if cells == [] then [] else Insert(Ends(cells[1..], a), Hi(cells[0], a))
  }

  lemma {:induction false} EndsIncreasing(cells: seq<Elem>, a: Axis)
    ensures Increasing(Ends(cells, a))
  {
    if cells != [] {
      EndsIncreasing(cells[1..], a);
      InsertIncreasing(Ends(cells[1..], a), Hi(cells[0], a));
    }
  }

  lemma {:induction false} EndsExact(cells: seq<Elem>, a: Axis, x: int)
    ensures x in Ends(cells, a) <==> exists e :: e in cells && x == Hi(e, a)
  {
    if cells != [] {
      EndsExact(cells[1..], a, x);
      InsertMember(Ends(cells[1..], a), Hi(cells[0], a), x);
      assert cells[0] in cells;
      assert forall e :: e in cells <==> e == cells[0] || e in cells[1..];
    }
  }

  function CutAt(cells: seq<Elem>, a: Axis, c: int): Cut {
    Cut(a, c, Before(cells, a, c), After(cells, a, c))
  }

  function CutsAmong(cells: seq<Elem>, a: Axis, candidates: seq<int>): (r: seq<Cut>)
    ensures TwoSided(r)
    ensures forall cut :: cut in r ==> |cut.left| + |cut.right| == |cells|
  {
    if candidates == [] then [] else
    var rest := CutsAmong(cells, a, candidates[1..]);
    if Accepted(cells, a, candidates[0]) then [CutAt(cells, a, candidates[0])] + rest else rest
  }

  lemma {:induction false} CutsAmongExact(cells: seq<Elem>, a: Axis, candidates: seq<int>, cut: Cut)
    ensures cut in CutsAmong(cells, a, candidates)
            <==> cut.at in candidates && Accepted(cells, a, cut.at) && cut == CutAt(cells, a, cut.at)
  {
    if candidates != [] {
      CutsAmongExact(cells, a, candidates[1..], cut);
    }
  }

  function FreeCuts(cells: seq<Elem>, a: Axis): seq<Cut> {
    CutsAmong(cells, a, Ends(cells, a))
  }

  /** Some cell ends on the line. */
  predicate EndsOn(cells: seq<Elem>, a: Axis, c: int) {
    cells != [] && (Hi(cells[0], a) == c || EndsOn(cells[1..], a, c))
  }

  lemma {:induction false} EndsOnMember(cells: seq<Elem>, a: Axis, c: int)
    ensures EndsOn(cells, a, c) <==> exists e :: e in cells && c == Hi(e, a)
  {
    if cells != [] {
      EndsOnMember(cells[1..], a, c);
      assert cells[0] in cells;
      assert forall e :: e in cells <==> e == cells[0] || e in cells[1..];
    }
  }

  predicate IsFreeCut(cells: seq<Elem>, cut: Cut) {
    && Accepted(cells, cut.axis, cut.at)
    && EndsOn(cells, cut.axis, cut.at)
    && cut == CutAt(cells, cut.axis, cut.at)
  }

  lemma {:induction false} FreeCutsExact(cells: seq<Elem>, a: Axis, cut: Cut)
    ensures cut in FreeCuts(cells, a) <==> cut.axis == a && IsFreeCut(cells, cut)
  {
    CutsAmongExact(cells, a, Ends(cells, a), cut);
    EndsExact(cells, a, cut.at);
    EndsOnMember(cells, a, cut.at);
  }

  /** How unequal the two sides of a cut are; the least unequal cut is kept. */
  type Score = (seq<Elem>, seq<Elem>) -> int

  /** The score of the source: difference of the areas of the two aligned boxes. */
  function AreaGap(left: seq<Elem>, right: seq<Elem>): int {
    if left == [] || right == [] then 0 else
    var l, r := BBox(left), BBox(right);
    var d := l.w * l.h - r.w * r.h;
    if d < 0 then -d else d
  }

  function ScoreOf(cut: Cut, score: Score): int {
    score(cut.left, cut.right)
  }

  predicate TwoSided(cuts: seq<Cut>) {
    forall cut :: cut in cuts ==> cut.left != [] && cut.right != []
  }

  /** The first cut of least score. */
  function Best(cuts: seq<Cut>, score: Score): (r: Option<Cut>)
    ensures r.None? <==> cuts == []
    ensures r.Some? ==> r.value in cuts
  {
    if cuts == [] then None else
    match Best(cuts[1..], score)
    case None => Some(cuts[0])
    case Some(b) => if ScoreOf(cuts[0], score) <= ScoreOf(b, score) then Some(cuts[0]) else Some(b)
  }

  /** The cut that is kept is the first of least score. */
  lemma {:induction false} BestIsFirstLeast(cuts: seq<Cut>, score: Score) returns (k: nat)
    requires cuts != []
    ensures k < |cuts| && Best(cuts, score) == Some(cuts[k])
    ensures forall i :: 0 <= i < |cuts| ==> ScoreOf(cuts[k], score) <= ScoreOf(cuts[i], score)
    ensures forall i :: 0 <= i < k ==> ScoreOf(cuts[k], score) < ScoreOf(cuts[i], score)
  {
    k := 0;
    if |cuts| > 1 {
      var rest := cuts[1..];
      var j := BestIsFirstLeast(rest, score);
      assert forall i :: 1 <= i < |cuts| ==> cuts[i] == rest[i - 1];
      if ScoreOf(cuts[0], score) > ScoreOf(rest[j], score) {
        k := j + 1;
      }
    }
  }

  function BestCut(cells: seq<Elem>, score: Score): (r: Option<Cut>)
    ensures r.Some? ==> r.value.left != [] && r.value.right != []
    ensures r.Some? ==> |r.value.left| < |cells| && |r.value.right| < |cells|
  {
    Best(FreeCuts(cells, X) + FreeCuts(cells, Y), score)
  }

  lemma {:induction false} BestCutIsFree(cells: seq<Elem>, score: Score)
    ensures var r := BestCut(cells, score); r.Some? ==> IsFreeCut(cells, r.value)
  {
    var r := BestCut(cells, score);
    if r.Some? {
      assert r.value in FreeCuts(cells, X) || r.value in FreeCuts(cells, Y);
      FreeCutsExact(cells, X, r.value);
      FreeCutsExact(cells, Y, r.value);
    }
  }

  /** The two parts of a free cut, and the cell end it runs along. */
  lemma {:induction false} FreeParts(cells: seq<Elem>, cut: Cut)
    requires IsFreeCut(cells, cut)
    ensures forall e :: e in cut.left <==> e in cells && Hi(e, cut.axis) <= cut.at
    ensures forall e :: e in cut.right <==> e in cells && Lo(e, cut.axis) >= cut.at
    ensures exists e :: e in cells && cut.at == Hi(e, cut.axis)
  {
    SidesMember(cells, cut.axis, cut.at);
    EndsOnMember(cells, cut.axis, cut.at);
  }

  predicate Positive(e: Elem) {
    e.w > 0 && e.h > 0
  }

  predicate AllPositive(cells: seq<Elem>) {
    forall e :: e in cells ==> Positive(e)
  }

  /** A line crosses no cell and has a cell on either side. */
  ghost predicate Corridor(cells: seq<Elem>, a: Axis, c: int) {
    && (forall e :: e in cells ==> Hi(e, a) <= c || Lo(e, a) >= c)
    && (exists e :: e in cells && Hi(e, a) <= c)
    && (exists e :: e in cells && Lo(e, a) >= c)
  }

  /** Counting both sides, cell by cell. */
  lemma {:induction false} SidesCount(cells: seq<Elem>, a: Axis, c: int, e: Elem)
    ensures multiset(Before(cells, a, c))[e] == if Hi(e, a) <= c then multiset(cells)[e] else 0
    ensures multiset(After(cells, a, c))[e] == if Lo(e, a) >= c then multiset(cells)[e] else 0
  {
    if cells != [] {
      SplitFirst(cells);
      SidesCount(cells[1..], a, c, e);
    }
  }

  lemma {:induction false} SidesMember(cells: seq<Elem>, a: Axis, c: int)
    ensures forall e :: e in Before(cells, a, c) <==> e in cells && Hi(e, a) <= c
    ensures forall e :: e in After(cells, a, c) <==> e in cells && Lo(e, a) >= c
  {
    forall e
      ensures e in Before(cells, a, c) <==> e in cells && Hi(e, a) <= c
      ensures e in After(cells, a, c) <==> e in cells && Lo(e, a) >= c
    {
      SidesCount(cells, a, c, e);
      assert e in cells <==> multiset(cells)[e] > 0;
      assert e in Before(cells, a, c) <==> multiset(Before(cells, a, c))[e] > 0;
      assert e in After(cells, a, c) <==> multiset(After(cells, a, c))[e] > 0;
    }
  }

  /** No cell is counted on both sides of the line. */
  predicate CleanLine(cells: seq<Elem>, a: Axis, c: int) {
    forall e :: e in cells ==> !(Hi(e, a) <= c <= Lo(e, a))
  }

  lemma {:induction false} PositiveLineClean(cells: seq<Elem>, a: Axis, c: int)
    requires AllPositive(cells)
    ensures CleanLine(cells, a, c)
  {
  }

  /** The two sides of a line are a partition exactly when the line crosses no cell and
      no cell of non-positive extent sits on it. */
  lemma {:induction false} SidesPartition(cells: seq<Elem>, a: Axis, c: int)
    ensures multiset(Before(cells, a, c)) + multiset(After(cells, a, c)) == multiset(cells)
            <==> CleanLine(cells, a, c) && (forall e :: e in cells ==> Hi(e, a) <= c || Lo(e, a) >= c)
  {
    forall e
      ensures multiset(Before(cells, a, c))[e] == if Hi(e, a) <= c then multiset(cells)[e] else 0
      ensures multiset(After(cells, a, c))[e] == if Lo(e, a) >= c then multiset(cells)[e] else 0
    {
      SidesCount(cells, a, c, e);
    }
    var both := multiset(Before(cells, a, c)) + multiset(After(cells, a, c));
    if both == multiset(cells) {
      forall e | e in cells
        ensures !(Hi(e, a) <= c <= Lo(e, a)) && (Hi(e, a) <= c || Lo(e, a) >= c)
      {
        assert e in multiset(cells);
        assert both[e] == multiset(cells)[e];
      }
    } else {
      var e :| both[e] != multiset(cells)[e];
      assert e in multiset(cells);
      assert e in cells;
    }
  }

  /** An accepted line that is clean crosses no cell. */
  lemma {:induction false} AcceptedCleanPartition(cells: seq<Elem>, a: Axis, c: int)
    requires Accepted(cells, a, c)
    ensures multiset(Before(cells, a, c)) + multiset(After(cells, a, c)) == multiset(cells)
            <==> CleanLine(cells, a, c)
  {
    SidesPartition(cells, a, c);
    if CleanLine(cells, a, c) {
      forall e
        ensures multiset(Before(cells, a, c))[e] == if Hi(e, a) <= c then multiset(cells)[e] else 0
        ensures multiset(After(cells, a, c))[e] == if Lo(e, a) >= c then multiset(cells)[e] else 0
      {
        SidesCount(cells, a, c, e);
      }
      var both := multiset(Before(cells, a, c)) + multiset(After(cells, a, c));
      forall e
        ensures both[e] <= multiset(cells)[e]
      {
        if e in cells {
        } else {
          assert multiset(cells)[e] == 0;
        }
      }
      assert both <= multiset(cells);
      assert |both| == |Before(cells, a, c)| + |After(cells, a, c)| == |multiset(cells)|;
      assert |multiset(cells) - both| == 0;
      assert multiset(cells) == both + (multiset(cells) - both);
    }
  }

  lemma {:induction false} PartitionLengths<T>(l: seq<T>, r: seq<T>, s: seq<T>)
    requires multiset(l) + multiset(r) == multiset(s)
    ensures |l| + |r| == |s|
  {
    assert |multiset(l) + multiset(r)| == |l| + |r|;
    assert |multiset(s)| == |s|;
  }

  lemma {:induction false} AcceptedIsFound(cells: seq<Elem>, score: Score, a: Axis, c: int)
    requires Accepted(cells, a, c) && exists e :: e in cells && c == Hi(e, a)
    ensures BestCut(cells, score).Some?
  {
    EndsOnMember(cells, a, c);
    FreeCutsExact(cells, a, CutAt(cells, a, c));
    assert CutAt(cells, a, c) in FreeCuts(cells, X) + FreeCuts(cells, Y);
  }

  lemma {:induction false} CorridorGivesCut(cells: seq<Elem>, score: Score, a: Axis, c: int)
    requires AllPositive(cells) && Corridor(cells, a, c)
    ensures BestCut(cells, score).Some?
  {
    var left := Before(cells, a, c);
    var e0 :| e0 in cells && Hi(e0, a) <= c;
    SidesMember(cells, a, c);
    assert e0 in left;
    var c' := MaxHi(left, a);
    var e := MaxHiGreatest(left, a);
    var f :| f in cells && Lo(f, a) >= c;
    assert c' <= c && forall e :: e in cells && Hi(e, a) <= c ==> Hi(e, a) <= c' by {
      forall e | e in cells && Hi(e, a) <= c ensures Hi(e, a) <= c' {
        assert e in left;
      }
    }
    LastEndIsClean(cells, a, c, c');
    CleanEndIsFound(cells, score, a, c', e, f);
  }

  lemma {:induction false} CleanEndIsFound(cells: seq<Elem>, score: Score, a: Axis, c: int, e: Elem, f: Elem)
    requires CleanLine(cells, a, c) && forall e :: e in cells ==> Hi(e, a) <= c || Lo(e, a) >= c
    requires e in cells && c == Hi(e, a)
    requires f in cells && Lo(f, a) >= c
    ensures BestCut(cells, score).Some?
  {
    SidesPartition(cells, a, c);
    PartitionLengths(Before(cells, a, c), After(cells, a, c), cells);
    SidesMember(cells, a, c);
    assert e in Before(cells, a, c) && f in After(cells, a, c);
    AcceptedIsFound(cells, score, a, c);
  }

  lemma {:induction false} LastEndIsClean(cells: seq<Elem>, a: Axis, c: int, c': int)
    requires AllPositive(cells) && Corridor(cells, a, c)
    requires c' <= c && forall e :: e in cells && Hi(e, a) <= c ==> Hi(e, a) <= c'
    ensures CleanLine(cells, a, c') && forall e :: e in cells ==> Hi(e, a) <= c' || Lo(e, a) >= c'
  {
  }

  /** Among positive cells a cut is found whenever any straight corridor exists. */
  lemma {:induction false} CutFoundIffCorridor(cells: seq<Elem>, score: Score)
    requires AllPositive(cells)
    ensures BestCut(cells, score).Some? <==> exists a, c :: Corridor(cells, a, c)
  {
    var r := BestCut(cells, score);
    if r.Some? {
      BestCutIsFree(cells, score);
      CutIsCorridor(cells, r.value);
    }
    if a, c :| Corridor(cells, a, c) {
      CorridorGivesCut(cells, score, a, c);
    }
  }

  lemma {:induction false} CutIsCorridor(cells: seq<Elem>, cut: Cut)
    requires AllPositive(cells) && IsFreeCut(cells, cut)
    ensures Corridor(cells, cut.axis, cut.at)
  {
    var a, c := cut.axis, cut.at;
    PositiveLineClean(cells, a, c);
    AcceptedCleanPartition(cells, a, c);
    SidesPartition(cells, a, c);
    SidesMember(cells, a, c);
    assert cut.left[0] in cut.left && cut.right[0] in cut.right;
  }

  // ----- Aligned boxes of the two sides of a cut

  /** Every cell of `g` ends before the line and every cell of `h` starts after it. */
  ghost predicate SplitAt(g: seq<Elem>, h: seq<Elem>, a: Axis, c: int) {
    && (forall e :: e in g ==> Hi(e, a) <= c)
    && (forall e :: e in h ==> Lo(e, a) >= c)
  }

  predicate Apart(b: Box, d: Box, a: Axis) {
    BoxHi(b, a) <= BoxLo(d, a)
  }

  /** Groups on two sides of a line have boxes that pass it by at most one pixel. */
  lemma {:induction false} SplitBoxesNearlyApart(g: seq<Elem>, h: seq<Elem>, a: Axis, c: int)
    requires g != [] && h != [] && SplitAt(g, h, a, c)
    ensures BoxHi(BBox(g), a) <= c + 1 && BoxLo(BBox(h), a) >= c - 1
    ensures c % 2 == 0 ==> Apart(BBox(g), BBox(h), a)
  {
    hide BBox, Hi, Lo, BoxLo, BoxHi;
    var m, n := MaxHi(g, a), MinLo(h, a);
    var e := MaxHiGreatest(g, a);
    var f := MinLoLeast(h, a);
    BBoxTight(g, a);
    BBoxTight(h, a);
  }

  lemma {:induction false} CutEdges(cells: seq<Elem>, cut: Cut)
    requires IsFreeCut(cells, cut)
    ensures cut.left != [] && cut.right != []
    ensures SplitAt(cut.left, cut.right, cut.axis, cut.at)
    ensures MaxHi(cut.left, cut.axis) == cut.at
  {
    var a := cut.axis;
    SidesMember(cells, a, cut.at);
    EndsOnMember(cells, a, cut.at);
    var e :| e in cells && cut.at == Hi(e, a);
    assert e in cut.left;
    var f := MaxHiGreatest(cut.left, a);
  }

  /** On an axis, the extent of one group rounded to even ends before that of the other. */
  predicate EndsFirst(g: seq<Elem>, h: seq<Elem>, a: Axis)
    requires g != [] && h != []
  {
    Even(MaxHi(g, a)) <= MinLo(h, a) - MinLo(h, a) % 2
  }

  function Other(a: Axis): Axis {
    if a == X then Y else X
  }

  predicate BoxesDisjoint(b: Box, d: Box) {
    Apart(b, d, X) || Apart(d, b, X) || Apart(b, d, Y) || Apart(d, b, Y)
  }

  /** The two boxes of a chosen cut do not overlap exactly when the cut is even, or no cell of the right part
      starts on the line, or the two parts are apart on the other axis too. The last case, a right part that
      ends before the left one, is possible at an odd cut only with cells of negative size. */
  lemma {:induction false} CutBoxesDisjointExactly(cells: seq<Elem>, cut: Cut)
    requires IsFreeCut(cells, cut)
    ensures cut.left != [] && cut.right != []
    ensures BoxesDisjoint(BBox(cut.left), BBox(cut.right))
            <==> || cut.at % 2 == 0 || (forall e :: e in cut.right ==> Lo(e, cut.axis) > cut.at)
                 || EndsFirst(cut.left, cut.right, Other(cut.axis)) || EndsFirst(cut.right, cut.left, Other(cut.axis))
                 || EndsFirst(cut.right, cut.left, cut.axis)
    ensures EndsFirst(cut.right, cut.left, cut.axis) && cut.at % 2 != 0 ==>
              exists e :: e in cells && Size(e, cut.axis) < 0
  {
    CutEdges(cells, cut);
    SplitBoxesApartExactly(cut.left, cut.right, cut.axis, cut.at);
    BoxesByExtents(cut.left, cut.right);
    hide BBox, Apart, EndsFirst, IsFreeCut, BoxesDisjoint;
    if EndsFirst(cut.right, cut.left, cut.axis) && cut.at % 2 != 0 {
      EndsFirstBackwards(cells, cut);
    }
  }

  lemma {:induction false} BoxesByExtents(g: seq<Elem>, h: seq<Elem>)
    requires g != [] && h != []
    ensures BoxesDisjoint(BBox(g), BBox(h))
            <==> EndsFirst(g, h, X) || EndsFirst(h, g, X) || EndsFirst(g, h, Y) || EndsFirst(h, g, Y)
    ensures forall a :: Apart(BBox(g), BBox(h), a) <==> EndsFirst(g, h, a)
  {
    hide BBox, BoxLo, BoxHi;
    BBoxTight(g, X);
    BBoxTight(h, X);
    BBoxTight(g, Y);
    BBoxTight(h, Y);
  }

  lemma {:induction false} EndsFirstBackwards(cells: seq<Elem>, cut: Cut)
    requires IsFreeCut(cells, cut) && cut.left != [] && cut.right != [] && MaxHi(cut.left, cut.axis) == cut.at
    requires EndsFirst(cut.right, cut.left, cut.axis) && cut.at % 2 != 0
    ensures exists e :: e in cells && Size(e, cut.axis) < 0
  {
    var a := cut.axis;
    SidesMember(cells, a, cut.at);
    var f := MaxHiGreatest(cut.left, a);
    var d := MinLoLeast(cut.left, a);
    var g := MaxHiGreatest(cut.right, a);
    assert f in cells && g in cells && Size(f, a) == Hi(f, a) - Lo(f, a) && Size(g, a) == Hi(g, a) - Lo(g, a);
  }

  /** Two windows three pixels wide, side by side: their boxes overlap. */
  lemma {:induction false} OddCutOverlaps(l: Elem, r: Elem)
    requires l.x == 0 && l.y == 0 && l.w == 3 && l.h == 2 && r.x == 3 && r.y == 0 && r.w == 3 && r.h == 2
    ensures IsFreeCut([l, r], Cut(X, 3, [l], [r]))
    ensures BBox([l]) == Box(0, 0, 4, 2) && BBox([r]) == Box(2, 0, 4, 2) && !BoxesDisjoint(BBox([l]), BBox([r]))
  {
    assert [l, r][1..] == [r] && [r][1..] == [];
    assert Before([r], X, 3) == [] && After([r], X, 3) == [r];
    assert MinLo([l], X) == 0 && MinLo([l], Y) == 0 && MaxHi([l], X) == 3 && MaxHi([l], Y) == 2;
    assert MinLo([r], X) == 3 && MinLo([r], Y) == 0 && MaxHi([r], X) == 6 && MaxHi([r], Y) == 2;
  }

  lemma {:induction false} RoundedApart(c: int, n: int)
    requires c <= n
    ensures Even(c) <= n - n % 2 <==> c % 2 == 0 || n > c
  {
  }

  lemma {:induction false} FirstStart(h: seq<Elem>, a: Axis, c: int)
    requires h != [] && forall e :: e in h ==> Lo(e, a) >= c
    ensures MinLo(h, a) >= c
    ensures MinLo(h, a) > c <==> forall e :: e in h ==> Lo(e, a) > c
  {
    var f := MinLoLeast(h, a);
  }

  lemma {:induction false} SplitBoxesApartExactly(g: seq<Elem>, h: seq<Elem>, a: Axis, c: int)
    requires g != [] && h != [] && SplitAt(g, h, a, c) && MaxHi(g, a) == c
    ensures Apart(BBox(g), BBox(h), a) <==> c % 2 == 0 || forall e :: e in h ==> Lo(e, a) > c
  {
    FirstStart(h, a, c);
    RoundedApart(c, MinLo(h, a));
    BBoxTight(g, a);
    BBoxTight(h, a);
  }
}
