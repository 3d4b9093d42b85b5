/** The search for a cut as loops over lines (app/compositor_fabric.py:298-327). */
module Cutting {
  import opened Collections
  import opened Signatures
  import opened Geometry

  /** The accepted lines of one axis, in increasing order. */
  method FindFreeCuts(cells: seq<Elem>, a: Axis) returns (cuts: seq<Cut>)
    ensures cuts == FreeCuts(cells, a)
  {
    hide Accepted, CutAt, Ends;
    cuts := [];
    var lines := Ends(cells, a);
    var i := 0;
    while i < |lines|
      invariant 0 <= i <= |lines|
      invariant cuts + CutsAmong(cells, a, lines[i..]) == FreeCuts(cells, a)
    {
      assert lines[i..][1..] == lines[i + 1..];
      if Accepted(cells, a, lines[i]) {
        cuts := cuts + [CutAt(cells, a, lines[i])];
      }
      i := i + 1;
    }
  }

  /** The cut is the first of the least score among the first `n`, at position `k`. */
  ghost predicate FirstLeast(cuts: seq<Cut>, score: Score, n: nat, k: nat)
    requires n <= |cuts|
  {
    && k < n
    && (forall j :: 0 <= j < n ==> ScoreOf(cuts[k], score) <= ScoreOf(cuts[j], score))
    && (forall j :: 0 <= j < k ==> ScoreOf(cuts[k], score) < ScoreOf(cuts[j], score))
  }

  lemma {:induction false} FirstLeastIsBest(cuts: seq<Cut>, score: Score, k: nat)
    requires FirstLeast(cuts, score, |cuts|, k)
    ensures Best(cuts, score) == Some(cuts[k])
  {
    hide Best, ScoreOf;
    var j := BestIsFirstLeast(cuts, score);
    assert ScoreOf(cuts[j], score) <= ScoreOf(cuts[k], score) && ScoreOf(cuts[k], score) <= ScoreOf(cuts[j], score);
  }

  /** The cut, on either axis, whose two boxes differ least in area; the first found among equals. */
  method FindBestCut(cells: seq<Elem>, score: Score) returns (best: Option<Cut>)
    ensures best == BestCut(cells, score)
  {
    hide FreeCuts, ScoreOf, Best;
    var onX := FindFreeCuts(cells, X);
    var onY := FindFreeCuts(cells, Y);
    var cuts := onX + onY;
    best := None;
    var i := 0;
    ghost var k := 0;
    while i < |cuts|
      invariant 0 <= i <= |cuts|
      invariant best.None? <==> i == 0
      invariant best.Some? ==> FirstLeast(cuts, score, i, k) && best.value == cuts[k]
    {
      if best.None? || ScoreOf(cuts[i], score) < ScoreOf(best.value, score) {
        best := Some(cuts[i]);
        k := i;
      }
      i := i + 1;
    }
    if best.Some? {
      FirstLeastIsBest(cuts, score, k);
    } else {
      NoBest(score);
    }
  }

  lemma {:induction false} NoBest(score: Score)
    ensures Best([], score) == None
  {
  }
}
