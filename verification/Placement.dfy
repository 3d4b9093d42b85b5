/** Choosing cores on a machine with several sockets (app/core_pool.py:402-507). */
module Placement {
  import opened Collections

  // ----- The smallest members of a set

  predicate IsLeast(s: set<nat>, x: nat) {
    x in s && forall y :: y in s ==> x <= y
  }

  lemma {:induction false} LeastExists(s: set<nat>)
    requires s != {}
    ensures exists x :: IsLeast(s, x)
    decreases |s|
  {
    var x :| x in s;
    if s == {x} {
      assert IsLeast(s, x);
    } else {
      LeastExists(s - {x});
      var y :| IsLeast(s - {x}, y);
      var z := if x < y then x else y;
      assert s == (s - {x}) + {x};
      assert IsLeast(s, z);
    }
  }

  function Least(s: set<nat>): (x: nat)
    requires s != {}
    ensures IsLeast(s, x)
  {
    LeastExists(s);
    var x :| IsLeast(s, x);
    x
  }

  /** The `n` smallest members, or all of them when there are fewer. */
  function Smallest(s: set<nat>, n: nat): set<nat> {
    if n == 0 || s == {} then {} else {Least(s)} + Smallest(s - {Least(s)}, n - 1)
  }

  lemma {:induction false} SmallestFacts(s: set<nat>, n: nat)
    ensures Smallest(s, n) <= s
    ensures n <= |s| ==> |Smallest(s, n)| == n
    ensures forall x, y :: x in Smallest(s, n) && y in s && y !in Smallest(s, n) ==> x < y
  {
    if n > 0 && s != {} {
      SmallestFacts(s - {Least(s)}, n - 1);
    }
  }

  /** Members below all others are the smallest ones. */
  lemma {:induction false} SmallestUnique(s: set<nat>, n: nat, t: set<nat>)
    requires t <= s && |t| == n && forall x, y :: x in t && y in s && y !in t ==> x < y
    ensures Smallest(s, n) == t
  {
    if n == 0 {
    } else {
      assert t != {};
      var x := Least(s);
      assert x in t by {
        var y :| y in t;
        assert y in s && x <= y;
      }
      assert t - {x} <= s - {x};
      SmallestUnique(s - {x}, n - 1, t - {x});
    }
  }

  /** Taking away members that are not among the smallest changes nothing. */
  lemma {:induction false} SmallestOfFewer(s: set<nat>, t: set<nat>, n: nat)
    requires n <= |s| && Smallest(s, n) <= t <= s
    ensures Smallest(t, n) == Smallest(s, n)
  {
    SmallestFacts(s, n);
    SmallestUnique(t, n, Smallest(s, n));
  }

  // ----- Sockets

  /** Socket of each core, as far as known. */
  type Sockets = map<nat, nat>

  function On(cores: set<nat>, sockets: Sockets, k: nat): set<nat> {
    set c | c in cores && c in sockets && sockets[c] == k
  }

  function Used(cores: set<nat>, sockets: Sockets): set<nat> {
    set c | c in cores && c in sockets :: sockets[c]
  }

  /** The socket offers `n` of the cores. */
  predicate Roomy(cores: set<nat>, sockets: Sockets, n: nat, k: nat) {
    |On(cores, sockets, k)| >= n
  }

  /** Roomy sockets, the fullest first and the lowest number among equals. */
  predicate Better(cores: set<nat>, sockets: Sockets, a: nat, b: nat) {
    |On(cores, sockets, a)| > |On(cores, sockets, b)| || (|On(cores, sockets, a)| == |On(cores, sockets, b)| && a <= b)
  }

  predicate IsBest(cores: set<nat>, sockets: Sockets, n: nat, k: nat) {
    && k in Used(cores, sockets) && Roomy(cores, sockets, n, k)
    && forall j :: j in Used(cores, sockets) && Roomy(cores, sockets, n, j) ==> Better(cores, sockets, k, j)
  }

  lemma {:induction false} BestUnique(cores: set<nat>, sockets: Sockets, n: nat, a: nat, b: nat)
    requires IsBest(cores, sockets, n, a) && IsBest(cores, sockets, n, b)
    ensures a == b
  {
  }

  /** Among a set of sockets, one of which is roomy, there is a best one. */
  lemma {:induction false} BestAmong(cores: set<nat>, sockets: Sockets, some: set<nat>) returns (k: nat)
    requires some != {}
    ensures k in some && forall j :: j in some ==> Better(cores, sockets, k, j)
    decreases |some|
  {
    hide On;
    var x :| x in some;
    if some == {x} {
      k := x;
    } else {
      var y := BestAmong(cores, sockets, some - {x});
      k := if Better(cores, sockets, x, y) then x else y;
      assert some == (some - {x}) + {x};
    }
  }

  lemma {:induction false} BestExists(cores: set<nat>, sockets: Sockets, n: nat) returns (k: nat)
    requires exists j :: j in Used(cores, sockets) && Roomy(cores, sockets, n, j)
    ensures IsBest(cores, sockets, n, k)
  {
    hide On, Roomy, Better, Used;
    var some := set j | j in Used(cores, sockets) && Roomy(cores, sockets, n, j);
    var j :| j in Used(cores, sockets) && Roomy(cores, sockets, n, j);
    assert j in some;
    k := BestAmong(cores, sockets, some);
    assert k in some;
    forall i | i in Used(cores, sockets) && Roomy(cores, sockets, n, i)
      ensures Better(cores, sockets, k, i)
    {
      assert i in some;
    }
  }

  predicate SomeRoom(cores: set<nat>, sockets: Sockets, n: nat) {
    exists k :: k in Used(cores, sockets) && Roomy(cores, sockets, n, k)
  }

  function BestSocket(cores: set<nat>, sockets: Sockets, n: nat): (k: nat)
    requires SomeRoom(cores, sockets, n)
    ensures IsBest(cores, sockets, n, k)
  {
    BestIs(cores, sockets, n);
    var k :| IsBest(cores, sockets, n, k);
    k
  }

  lemma {:induction false} BestIs(cores: set<nat>, sockets: Sockets, n: nat)
    requires SomeRoom(cores, sockets, n)
    ensures exists k :: IsBest(cores, sockets, n, k)
    ensures forall a, b :: IsBest(cores, sockets, n, a) && IsBest(cores, sockets, n, b) ==> a == b
  {
    var k := BestExists(cores, sockets, n);
    forall a, b | IsBest(cores, sockets, n, a) && IsBest(cores, sockets, n, b)
      ensures a == b
    {
      BestUnique(cores, sockets, n, a, b);
    }
  }

  /** `n` cores among the offered ones: on the wanted socket if it has room, else on the roomiest socket,
      else the smallest numbers, across sockets. */
  function Pick(cores: set<nat>, sockets: Sockets, n: nat, prefer: Option<nat>): set<nat> {
    if sockets == map[] then Smallest(cores, n)
    else if prefer.Some? && Roomy(cores, sockets, n, prefer.value) then Smallest(On(cores, sockets, prefer.value), n)
    else if SomeRoom(cores, sockets, n) then Smallest(On(cores, sockets, BestSocket(cores, sockets, n)), n)
    else Smallest(cores, n)
  }

  /** `n` distinct cores among the offered ones. */
  lemma {:induction false} PickFacts(cores: set<nat>, sockets: Sockets, n: nat, prefer: Option<nat>)
    requires n <= |cores|
    ensures Pick(cores, sockets, n, prefer) <= cores && |Pick(cores, sockets, n, prefer)| == n
  {
    SmallestFacts(cores, n);
    if prefer.Some? {
      SmallestFacts(On(cores, sockets, prefer.value), n);
    }
    if SomeRoom(cores, sockets, n) {
      SmallestFacts(On(cores, sockets, BestSocket(cores, sockets, n)), n);
    }
  }

  // ----- Scores

  predicate OneSocket(cores: set<nat>, sockets: Sockets) {
    exists k :: k in sockets.Values && On(cores, sockets, k) == cores
  }

  predicate Touches(cores: set<nat>, sockets: Sockets, k: nat) {
    On(cores, sockets, k) != {}
  }

  /** 0 on one socket, the wanted one; 1 across sockets, touching it; 2 on one socket beside it; 3 across
      sockets beside it. Without a wanted socket, only being on one socket matters. */
  function Score(cores: set<nat>, sockets: Sockets, prefer: Option<nat>): (r: nat)
    ensures r <= 3
  {
    if sockets == map[] || cores == {} then 0
    else if prefer.None? then (if OneSocket(cores, sockets) then 0 else 3)
    else if OneSocket(cores, sockets) then (if Touches(cores, sockets, prefer.value) then 0 else 2)
    else if Touches(cores, sockets, prefer.value) then 1 else 3
  }

  lemma {:induction false} WithinSocket(cores: set<nat>, sockets: Sockets, k: nat, some: set<nat>)
    requires some <= On(cores, sockets, k) && some != {}
    ensures OneSocket(some, sockets) && On(some, sockets, k) == some
    ensures forall j :: j != k ==> !Touches(some, sockets, j)
  {
    assert On(some, sockets, k) == some;
    var c :| c in some;
    assert sockets[c] == k;
  }

  /** A pick that lies on one socket shows that a socket had room. */
  lemma {:induction false} OneSocketHadRoom(cores: set<nat>, sockets: Sockets, n: nat, some: set<nat>)
    requires some <= cores && |some| == n && n > 0 && OneSocket(some, sockets)
    ensures SomeRoom(cores, sockets, n)
    ensures forall k :: On(some, sockets, k) == some ==> Roomy(cores, sockets, n, k)
  {
    forall k | On(some, sockets, k) == some
      ensures Roomy(cores, sockets, n, k)
    {
      assert some <= On(cores, sockets, k);
      SubsetSize(some, On(cores, sockets, k));
    }
    var k :| k in sockets.Values && On(some, sockets, k) == some;
    assert some != {};
    var c :| c in some;
    assert c in On(some, sockets, k);
    assert sockets[c] in Used(cores, sockets);
  }

  /** How good a pick is: on the wanted socket whenever it has room, on one socket whenever one has room. */
  lemma {:induction false} PickScore(cores: set<nat>, sockets: Sockets, n: nat, prefer: Option<nat>)
    requires 0 < n <= |cores| && sockets != map[]
    ensures var p := Pick(cores, sockets, n, prefer);
            && (prefer.Some? && Roomy(cores, sockets, n, prefer.value) ==> p <= On(cores, sockets, prefer.value))
            && (OneSocket(p, sockets) <==> SomeRoom(cores, sockets, n))
            && (Score(p, sockets, prefer) == 0
                <==> if prefer.Some? then Roomy(cores, sockets, n, prefer.value) else SomeRoom(cores, sockets, n))
            && (Score(p, sockets, prefer) < 3 && SomeRoom(cores, sockets, n) ==> Score(p, sockets, prefer) in {0, 2})
            && (SomeRoom(cores, sockets, n) ==> Score(p, sockets, prefer) < 3)
  {
    hide On, Roomy, SomeRoom, BestSocket, OneSocket, Used;
    var p := Pick(cores, sockets, n, prefer);
    PickFacts(cores, sockets, n, prefer);
    if prefer.Some? && Roomy(cores, sockets, n, prefer.value) {
      RoomyIsUsed(cores, sockets, n, prefer.value);
      SmallestFacts(On(cores, sockets, prefer.value), n);
      WithinSocket(cores, sockets, prefer.value, p);
    } else if SomeRoom(cores, sockets, n) {
      var k := BestSocket(cores, sockets, n);
      SmallestFacts(On(cores, sockets, k), n);
      WithinSocket(cores, sockets, k, p);
      if prefer.Some? {
        NotRoomyOther(cores, sockets, n, prefer.value, k);
      }
    } else if OneSocket(p, sockets) {
      OneSocketHadRoom(cores, sockets, n, p);
    }
  }

  lemma {:induction false} OnUsed(cores: set<nat>, sockets: Sockets, k: nat)
    ensures On(cores, sockets, k) != {} ==> k in Used(cores, sockets)
  {
  }

  lemma {:induction false} RoomyIsUsed(cores: set<nat>, sockets: Sockets, n: nat, k: nat)
    requires n > 0 && Roomy(cores, sockets, n, k)
    ensures SomeRoom(cores, sockets, n)
  {
  }

  lemma {:induction false} NotRoomyOther(cores: set<nat>, sockets: Sockets, n: nat, a: nat, b: nat)
    requires !Roomy(cores, sockets, n, a) && IsBest(cores, sockets, n, b)
    ensures a != b
  {
  }

  /** Offering fewer cores, among which the pick still is, gives nothing better than the pick. */
  lemma {:induction false} PickStable(cores: set<nat>, fewer: set<nat>, sockets: Sockets, n: nat, prefer: Option<nat>)
    requires 0 < n <= |cores| && Pick(cores, sockets, n, prefer) <= fewer <= cores
    ensures n <= |fewer|
    ensures Score(Pick(fewer, sockets, n, prefer), sockets, prefer)
            >= Score(Pick(cores, sockets, n, prefer), sockets, prefer)
  {
    hide On, SomeRoom, BestSocket, OneSocket, Used, Score;
    var p := Pick(cores, sockets, n, prefer);
    PickFacts(cores, sockets, n, prefer);
    SubsetSize(p, fewer);
    if sockets == map[] {
      FlatScore(p, sockets, prefer);
      FlatScore(Pick(fewer, sockets, n, prefer), sockets, prefer);
    } else {
      PickScore(cores, sockets, n, prefer);
      PickScore(fewer, sockets, n, prefer);
      FewerRoom(cores, fewer, sockets, n);
      if SomeRoom(cores, sockets, n) {
        OneSocketHadRoom(fewer, sockets, n, p);
      } else {
        if prefer.Some? {
          NoRoomAtAll(cores, sockets, n, prefer.value);
          NoRoomAtAll(fewer, sockets, n, prefer.value);
        }
        SmallestOfFewer(cores, fewer, n);
      }
    }
  }

  lemma {:induction false} FlatScore(cores: set<nat>, sockets: Sockets, prefer: Option<nat>)
    requires sockets == map[]
    ensures Score(cores, sockets, prefer) == 0
  {
  }

  lemma {:induction false} NoRoomAtAll(cores: set<nat>, sockets: Sockets, n: nat, k: nat)
    requires n > 0 && !SomeRoom(cores, sockets, n)
    ensures !Roomy(cores, sockets, n, k)
  {
  }

  lemma {:induction false} FewerRoom(cores: set<nat>, fewer: set<nat>, sockets: Sockets, n: nat)
    requires fewer <= cores
    ensures forall k :: Roomy(fewer, sockets, n, k) ==> Roomy(cores, sockets, n, k)
    ensures SomeRoom(fewer, sockets, n) ==> SomeRoom(cores, sockets, n)
  {
    forall k | Roomy(fewer, sockets, n, k)
      ensures Roomy(cores, sockets, n, k)
    {
      SubsetSize(On(fewer, sockets, k), On(cores, sockets, k));
    }
    if SomeRoom(fewer, sockets, n) {
      var k :| k in Used(fewer, sockets) && Roomy(fewer, sockets, n, k);
      assert k in Used(cores, sockets);
    }
  }

  // ----- The choice as loops over sorted lists

  predicate Ascending(s: seq<nat>) {
    forall i, j :: 0 <= i < j < |s| ==> s[i] < s[j]
  }

  function Elems(s: seq<nat>): set<nat> {
    set c | c in s
  }

  lemma {:induction false} AscendingSize(s: seq<nat>)
    requires Ascending(s)
    ensures |Elems(s)| == |s|
  {
    if s == [] {
      assert Elems(s) == {};
    } else {
      var front, last := s[..|s| - 1], s[|s| - 1];
      AscendingSize(front);
      assert last !in front;
      assert s == front + [last];
      assert Elems(s) == Elems(front) + {last};
    }
  }

  /** The head of a sorted list holds the smallest members. */
  lemma {:induction false} HeadIsSmallest(s: seq<nat>, n: nat)
    requires Ascending(s) && n <= |s|
    ensures Elems(s[..n]) == Smallest(Elems(s), n) && Ascending(s[..n])
  {
    AscendingSize(s[..n]);
    forall j | 0 <= j < n
      ensures s[j] in Elems(s[..n])
    {
      assert s[..n][j] == s[j];
    }
    forall x, y | x in Elems(s[..n]) && y in Elems(s) && y !in Elems(s[..n])
      ensures x < y
    {
      var i :| 0 <= i < n && s[..n][i] == x;
      var j :| 0 <= j < |s| && s[j] == y;
    }
    SmallestUnique(Elems(s), n, Elems(s[..n]));
  }

  predicate Grouped(groups: map<nat, seq<nat>>, cores: set<nat>, sockets: Sockets) {
    && groups.Keys == Used(cores, sockets)
    && (forall k :: k in groups ==> Ascending(groups[k]) && Elems(groups[k]) == On(cores, sockets, k))
  }

  lemma {:induction false} GroupNext(groups: map<nat, seq<nat>>, free: seq<nat>, sockets: Sockets, i: nat)
    requires i < |free| && Ascending(free) && Grouped(groups, Elems(free[..i]), sockets)
    ensures var c := free[i];
            c !in sockets ==> Grouped(groups, Elems(free[..i + 1]), sockets)
    ensures var c := free[i];
            c in sockets ==>
                Grouped(groups[sockets[c] := Listed(groups, sockets[c]) + [c]], Elems(free[..i + 1]), sockets)
  {
    var c := free[i];
    assert free[..i + 1] == free[..i] + [c];
    assert Elems(free[..i + 1]) == Elems(free[..i]) + {c};
    forall d | d in Elems(free[..i])
      ensures d < c
    {
      var j :| 0 <= j < i && free[j] == d;
    }
    if c !in sockets {
      SameGroups(Elems(free[..i]), sockets, c);
    } else {
      MoreGroup(groups, Elems(free[..i]), sockets, c);
    }
  }

  lemma {:induction false} SameGroups(cores: set<nat>, sockets: Sockets, c: nat)
    requires c !in sockets
    ensures Used(cores + {c}, sockets) == Used(cores, sockets)
    ensures forall k :: On(cores + {c}, sockets, k) == On(cores, sockets, k)
  {
  }

  lemma {:induction false} OneMoreAscending(s: seq<nat>, c: nat)
    requires Ascending(s) && forall d :: d in s ==> d < c
    ensures Ascending(s + [c])
  {
    forall i, j | 0 <= i < j < |s + [c]|
      ensures (s + [c])[i] < (s + [c])[j]
    {
      assert s[i] in s;
    }
  }

  lemma {:induction false} MoreGroup(groups: map<nat, seq<nat>>, cores: set<nat>, sockets: Sockets, c: nat)
    requires Grouped(groups, cores, sockets) && c in sockets && forall d :: d in cores ==> d < c
    ensures Grouped(groups[sockets[c] := Listed(groups, sockets[c]) + [c]], cores + {c}, sockets)
  {
    var k := sockets[c];
    var group := Listed(groups, k);
    forall j | j != k
      ensures On(cores + {c}, sockets, j) == On(cores, sockets, j)
    {
    }
    assert On(cores + {c}, sockets, k) == On(cores, sockets, k) + {c};
    if k !in groups {
      OnUsed(cores, sockets, k);
    }
    assert Elems(group) == On(cores, sockets, k);
    assert Elems(group + [c]) == Elems(group) + {c};
    forall d | d in group
      ensures d < c
    {
      assert d in Elems(group);
    }
    OneMoreAscending(group, c);
    assert Used(cores + {c}, sockets) == Used(cores, sockets) + {k} by {
      assert c in cores + {c};
      forall j | j in Used(cores, sockets) + {k}
        ensures j in Used(cores + {c}, sockets)
      {
        if j in Used(cores, sockets) {
          var d :| d in cores && d in sockets && sockets[d] == j;
          assert d in cores + {c};
        }
      }
    }
  }

  /** Free cores by socket. */
  method GroupBySocket(free: seq<nat>, sockets: Sockets) returns (groups: map<nat, seq<nat>>)
    requires Ascending(free)
    ensures Grouped(groups, Elems(free), sockets)
  {
    hide Grouped, Ascending;
    groups := map[];
    var i := 0;
    assert Grouped(groups, Elems(free[..0]), sockets) by { NoGroups(free, sockets); }
    while i < |free|
      invariant 0 <= i <= |free| && Grouped(groups, Elems(free[..i]), sockets)
    {
      var c := free[i];
      GroupNext(groups, free, sockets, i);
      if c in sockets {
        groups := groups[sockets[c] := Listed(groups, sockets[c]) + [c]];
      }
      i := i + 1;
    }
    assert free[..i] == free;
  }

  lemma {:induction false} NoGroups(free: seq<nat>, sockets: Sockets)
    ensures Grouped(map[], Elems(free[..0]), sockets)
  {
  }

  /** The best roomy socket, if any. */
  method RoomiestSocket(groups: map<nat, seq<nat>>, n: nat, ghost cores: set<nat>,
                        sockets: Sockets) returns (best: Option<nat>)
    requires Grouped(groups, cores, sockets)
    ensures best.Some? <==> SomeRoom(cores, sockets, n)
    ensures best.Some? ==> best.value in groups && IsBest(cores, sockets, n, best.value)
  {
    hide On, Used, Ascending, Elems, Roomy;
    GroupSizes(groups, cores, sockets, n);
    best := None;
    var todo := groups.Keys;
    while todo != {}
      invariant todo <= groups.Keys
      invariant best.Some? ==> best.value in groups && Roomy(cores, sockets, n, best.value)
      invariant forall j :: j in groups.Keys - todo && Roomy(cores, sockets, n, j)
                  ==> best.Some? && Better(cores, sockets, best.value, j)
      decreases |todo|
    {
      var k :| k in todo;
      todo := todo - {k};
      if |groups[k]| >= n && (best.None? || |groups[k]| > |groups[best.value]|
                              || (|groups[k]| == |groups[best.value]| && k < best.value)) {
        best := Some(k);
      }
    }
  }

  lemma {:induction false} GroupSizes(groups: map<nat, seq<nat>>, cores: set<nat>, sockets: Sockets, n: nat)
    requires Grouped(groups, cores, sockets)
    ensures forall k :: k in groups ==>
              |groups[k]| == |On(cores, sockets, k)| && (Roomy(cores, sockets, n, k) <==> |groups[k]| >= n)
  {
    forall k | k in groups
      ensures |groups[k]| == |On(cores, sockets, k)|
    {
      AscendingSize(groups[k]);
    }
  }

  /** The choice; `signal` tells that the operator is warned about the placement. */
  method ChooseCores(free: seq<nat>, n: nat, sockets: Sockets, prefer: Option<nat>) returns (pick: seq<nat>,
                     signal: bool)
    requires Ascending(free) && 0 < n <= |free|
    ensures Ascending(pick) && Elems(pick) == Pick(Elems(free), sockets, n, prefer)
    ensures signal <==> Score(Elems(pick), sockets, prefer) != 0
  {
    hide On, Used, Ascending, Elems, Score, SomeRoom, Better, OneSocket;
    ghost var cores := Elems(free);
    AscendingSize(free);
    if |sockets| == 0 {
      HeadIsSmallest(free, n);
      FlatScore(Elems(free[..n]), sockets, prefer);
      return free[..n], false;
    }
    var groups := GroupBySocket(free, sockets);
    PickScore(cores, sockets, n, prefer);
    GroupSizes(groups, cores, sockets, n);
    if prefer.Some? && prefer.value in groups && |groups[prefer.value]| >= n {
      HeadIsSmallest(groups[prefer.value], n);
      return groups[prefer.value][..n], false;
    }
    if prefer.Some? && prefer.value !in groups {
      NotUsedNotRoomy(cores, sockets, n, prefer.value);
    }
    var best := RoomiestSocket(groups, n, cores, sockets);
    if best.Some? {
      BestUnique(cores, sockets, n, best.value, BestSocket(cores, sockets, n));
      HeadIsSmallest(groups[best.value], n);
      return groups[best.value][..n], prefer.Some?;
    }
    HeadIsSmallest(free, n);
    return free[..n], true;
  }

  lemma {:induction false} NotUsedNotRoomy(cores: set<nat>, sockets: Sockets, n: nat, k: nat)
    requires n > 0 && k !in Used(cores, sockets)
    ensures !Roomy(cores, sockets, n, k)
  {
  }

  /** The members of a set, in order. */
  method Sort(cores: set<nat>) returns (sorted: seq<nat>)
    ensures Ascending(sorted) && Elems(sorted) == cores && |sorted| == |cores|
  {
    sorted := [];
    var todo := cores;
    while todo != {}
      invariant todo <= cores && Ascending(sorted) && Elems(sorted) == cores - todo
      invariant forall c, d :: c in sorted && d in todo ==> c < d
      decreases |todo|
    {
      var c := Least(todo);
      OneMoreAscending(sorted, c);
      assert Elems(sorted + [c]) == Elems(sorted) + {c};
      sorted := sorted + [c];
      todo := todo - {c};
    }
    AscendingSize(sorted);
  }
}
