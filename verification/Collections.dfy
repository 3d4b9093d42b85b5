/** Sequences, multisets and maps as the other modules use them. */
module Collections {

  datatype Option<+T> = None | Some(value: T)

  /** All groups of a list of groups, one after the other. */
  function Flatten<T>(groups: seq<seq<T>>): seq<T> {
    if groups == [] then [] else groups[0] + Flatten(groups[1..])
  }

  lemma {:induction false} FlattenConcat<T>(a: seq<seq<T>>, b: seq<seq<T>>)
    ensures Flatten(a + b) == Flatten(a) + Flatten(b)
  {
    if a == [] {
      assert a + b == b;
    } else {
      assert (a + b)[1..] == a[1..] + b;
      FlattenConcat(a[1..], b);
    }
  }

  lemma {:induction false} FlattenMember<T>(groups: seq<seq<T>>, i: int, x: T)
    requires 0 <= i < |groups| && x in groups[i]
    ensures x in Flatten(groups)
  {
    if i > 0 {
      assert groups[1..][i - 1] == groups[i];
      FlattenMember(groups[1..], i - 1, x);
    }
  }

  lemma {:induction false} FlattenOrigin<T>(groups: seq<seq<T>>, x: T) returns (i: int)
    requires x in Flatten(groups)
    ensures 0 <= i < |groups| && x in groups[i]
  {
    if x in groups[0] {
      i := 0;
    } else {
      i := FlattenOrigin(groups[1..], x);
      assert groups[1..][i] == groups[i + 1];
      i := i + 1;
    }
  }

  /** What a dictionary of lists, or of counters, holds for a key, absent or not. */
  function Listed<K, V>(lists: map<K, seq<V>>, k: K): seq<V> {
    if k in lists then lists[k] else []
  }

  function Count<K>(m: map<K, nat>, k: K): nat {
    if k in m then m[k] else 0
  }

  /** No member twice. */
  predicate Distinct<T(==)>(s: seq<T>) {
    forall i, j :: 0 <= i < j < |s| ==> s[i] != s[j]
  }

  lemma {:induction false} DistinctLast<T>(s: seq<T>)
    requires s != []
    ensures Distinct(s) <==> Distinct(s[..|s| - 1]) && s[|s| - 1] !in s[..|s| - 1]
  {
  }

  /** Two lists with the same multiset have the same members. */
  lemma {:induction false} SameMembers<T>(a: seq<T>, b: seq<T>)
    requires multiset(a) == multiset(b)
    ensures forall x :: x in a <==> x in b
    ensures |a| == |b|
  {
    assert |a| == |multiset(a)| == |multiset(b)| == |b|;
    forall x
      ensures x in a <==> x in b
    {
      assert x in a <==> x in multiset(a);
      assert x in b <==> x in multiset(b);
    }
  }

  lemma {:induction false} SplitFirst<T>(s: seq<T>)
    requires s != []
    ensures s == [s[0]] + s[1..]
    ensures multiset(s) == multiset{s[0]} + multiset(s[1..])
  {
  }

  lemma {:induction false} SubsetSize<T>(a: set<T>, b: set<T>)
    requires a <= b
    ensures |a| <= |b|
  {
    assert b == a + (b - a);
  }
}
