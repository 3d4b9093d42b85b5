/** The text form of a set of cores (app/core_pool.py:32-66). */
module Cpuset {
  import opened Collections
  import opened Placement

  // ----- Decimal numbers

  function Digit(d: nat): (c: char)
    requires d < 10
    ensures '0' <= c <= '9'
  {
    '0' + d as char
  }

  function Decimal(n: nat): string {
    if n < 10 then [Digit(n)] else Decimal(n / 10) + [Digit(n % 10)]
  }

  predicate AllDigits(s: string) {
    forall i :: 0 <= i < |s| ==> '0' <= s[i] <= '9'
  }

  function Number(s: string): nat
    requires AllDigits(s)
  {
    if s == [] then 0 else 10 * Number(s[..|s| - 1]) + (s[|s| - 1] - '0') as nat
  }

  lemma {:induction false} DecimalFacts(n: nat)
    ensures Decimal(n) != [] && AllDigits(Decimal(n)) && Number(Decimal(n)) == n
  {
    if n < 10 {
      assert Number([Digit(n)]) == 10 * Number([]) + n;
    } else {
      DecimalFacts(n / 10);
      var front := Decimal(n / 10);
      assert (front + [Digit(n % 10)])[..|front|] == front;
    }
  }

  predicate IsSpace(c: char) {
    c == ' ' || c == '\t' || c == '\n' || c == '\r'
  }

  /** Without the spaces around. */
  function Strip(s: string): string {
    if s != [] && IsSpace(s[0]) then Strip(s[1..])
    else if s != [] && IsSpace(s[|s| - 1]) then Strip(s[..|s| - 1])
    else s
  }

  function ReadNumber(s: string): Option<nat> {
    var t := Strip(s);
    if t != [] && AllDigits(t) then Some(Number(t)) else None
  }

  lemma {:induction false} ReadsDecimal(n: nat)
    ensures ReadNumber(Decimal(n)) == Some(n)
  {
    DecimalFacts(n);
  }

  // ----- Splitting

  /** The text before and after the first mark. */
  function Cut(s: string, mark: char): Option<(string, string)> {
    if s == [] then None
    else if s[0] == mark then Some(([], s[1..]))
    else
      match Cut(s[1..], mark)
      case None => None
      case Some(p) => Some(([s[0]] + p.0, p.1))
  }

  lemma {:induction false} CutFacts(a: string, mark: char, b: string)
    requires mark !in a
    ensures Cut(a, mark) == None && Cut(a + [mark] + b, mark) == Some((a, b))
  {
    if a == [] {
      assert [mark] + b == a + [mark] + b;
      assert ([mark] + b)[1..] == b;
    } else {
      CutFacts(a[1..], mark, b);
      assert (a + [mark] + b)[1..] == a[1..] + [mark] + b;
      assert [a[0]] + a[1..] == a;
    }
  }

  lemma {:induction false} CutShorter(s: string, mark: char)
    ensures Cut(s, mark).Some? ==> |Cut(s, mark).value.1| < |s|
  {
    if s != [] && s[0] != mark {
      CutShorter(s[1..], mark);
    }
  }

  function Parts(s: string): seq<string>
    decreases |s|
  {
    CutShorter(s, ',');
    match Cut(s, ',')
    case None => [s]
    case Some(p) => [p.0] + Parts(p.1)
  }

  function Join(parts: seq<string>): string {
    if parts == [] then [] else if |parts| == 1 then parts[0] else parts[0] + [','] + Join(parts[1..])
  }

  lemma {:induction false} PartsOfJoin(parts: seq<string>)
    requires parts != [] && forall t :: t in parts ==> ',' !in t
    ensures Parts(Join(parts)) == parts
  {
    assert parts[0] in parts;
    if |parts| == 1 {
      CutFacts(parts[0], ',', []);
    } else {
      CutFacts(parts[0], ',', Join(parts[1..]));
      PartsOfJoin(parts[1..]);
    }
  }

  // ----- Reading

  function Span(lo: nat, hi: nat): (r: set<nat>)
    ensures forall c: nat :: c in r <==> lo <= c <= hi
    decreases hi
  {
    if hi < lo then {} else if hi == 0 then {0} else Span(lo, hi - 1) + {hi}
  }

  /** One part: a number or a range; anything else is ignored. */
  function PartCores(part: string): set<nat> {
    var t := Strip(part);
    if t == [] then {} else
    match Cut(t, '-')
    case None => if ReadNumber(t).Some? then {ReadNumber(t).value} else {}
    case Some(p) =>
      if ReadNumber(p.0).Some? && ReadNumber(p.1).Some? then Span(ReadNumber(p.0).value, ReadNumber(p.1).value) else {}
  }

  function PartsCores(parts: seq<string>): set<nat> {
    if parts == [] then {} else PartCores(parts[0]) + PartsCores(parts[1..])
  }

  function ParseCpuset(s: string): set<nat> {
    PartsCores(Parts(s))
  }

  method Parse(s: string) returns (cores: set<nat>)
    ensures cores == ParseCpuset(s)
  {
    hide PartCores, Parts;
    cores := {};
    var parts := Parts(s);
    var i := 0;
    while i < |parts|
      invariant 0 <= i <= |parts| && cores + PartsCores(parts[i..]) == PartsCores(parts)
    {
      assert parts[i..][1..] == parts[i + 1..];
      cores := cores + PartCores(parts[i]);
      i := i + 1;
    }
  }

  // ----- Runs

  datatype Run = Run(lo: nat, hi: nat)

  /** Increasing runs that neither meet nor touch. */
  predicate Maximal(runs: seq<Run>) {
    && (forall i :: 0 <= i < |runs| ==> runs[i].lo <= runs[i].hi)
    && (forall i :: 0 <= i < |runs| - 1 ==> runs[i].hi + 1 < runs[i + 1].lo)
  }

  function Cover(runs: seq<Run>): set<nat> {
    if runs == [] then {} else Span(runs[0].lo, runs[0].hi) + Cover(runs[1..])
  }

  function Show(r: Run): string {
    if r.lo == r.hi then Decimal(r.lo) else Decimal(r.lo) + ['-'] + Decimal(r.hi)
  }

  function ShowAll(runs: seq<Run>): seq<string> {
    if runs == [] then [] else [Show(runs[0])] + ShowAll(runs[1..])
  }

  function Text(runs: seq<Run>): string {
    Join(ShowAll(runs))
  }

  lemma {:induction false} NoMark(s: string, mark: char)
    requires AllDigits(s) && !('0' <= mark <= '9')
    ensures mark !in s
  {
  }

  lemma {:induction false} StripStays(s: string)
    requires s != [] && !IsSpace(s[0]) && !IsSpace(s[|s| - 1])
    ensures Strip(s) == s
  {
  }

  /** A run reads back as its cores, and its text has no comma. */
  lemma {:induction false} ReadsRun(r: Run)
    requires r.lo <= r.hi
    ensures PartCores(Show(r)) == Span(r.lo, r.hi) && ',' !in Show(r)
  {
    hide Number, Decimal, AllDigits;
    var a, b := Decimal(r.lo), Decimal(r.hi);
    DecimalFacts(r.lo);
    DecimalFacts(r.hi);
    ReadsDecimal(r.lo);
    ReadsDecimal(r.hi);
    EndsNotSpace(a);
    EndsNotSpace(b);
    NoMark(a, '-');
    NoMark(a, ',');
    NoMark(b, ',');
    StripStays(Show(r));
    if r.lo == r.hi {
      CutFacts(a, '-', []);
      assert Span(r.lo, r.hi) == {r.lo};
    } else {
      CutFacts(a, '-', b);
    }
  }

  lemma {:induction false} EndsNotSpace(s: string)
    requires s != [] && AllDigits(s)
    ensures !IsSpace(s[0]) && !IsSpace(s[|s| - 1])
  {
  }

  /** Reading a written list of runs gives back its cores. */
  lemma {:induction false} RoundTrip(runs: seq<Run>)
    requires forall i :: 0 <= i < |runs| ==> runs[i].lo <= runs[i].hi
    ensures ParseCpuset(Text(runs)) == Cover(runs)
  {
    if runs == [] {
      assert Parts([]) == [[]];
      assert PartsCores([[]]) == PartCores([]) + PartsCores([[]][1..]);
    } else {
      ShownParts(runs);
      PartsOfJoin(ShowAll(runs));
      hide PartCores, Show;
    }
  }

  lemma {:induction false} ShownParts(runs: seq<Run>)
    requires forall i :: 0 <= i < |runs| ==> runs[i].lo <= runs[i].hi
    ensures PartsCores(ShowAll(runs)) == Cover(runs) && |ShowAll(runs)| == |runs|
    ensures forall t :: t in ShowAll(runs) ==> ',' !in t
  {
    hide PartCores, Show;
    if runs != [] {
      ReadsRun(runs[0]);
      ShownParts(runs[1..]);
    }
  }

  lemma {:induction false} CoverAbove(runs: seq<Run>)
    requires runs != [] && Maximal(runs)
    ensures runs[0].lo in Cover(runs)
    ensures forall c :: c in Cover(runs) ==> runs[0].lo <= c
    ensures forall c :: c in Cover(runs[1..]) ==> runs[0].hi + 1 < c
    ensures Maximal(runs[1..])
  {
    assert Maximal(runs[1..]) by {
      assert forall i :: 0 <= i < |runs[1..]| ==> runs[1..][i] == runs[i + 1];
    }
    if |runs| > 1 {
      CoverAbove(runs[1..]);
    }
  }

  /** A set has one list of maximal runs only. */
  lemma {:induction false} RunsUnique(a: seq<Run>, b: seq<Run>)
    requires Maximal(a) && Maximal(b) && Cover(a) == Cover(b)
    ensures a == b
  {
    if a != [] && b != [] {
      CoverAbove(a);
      CoverAbove(b);
      SameFirst(a, b);
      SameFirst(b, a);
      assert Cover(a[1..]) == Cover(b[1..]) by {
        forall c
          ensures c in Cover(a[1..]) <==> c in Cover(b[1..])
        {
          assert c in Cover(a) <==> c in Cover(b);
        }
      }
      RunsUnique(a[1..], b[1..]);
      assert a == [a[0]] + a[1..] && b == [b[0]] + b[1..];
    } else if a != [] {
      CoverAbove(a);
    } else if b != [] {
      CoverAbove(b);
    }
  }

  lemma {:induction false} SameFirst(a: seq<Run>, b: seq<Run>)
    requires a != [] && b != [] && Maximal(a) && Maximal(b) && Cover(a) == Cover(b)
    ensures a[0].lo == b[0].lo && a[0].hi <= b[0].hi
  {
    CoverAbove(a);
    CoverAbove(b);
    assert a[0].lo in Cover(b) && b[0].lo in Cover(a);
    FirstRunEnds(a, b[0].hi + 1);
    FirstRunEnds(b, b[0].hi + 1);
  }

  /** The first run covers up to its end, and not the next number. */
  lemma {:induction false} FirstRunEnds(runs: seq<Run>, c: nat)
    requires runs != [] && Maximal(runs)
    ensures runs[0].lo <= c <= runs[0].hi ==> c in Cover(runs)
    ensures c == runs[0].hi + 1 ==> c !in Cover(runs)
  {
    CoverAbove(runs);
  }

  // ----- Writing

  lemma {:induction false} MoreRuns(runs: seq<Run>, r: Run)
    ensures ShowAll(runs + [r]) == ShowAll(runs) + [Show(r)]
    ensures Cover(runs + [r]) == Cover(runs) + Span(r.lo, r.hi)
  {
    hide Show;
    if runs == [] {
      assert [] + [r] == [r];
      assert Cover([r]) == Span(r.lo, r.hi) + Cover([r][1..]);
    } else {
      MoreRuns(runs[1..], r);
      assert (runs + [r])[1..] == runs[1..] + [r];
    }
  }

  lemma {:induction false} Extended(runs: seq<Run>, lo: nat, hi: nat)
    requires Maximal(runs + [Run(lo, hi)])
    ensures Maximal(runs + [Run(lo, hi + 1)])
    ensures Cover(runs + [Run(lo, hi + 1)]) == Cover(runs + [Run(lo, hi)]) + {hi + 1}
  {
    var a, b := runs + [Run(lo, hi)], runs + [Run(lo, hi + 1)];
    assert a[|runs|] == Run(lo, hi);
    assert forall i :: 0 <= i < |runs| ==> a[i] == b[i] == runs[i];
    MoreRuns(runs, Run(lo, hi));
    MoreRuns(runs, Run(lo, hi + 1));
  }

  lemma {:induction false} Restarted(runs: seq<Run>, r: Run, c: nat)
    requires Maximal(runs + [r]) && r.hi + 1 < c
    ensures Maximal(runs + [r] + [Run(c, c)]) && Cover(runs + [r] + [Run(c, c)]) == Cover(runs + [r]) + {c}
  {
    MoreRuns(runs + [r], Run(c, c));
  }

  /** The text of a set of cores is that of its maximal runs, and reads back as the set. */
  method Format(cores: set<nat>) returns (s: string)
    ensures exists runs :: Maximal(runs) && Cover(runs) == cores && s == Text(runs)
    ensures ParseCpuset(s) == cores
  {
    hide Cover, Show, ShowAll, Join, Elems, Maximal, Ascending, Text, ParseCpuset;
    var sorted := Sort(cores);
    ghost var runs: seq<Run> := [];
    NoRuns();
    if sorted == [] {
      s := [];
    } else {
      var parts: seq<string> := [];
      var start, prev := sorted[0], sorted[0];
      var i := 1;
      OneRun(start);
      FirstElem(sorted);
      while i < |sorted|
        invariant 1 <= i <= |sorted| && prev == sorted[i - 1]
        invariant parts == ShowAll(runs) && Maximal(runs + [Run(start, prev)])
        invariant Cover(runs + [Run(start, prev)]) == Elems(sorted[..i])
      {
        var c := sorted[i];
        NextAbove(sorted, i);
        if c == prev + 1 {
          Extended(runs, start, prev);
        } else {
          Restarted(runs, Run(start, prev), c);
          MoreRuns(runs, Run(start, prev));
          parts := parts + [Show(Run(start, prev))];
          runs := runs + [Run(start, prev)];
          start := c;
        }
        prev := c;
        i := i + 1;
      }
      assert sorted[..i] == sorted;
      MoreRuns(runs, Run(start, prev));
      parts := parts + [Show(Run(start, prev))];
      runs := runs + [Run(start, prev)];
      s := Join(parts);
    }
    TextIs(runs);
    MaximalRunsRead(runs);
  }

  lemma {:induction false} NextAbove(sorted: seq<nat>, i: nat)
    requires Ascending(sorted) && 0 < i < |sorted|
    ensures sorted[i - 1] < sorted[i]
    ensures Elems(sorted[..i + 1]) == Elems(sorted[..i]) + {sorted[i]}
  {
  }

  lemma {:induction false} NoRuns()
    ensures Maximal([]) && Cover([]) == {} && Text([]) == [] && Elems([]) == {} && ShowAll([]) == []
  {
  }

  lemma {:induction false} FirstElem(sorted: seq<nat>)
    requires sorted != []
    ensures Elems(sorted[..1]) == {sorted[0]}
  {
  }

  lemma {:induction false} OneRun(c: nat)
    ensures Maximal([] + [Run(c, c)]) && Cover([] + [Run(c, c)]) == {c}
  {
  }

  lemma {:induction false} TextIs(runs: seq<Run>)
    ensures Text(runs) == Join(ShowAll(runs))
  {
  }

  lemma {:induction false} MaximalRunsRead(runs: seq<Run>)
    requires Maximal(runs)
    ensures ParseCpuset(Text(runs)) == Cover(runs)
  {
    RoundTrip(runs);
  }
}
