/** Alert episodes with hysteresis, and a store that survives restarts (app/cpu_pressure.py:161-220,
    app/episodes.py). */
module Episodes {
  import opened Collections

  datatype Key = Host(id: nat) | Container(id: nat)

  datatype Level = Warning | Error

  datatype Alert = Raise(level: Level) | Return

  /** What was measured, and the settings at that moment. */
  datatype Sample = Sample(key: Key, value: Option<real>, warn: real, err: real, n: int)

  function Rank(level: Option<Level>): nat {
    match level
    case None => 0
    case Some(Warning) => 1
    case Some(Error) => 2
  }

  function LevelOf(s: Sample): Option<Level> {
    if s.value.None? then None
    else if s.value.value >= s.err then Some(Error)
    else if s.value.value >= s.warn then Some(Warning)
    else None
  }

  /** Below the floor of the hysteresis, and not above a threshold. */
  predicate UnderFloor(s: Sample) {
    LevelOf(s).None? && s.value.Some? && s.value.value < s.warn * 0.6
  }

  function Needed(s: Sample): int {
    if s.n > 2 then s.n else 2
  }

  /** Counters and levels in memory, and the levels in the durable store. */
  datatype State = State(count: map<Key, nat>, level: map<Key, Option<Level>>, stored: map<Key, Level>)

  function Stored(t: State, key: Key): Option<Level> {
    if key in t.stored then Some(t.stored[key]) else None
  }

  /** The level last announced for a key, as the process knows it. */
  function Announced(t: State, key: Key): Option<Level> {
    if key in t.level then t.level[key] else Stored(t, key)
  }

  function CountAfter(t: State, s: Sample): nat {
    if LevelOf(s).Some? then Count(t.count, s.key) + 1 else if UnderFloor(s) then 0 else Count(t.count, s.key)
  }

  function AlertOf(t: State, s: Sample): Option<Alert> {
    var prev := Announced(t, s.key);
    if LevelOf(s).Some? && CountAfter(t, s) >= Needed(s) && Rank(LevelOf(s)) > Rank(prev)
    then Some(Raise(LevelOf(s).value))
    else if prev.Some? && CountAfter(t, s) == 0 then Some(Return)
    else None
  }

  /** The level of a key once an alert is given. */
  function Next(level: Option<Level>, alert: Option<Alert>): Option<Level> {
    match alert
    case None => level
    case Some(Raise(l)) => Some(l)
    case Some(Return) => None
  }

  function Observed(t: State, s: Sample): State {
    var count := if LevelOf(s).Some? || UnderFloor(s) then t.count[s.key := CountAfter(t, s)] else t.count;
    var alert := AlertOf(t, s);
    var now := Next(Announced(t, s.key), alert);
    State(count, t.level[s.key := now],
          match alert
          case None => t.stored
          case Some(Raise(l)) => t.stored[s.key := l]
          case Some(Return) => t.stored - {s.key})
  }

  class Monitor {
    var count: map<Key, nat>
    var level: map<Key, Option<Level>>
    var stored: map<Key, Level>

    /** A process starts with what the store remembers. */
    constructor (remembered: map<Key, Level>)
      ensures Value() == State(map[], map[], remembered)
    {
      count, level, stored := map[], map[], remembered;
    }

    ghost function Value(): State
      reads this
    {
      State(count, level, stored)
    }

    /** One sample: the counter, the transition and the store. */
    method Observe(s: Sample) returns (alert: Option<Alert>)
      modifies this
      ensures alert == AlertOf(old(Value()), s) && Value() == Observed(old(Value()), s)
    {
      var n := Needed(s);
      var l := LevelOf(s);
      if l.Some? {
        count := count[s.key := Count(count, s.key) + 1];
      } else if UnderFloor(s) {
        count := count[s.key := 0];
      }
      if s.key !in level {
        level := level[s.key := if s.key in stored then Some(stored[s.key]) else None];
      }
      var prev := level[s.key];
      if l.Some? && Count(count, s.key) >= n && Rank(l) > Rank(prev) {
        level := level[s.key := l];
        stored := stored[s.key := l.value];
        return Some(Raise(l.value));
      } else if prev.Some? && Count(count, s.key) == 0 {
        level := level[s.key := None];
        stored := stored - {s.key};
        return Some(Return);
      }
      return None;
    }
  }

  // ----- Runs

  /** A sample, or a restart of the process. */
  datatype Event = See(s: Sample) | Restart

  function Step(t: State, e: Event): State {
    match e
    case See(s) => Observed(t, s)
    case Restart => State(map[], map[], t.stored)
  }

  function After(t: State, es: seq<Event>, n: nat): State
    requires n <= |es|
  {
    if n == 0 then t else Step(After(t, es, n - 1), es[n - 1])
  }

  function AlertIn(t: State, e: Event, key: Key): Option<Alert> {
    if e.See? && e.s.key == key then AlertOf(t, e.s) else None
  }

  /** The alerts of a key, in order. */
  function Alerts(t: State, es: seq<Event>, key: Key, n: nat): seq<Alert>
    requires n <= |es|
  {
    if n == 0 then [] else
    Alerts(t, es, key, n - 1)
    + (match AlertIn(After(t, es, n - 1), es[n - 1], key) case None => [] case Some(a) => [a])
  }

  predicate Allowed(level: Option<Level>, a: Alert) {
    match a
    case Raise(l) => Rank(Some(l)) > Rank(level)
    case Return => level.Some?
  }

  predicate Legal(level: Option<Level>, alerts: seq<Alert>)
    decreases alerts
  {
    alerts == [] || (Allowed(level, alerts[0]) && Legal(Next(level, Some(alerts[0])), alerts[1..]))
  }

  function End(level: Option<Level>, alerts: seq<Alert>): Option<Level>
    decreases alerts
  {
    if alerts == [] then level else End(Next(level, Some(alerts[0])), alerts[1..])
  }

  lemma {:induction false} OneMoreAlert(level: Option<Level>, alerts: seq<Alert>, a: Alert)
    requires Legal(level, alerts) && Allowed(End(level, alerts), a)
    ensures Legal(level, alerts + [a]) && End(level, alerts + [a]) == Next(End(level, alerts), Some(a))
    decreases alerts
  {
    if alerts == [] {
      assert ([] + [a])[1..] == [];
    } else {
      OneMoreAlert(Next(level, Some(alerts[0])), alerts[1..], a);
      assert (alerts + [a])[1..] == alerts[1..] + [a];
    }
  }

  /** Memory never contradicts the store. */
  ghost predicate Faithful(t: State) {
    forall k :: k in t.level ==> t.level[k] == Stored(t, k)
  }

  lemma {:induction false} StepKeeps(t: State, e: Event, key: Key)
    requires Faithful(t)
    ensures Faithful(Step(t, e))
    ensures Stored(Step(t, e), key) == Next(Stored(t, key), AlertIn(t, e, key))
    ensures AlertIn(t, e, key).Some? ==> Allowed(Stored(t, key), AlertIn(t, e, key).value)
  {
  }

  /** Over any run, restarts included, with a store that survives: the alerts of a key follow each other as
      episodes do, from the level that the store remembers to the level that it remembers at the end. */
  lemma {:induction false} AlertsAreLegal(t: State, es: seq<Event>, key: Key, n: nat)
    requires n <= |es| && Faithful(t)
    ensures Faithful(After(t, es, n))
    ensures Legal(Stored(t, key), Alerts(t, es, key, n))
    ensures End(Stored(t, key), Alerts(t, es, key, n)) == Stored(After(t, es, n), key)
  {
    hide Faithful, Observed, AlertOf;
    if n > 0 {
      AlertsAreLegal(t, es, key, n - 1);
      var before := After(t, es, n - 1);
      StepKeeps(before, es[n - 1], key);
      assert Alerts(t, es, key, n - 1) + [] == Alerts(t, es, key, n - 1);
      if AlertIn(before, es[n - 1], key).Some? {
        OneMoreAlert(Stored(t, key), Alerts(t, es, key, n - 1), AlertIn(before, es[n - 1], key).value);
      }
    }
  }

  /** Episodes: a warning, an error, or a warning then an error; then one return; and so on. The last one may
      still be open. */
  predicate Episodic(a: seq<Alert>) {
    || a == []
    || (a[0] == Raise(Warning) && (|a| == 1 || (a[1] == Return && Episodic(a[2..]))
                                   || (a[1] == Raise(Error) && (|a| == 2 || (a[2] == Return && Episodic(a[3..]))))))
    || (a[0] == Raise(Error) && (|a| == 1 || (a[1] == Return && Episodic(a[2..]))))
  }

  lemma {:induction false} LegalTwo(level: Option<Level>, a: seq<Alert>)
    requires |a| >= 2
    ensures var next := Next(level, Some(a[0]));
            Legal(level, a) <==> Allowed(level, a[0]) && Allowed(next, a[1]) && Legal(Next(next, Some(a[1])), a[2..])
  {
  }

  /** Legal sequences are exactly sequences of episodes. */
  lemma {:induction false} LegalIsEpisodic(a: seq<Alert>)
    ensures Legal(None, a) <==> Episodic(a)
    decreases |a|
  {
    if |a| >= 2 {
      LegalTwo(None, a);
      LegalIsEpisodic(a[2..]);
      if |a| >= 3 {
        assert a[2..][1..] == a[3..];
        LegalIsEpisodic(a[3..]);
      }
    }
  }

  /** So a key that starts quiet gives a sequence of episodes, whatever the restarts. */
  lemma {:induction false} AlertsAreEpisodes(t: State, es: seq<Event>, key: Key, n: nat)
    requires n <= |es| && Faithful(t) && Stored(t, key) == None
    ensures Episodic(Alerts(t, es, key, n))
  {
    AlertsAreLegal(t, es, key, n);
    LegalIsEpisodic(Alerts(t, es, key, n));
  }

  // ----- From the samples alone

  /** Samples of a key above the threshold since the last one under the floor, and since the last restart. */
  function Above(es: seq<Event>, key: Key, n: nat): nat
    requires n <= |es|
  {
    if n == 0 then 0 else
    match es[n - 1]
    case Restart => 0
    case See(s) =>
      if s.key != key then Above(es, key, n - 1)
      else if LevelOf(s).Some? then Above(es, key, n - 1) + 1
      else if UnderFloor(s) then 0
      else Above(es, key, n - 1)
  }

  lemma {:induction false} CountIsAbove(remembered: map<Key, Level>, es: seq<Event>, key: Key, n: nat)
    requires n <= |es|
    ensures Count(After(State(map[], map[], remembered), es, n).count, key) == Above(es, key, n)
  {
    if n > 0 {
      CountIsAbove(remembered, es, key, n - 1);
      hide LevelOf, UnderFloor, AlertOf, Next;
    }
  }

  /** Over any run, with restarts, an alert is exact: the `n`-th sample raises its level exactly when it is above
      a threshold, more severe than what was announced, and enough samples have been above since the last one
      under the floor and the last restart; it closes the episode exactly when it is not above a threshold and
      either is under the floor, or none has been above since then. */
  lemma {:induction false} AlertExactlyWhen(remembered: map<Key, Level>, es: seq<Event>, n: nat)
    requires n < |es| && es[n].See?
    ensures var t := After(State(map[], map[], remembered), es, n);
            var s := es[n].s;
            var enough := Above(es, s.key, n + 1) >= Needed(s);
            && (AlertOf(t, s).Some? && AlertOf(t, s).value.Raise?
                <==> LevelOf(s).Some? && enough && Rank(LevelOf(s)) > Rank(Announced(t, s.key)))
            && (AlertOf(t, s) == Some(Return)
                <==> Announced(t, s.key).Some? && LevelOf(s).None? && (UnderFloor(s) || Above(es, s.key, n) == 0))
  {
    hide Observed, LevelOf, UnderFloor;
    var t, s := After(State(map[], map[], remembered), es, n), es[n].s;
    CountIsAbove(remembered, es, s.key, n);
    assert CountAfter(t, s) == Above(es, s.key, n + 1);
    FloorIsNotAbove(s);
  }

  lemma {:induction false} FloorIsNotAbove(s: Sample)
    ensures UnderFloor(s) ==> LevelOf(s).None?
  {
  }

  /** One sample under the floor closes an episode, whatever the number of samples asked for. */
  lemma {:induction false} FirstFloorCloses(t: State, s: Sample)
    requires Announced(t, s.key).Some? && UnderFloor(s)
    ensures AlertOf(t, s) == Some(Return) && Announced(Observed(t, s), s.key) == None
  {
  }

  /** After a restart it is not the floor that closes an open episode: the first sample closes it exactly when
      it is not above a threshold, even between the floor and the threshold, even when nothing was measured. */
  lemma {:induction false} RestartCloses(t: State, s: Sample)
    requires Stored(t, s.key).Some?
    ensures AlertOf(Step(t, Restart), s) == Some(Return) <==> LevelOf(s).None?
    ensures AlertOf(Step(t, Restart), s).Some? ==> AlertOf(Step(t, Restart), s) == Some(Return)
  {
  }
}
