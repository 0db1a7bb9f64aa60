/** The evictor under a capacity limit: what it deletes changes which entries make room, and still no lookup
    can tell whether it ran. */
module Eviction {
  import opened Wrappers
  import opened Message
  import opened CacheTrace
  import opened Cache

  /* ----- What lookups depend on ----- */

  function Live(s: Store, k: Key, now: Time): Option<Entry> {
    if k in s.entries && now <= s.entries[k].expires then Some(s.entries[k]) else None
  }

  ghost predicate SameLive(a: Store, b: Store, now: Time) {
    && (forall k :: Live(a, k, now) == Live(b, k, now))
    && (forall k :: IsNegative(a, k, now) == IsNegative(b, k, now))
  }

  lemma SameLookups(a: Store, b: Store, k: Key, now: Time)
    requires SameLive(a, b, now)
    ensures Get(a, k, now) == Get(b, k, now) && IsNegative(a, k, now) == IsNegative(b, k, now)
  {
    assert Live(a, k, now) == Live(b, k, now);
    hide AgedMessage, Elapsed;
  }

  /* ----- Traces that differ in deletions and victims only ----- */

  function Erased(e: Event): Event {
    if e.Set? then e.(victim := None) else e
  }

  /** What was done to the cache, the evictor's decisions and the victims of full shards left out. */
  function Operations(trace: seq<Event>): seq<Event> {
    if trace == [] then []
    else
      var front, last := Operations(trace[..|trace| - 1]), trace[|trace| - 1];
      if IsDrop(last) then front else front + [Erased(last)]
  }

  /** No victim had its expiry in common with another entry of its shard. */
  ghost predicate VictimUnique(s: Store, e: Event) {
    e.Set? && e.victim.Some? && e.victim.value in s.entries ==>
      forall k :: k in ShardKeys(s, ShardIdx(e.key)) && k != e.victim.value ==>
        s.entries[e.victim.value].expires < s.entries[k].expires
  }

  ghost predicate VictimsUnique(minTTL: u32, trace: seq<Event>) {
    forall i :: 0 <= i < |trace| ==> VictimUnique(Run(minTTL, trace[..i]), trace[i])
  }

  /** The same for a trace without its last event. */
  lemma Front(minTTL: u32, cap: nat, trace: seq<Event>, now: Time)
    requires trace != [] && NotAfter(trace, now) && Capped(minTTL, cap, trace)
    ensures var front, last := trace[..|trace| - 1], trace[|trace| - 1];
            && NotAfter(front, now) && Capped(minTTL, cap, front) && NotAfter([last], now)
            && (last.Set? ==>
                  VictimOk(Run(minTTL, front), last.key, last.msg, minTTL, cap, last.victim))
            && (VictimsUnique(minTTL, trace) ==>
                  VictimsUnique(minTTL, front) && VictimUnique(Run(minTTL, front), last))
  {
    hide VictimOk, VictimUnique, Run;
    var front := trace[..|trace| - 1];
    assert forall i :: 0 <= i <= |front| ==> front[..i] == trace[..i];
  }

  lemma DropKeepsLive(minTTL: u32, s: Store, e: Event, now: Time)
    requires IsDrop(e) && NotAfter([e], now)
    ensures SameLive(Apply(minTTL, s, e), s, now)
  {
    assert [e][0] == e;
  }

  lemma SameLiveJoin(a: Store, b: Store, c: Store, now: Time)
    requires SameLive(a, b, now) && SameLive(b, c, now)
    ensures SameLive(a, c, now)
  {
    hide Live, IsNegative;
  }

  /** An operation that names no victim. */
  lemma OperationKeepsLive(minTTL: u32, a: Store, b: Store, e: Event, now: Time)
    requires (e.SetNegative? || e.Flush?) && NotAfter([e], now) && SameLive(a, b, now)
    ensures SameLive(Apply(minTTL, a, e), Apply(minTTL, b, e), now)
  {
    hide ShardIdx, NegativeExpiry;
    assert [e][0] == e;
    var a', b' := Apply(minTTL, a, e), Apply(minTTL, b, e);
    forall k ensures Live(a', k, now) == Live(b', k, now) && IsNegative(a', k, now) == IsNegative(b', k, now) {
      assert Live(a, k, now) == Live(b, k, now);
      assert IsNegative(a, k, now) == IsNegative(b, k, now);
    }
  }

  /* ----- Sets into full shards ----- */

  lemma {:induction false} WholeSubset(a: set<Key>, b: set<Key>)
    requires a <= b && |b| <= |a|
    ensures a == b
  {
    if x :| x in b && x !in a {
      SubsetSize(a, b - {x});
    }
  }

  /** If the victim in one store is alive, its shard is the same in both. */
  lemma SameShard(a: Store, b: Store, key: Key, victim: Key, cap: nat, now: Time)
    requires SameLive(a, b, now)
    requires victim in a.entries && now <= a.entries[victim].expires
    requires forall k :: k in ShardKeys(a, ShardIdx(key)) ==> a.entries[victim].expires <= a.entries[k].expires
    requires |ShardKeys(a, ShardIdx(key))| >= cap && |ShardKeys(b, ShardIdx(key))| <= cap
    ensures ShardKeys(a, ShardIdx(key)) == ShardKeys(b, ShardIdx(key))
    ensures forall k :: k in ShardKeys(a, ShardIdx(key)) ==> b.entries[k] == a.entries[k]
  {
    hide ShardIdx;
    var i := ShardIdx(key);
    forall k | k in ShardKeys(a, i) ensures k in ShardKeys(b, i) && b.entries[k] == a.entries[k] {
      assert Live(a, k, now) == Live(b, k, now);
    }
    WholeSubset(ShardKeys(a, i), ShardKeys(b, i));
  }

  /** A victim that is alive in one store is the victim in the other. */
  lemma SameVictim(a: Store, b: Store, write: Event, victim: Option<Key>, minTTL: u32, cap: nat, now: Time)
    requires write.Set? && SameLive(a, b, now)
    requires VictimOk(a, write.key, write.msg, minTTL, cap, write.victim) && VictimUnique(a, write)
    requires VictimOk(b, write.key, write.msg, minTTL, cap, victim)
    requires cap > 0 ==> |ShardKeys(a, ShardIdx(write.key))| <= cap && |ShardKeys(b, ShardIdx(write.key))| <= cap
    ensures write.victim.Some? && Live(a, write.victim.value, now).Some? ==> victim == write.victim
    ensures victim.Some? && Live(b, victim.value, now).Some? ==> victim == write.victim
  {
    hide ShardIdx, EffectiveTTL;
    if write.victim.Some? && Live(a, write.victim.value, now).Some? {
      SameShard(a, b, write.key, write.victim.value, cap, now);
      assert write.key !in ShardKeys(b, ShardIdx(write.key));
    }
    if victim.Some? && Live(b, victim.value, now).Some? {
      SameShard(b, a, write.key, victim.value, cap, now);
      assert write.key !in ShardKeys(a, ShardIdx(write.key));
    }
  }

  /** Making room by these victims changes what is alive in the same way. */
  lemma SetKeepsLive(minTTL: u32, a: Store, b: Store, x: Event, y: Event, now: Time)
    requires x.Set? && y.Set? && Erased(x) == Erased(y) && SameLive(a, b, now)
    requires x.victim.Some? && Live(a, x.victim.value, now).Some? ==> y.victim == x.victim
    requires y.victim.Some? && Live(b, y.victim.value, now).Some? ==> y.victim == x.victim
    ensures SameLive(Apply(minTTL, a, x), Apply(minTTL, b, y), now)
  {
    hide EffectiveTTL, NewEntry;
    var a', b' := Apply(minTTL, a, x), Apply(minTTL, b, y);
    forall k ensures Live(a', k, now) == Live(b', k, now) && IsNegative(a', k, now) == IsNegative(b', k, now) {
      assert Live(a, k, now) == Live(b, k, now);
      assert IsNegative(a, k, now) == IsNegative(b, k, now);
    }
  }

  lemma ShardCapped(minTTL: u32, cap: nat, trace: seq<Event>, i: nat)
    requires Capped(minTTL, cap, trace)
    ensures cap > 0 ==> |ShardKeys(Run(minTTL, trace), i)| <= cap
  {
    hide Capped, ShardKeys, Run;
    if cap > 0 { ShardsStayCapped(minTTL, cap, trace, i); }
  }

  /* ----- The evictor cannot be observed ----- */

  lemma {:induction false} CappedRunsAgree(minTTL: u32, cap: nat, a: seq<Event>, b: seq<Event>, now: Time)
    requires Operations(a) == Operations(b) && NotAfter(a, now) && NotAfter(b, now)
    requires Capped(minTTL, cap, a) && Capped(minTTL, cap, b) && VictimsUnique(minTTL, a)
    ensures SameLive(Run(minTTL, a), Run(minTTL, b), now)
    decreases |a| + |b|
  {
    hide NotAfter, Capped, VictimsUnique, VictimOk, VictimUnique, Apply, SameLive, ShardKeys, ShardIdx, Live;
    if a == [] && b == [] {
      NothingLive(now);
    } else if a != [] && IsDrop(a[|a| - 1]) {
      Front(minTTL, cap, a, now);
      CappedRunsAgree(minTTL, cap, a[..|a| - 1], b, now);
      DropKeepsLive(minTTL, Run(minTTL, a[..|a| - 1]), a[|a| - 1], now);
      SameLiveJoin(Run(minTTL, a), Run(minTTL, a[..|a| - 1]), Run(minTTL, b), now);
    } else if b != [] && IsDrop(b[|b| - 1]) {
      Front(minTTL, cap, b, now);
      CappedRunsAgree(minTTL, cap, a, b[..|b| - 1], now);
      DropKeepsLive(minTTL, Run(minTTL, b[..|b| - 1]), b[|b| - 1], now);
      SameLiveTurned(Run(minTTL, b), Run(minTTL, b[..|b| - 1]), now);
      SameLiveJoin(Run(minTTL, a), Run(minTTL, b[..|b| - 1]), Run(minTTL, b), now);
    } else {
      Front(minTTL, cap, a, now);
      Front(minTTL, cap, b, now);
      var a', b', x, y := a[..|a| - 1], b[..|b| - 1], a[|a| - 1], b[|b| - 1];
      LastOperation(Operations(a'), x, Operations(b'), y);
      CappedRunsAgree(minTTL, cap, a', b', now);
      EventKeepsLive(minTTL, cap, a', x, b', y, now);
    }
  }

  lemma NothingLive(now: Time)
    ensures SameLive(EMPTY, EMPTY, now)
  {
  }

  lemma SameLiveTurned(a: Store, b: Store, now: Time)
    requires SameLive(a, b, now)
    ensures SameLive(b, a, now)
  {
    hide Live, IsNegative;
  }

  lemma LastOperation(a: seq<Event>, x: Event, b: seq<Event>, y: Event)
    requires a + [Erased(x)] == b + [Erased(y)]
    ensures a == b && Erased(x) == Erased(y)
  {
    assert (a + [Erased(x)])[..|a|] == a && (b + [Erased(y)])[..|b|] == b;
    assert (a + [Erased(x)])[|a|] == Erased(x) && (b + [Erased(y)])[|b|] == Erased(y);
  }

  /** One operation after runs that agree. */
  lemma EventKeepsLive(minTTL: u32, cap: nat, a: seq<Event>, x: Event, b: seq<Event>, y: Event, now: Time)
    requires !IsDrop(x) && !IsDrop(y) && Erased(x) == Erased(y)
    requires NotAfter([x], now) && SameLive(Run(minTTL, a), Run(minTTL, b), now)
    requires Capped(minTTL, cap, a) && Capped(minTTL, cap, b) && VictimUnique(Run(minTTL, a), x)
    requires x.Set? ==> VictimOk(Run(minTTL, a), x.key, x.msg, minTTL, cap, x.victim)
    requires y.Set? ==> VictimOk(Run(minTTL, b), y.key, y.msg, minTTL, cap, y.victim)
    ensures SameLive(Apply(minTTL, Run(minTTL, a), x), Apply(minTTL, Run(minTTL, b), y), now)
  {
    hide NotAfter, Capped, VictimOk, VictimUnique, Apply, SameLive, ShardKeys, ShardIdx, Live, Run;
    if x.Set? {
      ShardCapped(minTTL, cap, a, ShardIdx(x.key));
      ShardCapped(minTTL, cap, b, ShardIdx(x.key));
      SameVictim(Run(minTTL, a), Run(minTTL, b), x, y.victim, minTTL, cap, now);
      SetKeepsLive(minTTL, Run(minTTL, a), Run(minTTL, b), x, y, now);
    } else {
      OperationKeepsLive(minTTL, Run(minTTL, a), Run(minTTL, b), x, now);
    }
  }

  /** With or without a limit: two runs of the cache with the same operations, with the evictor's deletions
      interleaved in any way and each run's own victims, answer every lookup alike, if no victim shares
      its expiry with another entry of its shard. */
  lemma {:induction false} EvictorUnobservableCapped(minTTL: u32, cap: nat, a: seq<Event>, b: seq<Event>, k: Key,
                                                      now: Time)
    requires Operations(a) == Operations(b) && NotAfter(a, now) && NotAfter(b, now)
    requires Capped(minTTL, cap, a) && Capped(minTTL, cap, b) && VictimsUnique(minTTL, a)
    ensures Get(Run(minTTL, a), k, now) == Get(Run(minTTL, b), k, now)
    ensures IsNegative(Run(minTTL, a), k, now) == IsNegative(Run(minTTL, b), k, now)
  {
    CappedRunsAgree(minTTL, cap, a, b, now);
    hide Run, Operations, NotAfter, Capped, VictimsUnique, SameLive, Get, IsNegative;
    SameLookups(Run(minTTL, a), Run(minTTL, b), k, now);
  }
}
