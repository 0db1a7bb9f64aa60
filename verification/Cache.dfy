/** The sharded cache: its 64 shards are a partition of one table, every operation acts on that
    table as one event of CacheTrace, and a capacity limit bounds every reachable state. */
module Cache {
  import opened Wrappers
  import opened Message
  import opened CacheTrace

  const EVICT_BATCH: nat := 64

  datatype Shard = Shard(entries: map<Key, Entry>, negative: map<Key, Time>)

  /** Every key lives in its own shard only. */
  ghost predicate Placed(sh: seq<Shard>) {
    && |sh| == NUM_SHARDS
    && (forall i, k :: 0 <= i < |sh| && k in sh[i].entries ==> ShardIdx(k) == i)
    && (forall i, k :: 0 <= i < |sh| && k in sh[i].negative ==> ShardIdx(k) == i)
  }

  /** The one table that the shards partition. */
  ghost function Union(sh: seq<Shard>): Store
    requires Placed(sh)
  {
    var pos := set i, k | 0 <= i < |sh| && k in sh[i].entries :: k;
    var neg := set i, k | 0 <= i < |sh| && k in sh[i].negative :: k;
    Store(map k | k in pos :: sh[ShardIdx(k)].entries[k], map k | k in neg :: sh[ShardIdx(k)].negative[k])
  }

  lemma UnionFind(sh: seq<Shard>, k: Key)
    requires Placed(sh)
    ensures Find(Union(sh).entries, k) == Find(sh[ShardIdx(k)].entries, k)
    ensures Find(Union(sh).negative, k) == Find(sh[ShardIdx(k)].negative, k)
  {
  }

  /** Two stores with the same lookups are the same store. */
  lemma StoreEquality(a: Store, b: Store)
    requires forall k :: Find(a.entries, k) == Find(b.entries, k)
    requires forall k :: Find(a.negative, k) == Find(b.negative, k)
    ensures a == b
  {
    assert forall k :: k in a.entries <==> Find(a.entries, k).Some?;
    assert forall k :: k in b.entries <==> Find(b.entries, k).Some?;
    assert forall k :: k in a.negative <==> Find(a.negative, k).Some?;
    assert forall k :: k in b.negative <==> Find(b.negative, k).Some?;
    assert forall k :: k in a.entries ==> Find(a.entries, k) == Some(a.entries[k]);
    assert forall k :: k in b.entries ==> Find(b.entries, k) == Some(b.entries[k]);
    assert forall k :: k in a.negative ==> Find(a.negative, k) == Some(a.negative[k]);
    assert forall k :: k in b.negative ==> Find(b.negative, k) == Some(b.negative[k]);
    assert a.entries == b.entries && a.negative == b.negative;
  }

  /** Changing the entries of one shard changes the table exactly at that shard's keys. */
  lemma EntriesView(sh: seq<Shard>, i: nat, m: map<Key, Entry>, want: map<Key, Entry>)
    requires Placed(sh) && i < NUM_SHARDS
    requires forall k :: k in m ==> ShardIdx(k) == i
    requires forall k :: Find(want, k) == if ShardIdx(k) == i then Find(m, k) else Find(Union(sh).entries, k)
    ensures Placed(sh[i := sh[i].(entries := m)])
    ensures Union(sh[i := sh[i].(entries := m)]) == Union(sh).(entries := want)
  {
    hide ShardIdx, Union;
    var sh' := sh[i := sh[i].(entries := m)];
    forall k
      ensures Find(Union(sh').entries, k) == Find(want, k)
      ensures Find(Union(sh').negative, k) == Find(Union(sh).negative, k)
    {
      UnionFind(sh', k);
      UnionFind(sh, k);
    }
    StoreEquality(Union(sh'), Union(sh).(entries := want));
  }

  lemma NegativeView(sh: seq<Shard>, i: nat, m: map<Key, Time>, want: map<Key, Time>)
    requires Placed(sh) && i < NUM_SHARDS
    requires forall k :: k in m ==> ShardIdx(k) == i
    requires forall k :: Find(want, k) == if ShardIdx(k) == i then Find(m, k) else Find(Union(sh).negative, k)
    ensures Placed(sh[i := sh[i].(negative := m)])
    ensures Union(sh[i := sh[i].(negative := m)]) == Union(sh).(negative := want)
  {
    hide ShardIdx, Union;
    var sh' := sh[i := sh[i].(negative := m)];
    forall k
      ensures Find(Union(sh').entries, k) == Find(Union(sh).entries, k)
      ensures Find(Union(sh').negative, k) == Find(want, k)
    {
      UnionFind(sh', k);
      UnionFind(sh, k);
    }
    StoreEquality(Union(sh'), Union(sh).(negative := want));
  }

  /** Writing one entry, after evicting at most one of the same shard. */
  lemma {:induction false} InsertView(sh: seq<Shard>, k: Key, e: Entry, victim: Option<Key>)
    requires Placed(sh)
    requires victim.Some? ==> victim.value in sh[ShardIdx(k)].entries
    ensures var i := ShardIdx(k);
            var sh' := sh[i := sh[i].(entries := Without(sh[i].entries, victim)[k := e])];
            && Placed(sh')
            && Union(sh') == Union(sh).(entries := Without(Union(sh).entries, victim)[k := e])
  {
    hide ShardIdx, Union;
    var i := ShardIdx(k);
    var m, all := sh[i].entries, Union(sh).entries;
    forall x
      ensures Find(Without(all, victim)[k := e], x)
              == if ShardIdx(x) == i then Find(Without(m, victim)[k := e], x) else Find(all, x)
    {
      UnionFind(sh, x);
    }
    EntriesView(sh, i, Without(m, victim)[k := e], Without(all, victim)[k := e]);
  }

  lemma DenyView(sh: seq<Shard>, k: Key, t: Time)
    requires Placed(sh)
    ensures var i := ShardIdx(k);
            var sh' := sh[i := sh[i].(negative := sh[i].negative[k := t])];
            Placed(sh') && Union(sh') == Union(sh).(negative := Union(sh).negative[k := t])
  {
    hide ShardIdx, Union;
    var i := ShardIdx(k);
    var m, all := sh[i].negative, Union(sh).negative;
    forall x
      ensures Find(all[k := t], x) == if ShardIdx(x) == i then Find(m[k := t], x) else Find(all, x)
    {
      UnionFind(sh, x);
    }
    NegativeView(sh, i, m[k := t], all[k := t]);
  }

  /** Deleting dead entries of one shard deletes them from the table. */
  lemma EvictView(sh: seq<Shard>, i: nat, keys: seq<Key>, now: Time)
    requires Placed(sh) && i < NUM_SHARDS && forall j :: 0 <= j < |keys| ==> ShardIdx(keys[j]) == i
    ensures var sh' := sh[i := sh[i].(entries := Alive(sh[i].entries, EntryExpiry, keys, now))];
            && Placed(sh')
            && Union(sh') == Union(sh).(entries := Alive(Union(sh).entries, EntryExpiry, keys, now))
  {
    hide ShardIdx, Union;
    var m, all := sh[i].entries, Union(sh).entries;
    var left := Alive(m, EntryExpiry, keys, now);
    forall x
      ensures Find(Alive(all, EntryExpiry, keys, now), x) == if ShardIdx(x) == i then Find(left, x) else Find(all, x)
    {
      UnionFind(sh, x);
    }
    EntriesView(sh, i, left, Alive(all, EntryExpiry, keys, now));
  }

  lemma EvictNegativeView(sh: seq<Shard>, i: nat, keys: seq<Key>, now: Time)
    requires Placed(sh) && i < NUM_SHARDS && forall j :: 0 <= j < |keys| ==> ShardIdx(keys[j]) == i
    ensures var sh' := sh[i := sh[i].(negative := Alive(sh[i].negative, DenialExpiry, keys, now))];
            && Placed(sh')
            && Union(sh') == Union(sh).(negative := Alive(Union(sh).negative, DenialExpiry, keys, now))
  {
    hide ShardIdx, Union;
    var m, all := sh[i].negative, Union(sh).negative;
    var left := Alive(m, DenialExpiry, keys, now);
    forall x
      ensures Find(Alive(all, DenialExpiry, keys, now), x) == if ShardIdx(x) == i then Find(left, x) else Find(all, x)
    {
      UnionFind(sh, x);
    }
    NegativeView(sh, i, left, Alive(all, DenialExpiry, keys, now));
  }

  /** The flush of one shard, on its own. */
  function Flushed(s: Shard, mode: FlushMode, now: Time): Shard {
    Shard(map k | k in s.entries && KeepsEntry(mode, s.entries[k].expires, now) :: s.entries[k],
          map k | k in s.negative && KeepsDenial(mode, s.negative[k], now) :: s.negative[k])
  }

  /** Flushing one shard is one event on the table. */
  lemma {:induction false} FlushView(sh: seq<Shard>, i: nat, mode: FlushMode, now: Time)
    requires Placed(sh) && i < NUM_SHARDS
    ensures var sh' := sh[i := Flushed(sh[i], mode, now)];
            Placed(sh') && Union(sh') == Apply(0, Union(sh), Event.Flush(mode, i, now))
  {
    hide ShardIdx, Union;
    var sh', want := sh[i := Flushed(sh[i], mode, now)], Apply(0, Union(sh), Event.Flush(mode, i, now));
    forall k
      ensures Find(Union(sh').entries, k) == Find(want.entries, k)
      ensures Find(Union(sh').negative, k) == Find(want.negative, k)
    {
      UnionFind(sh', k);
      UnionFind(sh, k);
    }
    StoreEquality(Union(sh'), want);
  }

  /** The flush of the shards up to the n-th, with the clock as read for each. */
  function FlushedStore(s: Store, mode: FlushMode, clock: nat -> Time, n: nat): Store {
    Store(map k | k in s.entries && (ShardIdx(k) < n ==> KeepsEntry(mode, s.entries[k].expires, clock(ShardIdx(k))))
            :: s.entries[k],
          map k | k in s.negative && (ShardIdx(k) < n ==> KeepsDenial(mode, s.negative[k], clock(ShardIdx(k))))
            :: s.negative[k])
  }

  lemma FlushOneMore(s: Store, mode: FlushMode, clock: nat -> Time, n: nat)
    ensures FlushedStore(s, mode, clock, 0) == s
    ensures Apply(0, FlushedStore(s, mode, clock, n), Event.Flush(mode, n, clock(n)))
            == FlushedStore(s, mode, clock, n + 1)
  {
    hide ShardIdx;
    FlushNone(s, mode, clock);
    EntriesOneMore(s, mode, clock, n);
    DenialsOneMore(s, mode, clock, n);
    hide *;
  }

  lemma FlushNone(s: Store, mode: FlushMode, clock: nat -> Time)
    ensures FlushedStore(s, mode, clock, 0) == s
  {
    hide ShardIdx;
    var t := FlushedStore(s, mode, clock, 0);
    assert t.entries == s.entries && t.negative == s.negative;
  }

  lemma EntriesOneMore(s: Store, mode: FlushMode, clock: nat -> Time, n: nat)
    ensures Apply(0, FlushedStore(s, mode, clock, n), Event.Flush(mode, n, clock(n))).entries
            == FlushedStore(s, mode, clock, n + 1).entries
  {
    hide ShardIdx, KeepsEntry, KeepsDenial;
  }

  lemma DenialsOneMore(s: Store, mode: FlushMode, clock: nat -> Time, n: nat)
    ensures Apply(0, FlushedStore(s, mode, clock, n), Event.Flush(mode, n, clock(n))).negative
            == FlushedStore(s, mode, clock, n + 1).negative
  {
    hide ShardIdx, KeepsEntry, KeepsDenial;
  }

  lemma FlushedCases(s: Shard, mode: FlushMode, now: Time)
    ensures mode.NegativeOnly? ==> Flushed(s, mode, now) == s.(negative := map[])
    ensures mode.Everything? ==> Flushed(s, mode, now) == Shard(map[], map[])
    ensures mode.ExpiredOnly? ==>
              Flushed(s, mode, now)
              == Shard(map k | k in s.entries && now <= EntryExpiry(s.entries[k]) :: s.entries[k],
                       map k | k in s.negative && now <= DenialExpiry(s.negative[k]) :: s.negative[k])
  {
  }

  lemma DeadIsFlushed(s: Shard, dead: seq<Key>, deadNegative: seq<Key>, now: Time)
    requires forall k :: k in s.entries && now > EntryExpiry(s.entries[k]) ==> k in dead
    requires forall k :: k in s.negative && now > DenialExpiry(s.negative[k]) ==> k in deadNegative
    ensures Shard(Alive(s.entries, EntryExpiry, dead, now), Alive(s.negative, DenialExpiry, deadNegative, now))
            == Flushed(s, ExpiredOnly, now)
  {
    assert Alive(s.entries, EntryExpiry, dead, now) == Flushed(s, ExpiredOnly, now).entries;
    assert Alive(s.negative, DenialExpiry, deadNegative, now) == Flushed(s, ExpiredOnly, now).negative;
  }

  lemma EmptyView(sh: seq<Shard>)
    requires |sh| == NUM_SHARDS && forall i :: 0 <= i < |sh| ==> sh[i] == Shard(map[], map[])
    ensures Placed(sh) && Union(sh) == EMPTY
  {
    hide ShardIdx;
    StoreEquality(Union(sh), EMPTY);
  }

  /* ----- Sizes ----- */

  ghost function ShardKeys(s: Store, i: nat): set<Key> {
    set k | k in s.entries && ShardIdx(k) == i
  }

  ghost function KeysBelow(s: Store, n: nat): set<Key> {
    set k | k in s.entries && ShardIdx(k) < n
  }

  ghost function SizeBelow(s: Store, n: nat): nat {
    if n == 0 then 0 else SizeBelow(s, n - 1) + |ShardKeys(s, n - 1)|
  }

  lemma OneMoreShard(s: Store, n: nat)
    ensures KeysBelow(s, 0) == {}
    ensures KeysBelow(s, n + 1) == KeysBelow(s, n) + ShardKeys(s, n) && KeysBelow(s, n) !! ShardKeys(s, n)
  {
    hide ShardIdx;
    assert forall k :: k in KeysBelow(s, n + 1) <==> k in KeysBelow(s, n) || k in ShardKeys(s, n);
  }

  lemma {:induction false} SizesAddUp(s: Store, n: nat)
    ensures SizeBelow(s, n) == |KeysBelow(s, n)|
  {
    hide KeysBelow, ShardKeys;
    if n == 0 {
      OneMoreShard(s, 0);
    } else {
      SizesAddUp(s, n - 1);
      OneMoreShard(s, n - 1);
    }
  }

  lemma ShardKeysOfUnion(sh: seq<Shard>, i: nat)
    requires Placed(sh) && i < NUM_SHARDS
    ensures ShardKeys(Union(sh), i) == sh[i].entries.Keys
  {
    forall k ensures k in ShardKeys(Union(sh), i) <==> k in sh[i].entries.Keys {
      UnionFind(sh, k);
    }
  }

  /* ----- The capacity limit, over all traces ----- */

  /** SetMaxSize's quotient, rounded up; 0 for no limit. */
  function PerShard(n: int): nat {
    if n > 0 then (n + NUM_SHARDS - 1) / NUM_SHARDS else 0
  }

  /** What Set does about a full shard: exactly then, and only for a new key, it evicts an entry
      of that shard with the least expiry. */
  ghost predicate VictimOk(s: Store, key: Key, msg: Message, minTTL: u32, cap: nat, victim: Option<Key>) {
    && (victim.Some? <==> EffectiveTTL(msg, minTTL) != 0 && cap > 0 && key !in s.entries
                          && |ShardKeys(s, ShardIdx(key))| >= cap)
    && (victim.Some? ==>
          && victim.value in ShardKeys(s, ShardIdx(key))
          && forall k :: k in ShardKeys(s, ShardIdx(key)) ==>
               s.entries[victim.value].expires <= s.entries[k].expires)
  }

  ghost predicate Capped(minTTL: u32, cap: nat, trace: seq<Event>) {
    forall i :: 0 <= i < |trace| && trace[i].Set? ==>
      VictimOk(Run(minTTL, trace[..i]), trace[i].key, trace[i].msg, minTTL, cap, trace[i].victim)
  }

  lemma ReplaceFits(keys: set<Key>, key: Key, victim: Option<Key>, cap: nat)
    requires |keys| <= cap
    requires if victim.Some? then victim.value in keys else key in keys || |keys| < cap
    ensures |(if victim.Some? then keys - {victim.value} else keys) + {key}| <= cap
  {
    if victim.None? && key in keys { assert keys + {key} == keys; }
  }

  lemma ShardKeysWritten(s: Store, key: Key, e: Entry, victim: Option<Key>, i: nat)
    requires victim.Some? ==> ShardIdx(victim.value) == ShardIdx(key)
    ensures ShardKeys(s.(entries := Without(s.entries, victim)[key := e]), i)
            == if ShardIdx(key) != i then ShardKeys(s, i)
               else (if victim.Some? then ShardKeys(s, i) - {victim.value} else ShardKeys(s, i)) + {key}
  {
    hide ShardIdx;
  }

  lemma SetKeepsCap(s: Store, key: Key, msg: Message, now: Time, minTTL: u32, cap: nat, victim: Option<Key>, i: nat)
    requires cap > 0 && VictimOk(s, key, msg, minTTL, cap, victim)
    requires |ShardKeys(s, i)| <= cap
    ensures |ShardKeys(Apply(minTTL, s, Set(key, msg, now, victim)), i)| <= cap
  {
    if EffectiveTTL(msg, minTTL) != 0 {
      ShardKeysWritten(s, key, NewEntry(msg, minTTL, now), victim, i);
      hide ShardIdx, EffectiveTTL, NewEntry, Without;
      if ShardIdx(key) == i {
        ReplaceFits(ShardKeys(s, i), key, victim, cap);
      }
    }
  }

  lemma ShrinkKeepsCap(s: Store, s': Store, i: nat, cap: nat)
    requires |ShardKeys(s, i)| <= cap && s'.entries.Keys <= s.entries.Keys
    ensures |ShardKeys(s', i)| <= cap
  {
    SubsetSize(ShardKeys(s', i), ShardKeys(s, i));
  }

  lemma {:induction false} SubsetSize<T>(a: set<T>, b: set<T>)
    requires a <= b
    ensures |a| <= |b|
  {
    if a != {} {
      var x :| x in a;
      SubsetSize(a - {x}, b - {x});
    }
  }

  lemma {:induction false} ShardsStayCapped(minTTL: u32, cap: nat, trace: seq<Event>, i: nat)
    requires cap > 0 && Capped(minTTL, cap, trace)
    ensures |ShardKeys(Run(minTTL, trace), i)| <= cap
  {
    if trace == [] {
      assert ShardKeys(EMPTY, i) == {};
    } else {
      var front, last := trace[..|trace| - 1], trace[|trace| - 1];
      assert forall j :: 0 <= j <= |front| ==> front[..j] == trace[..j];
      ShardsStayCapped(minTTL, cap, front, i);
      if last.Set? {
        SetKeepsCap(Run(minTTL, front), last.key, last.msg, last.now, minTTL, cap, last.victim, i);
      } else {
        ShrinkKeepsCap(Run(minTTL, front), Run(minTTL, trace), i, cap);
      }
    }
  }

  lemma {:induction false} SizeBelowCap(s: Store, n: nat, cap: nat)
    requires forall i :: 0 <= i < n ==> |ShardKeys(s, i)| <= cap
    ensures SizeBelow(s, n) <= n * cap
  {
    if n > 0 {
      SizeBelowCap(s, n - 1, cap);
      assert n * cap == (n - 1) * cap + cap;
    }
  }

  /** The limit per shard is the least that leaves room for n entries in all shards together. */
  lemma RoomForAll(n: int)
    requires n > 0
    ensures 64 * (PerShard(n) - 1) < n <= 64 * PerShard(n)
  {
  }

  /** With the limit set on an empty cache, no trace ever leaves more than 64 * ceil(n / 64)
      positive entries, which is at most n + 63. */
  lemma {:induction false} CapacityBound(minTTL: u32, n: int, trace: seq<Event>)
    requires n > 0 && Capped(minTTL, PerShard(n), trace)
    ensures |Run(minTTL, trace).entries| <= NUM_SHARDS * PerShard(n) <= n + 63
  {
    var s, cap := Run(minTTL, trace), PerShard(n);
    forall i | 0 <= i < NUM_SHARDS ensures |ShardKeys(s, i)| <= cap {
      ShardsStayCapped(minTTL, cap, trace, i);
    }
    SizeBelowCap(s, NUM_SHARDS, cap);
    SizesAddUp(s, NUM_SHARDS);
    assert KeysBelow(s, NUM_SHARDS) == s.entries.Keys;
  }

  /* ----- The cache itself ----- */

  /** lowestTTL: the loop as written; 2^32 - 1 doubles as "no answers" and gives 0. */
  method LowestTTL(msg: Message) returns (ttl: u32)
    ensures ttl == if MinTTL(msg.answers) == MAX_TTL then 0 else MinTTL(msg.answers)
  {
    var least := MAX_TTL;
    for i := 0 to |msg.answers|
      invariant MinTTL(msg.answers) == Lesser(least, MinTTL(msg.answers[i..]))
    {
      assert msg.answers[i..][1..] == msg.answers[i + 1..];
      if msg.answers[i].ttl < least {
        least := msg.answers[i].ttl;
      }
    }
    return if least == MAX_TTL then 0 else least;
  }

  function Lesser(a: u32, b: u32): u32 {
    if a < b then a else b
  }

  /** decrementRRs: the loop as written. */
  method DecrementRRs(rrs: seq<RR>, elapsed: u32) returns (out: seq<RR>)
    ensures out == AgedRRs(rrs, elapsed)
  {
    out := [];
    for i := 0 to |rrs|
      invariant |out| == i && forall k :: 0 <= k < i ==> out[k] == rrs[k].(ttl := Aged(rrs[k].ttl, elapsed))
    {
      var rr := rrs[i];
      if rr.ttl > elapsed {
        rr := rr.(ttl := rr.ttl - elapsed);
      } else {
        rr := rr.(ttl := 0);
      }
      out := out + [rr];
    }
    assert out == AgedRRs(rrs, elapsed);
  }

  /** The entry with the least expiry, by one pass over the map in any order. */
  method Earliest(entries: map<Key, Entry>) returns (victim: Key)
    requires entries != map[]
    ensures victim in entries && forall k :: k in entries ==> entries[victim].expires <= entries[k].expires
  {
    var todo := entries.Keys;
    var best: Option<Key> := None;
    assert todo != {} by { var k :| k in entries; }
    while todo != {}
      invariant todo <= entries.Keys && (best.None? ==> todo == entries.Keys)
      invariant best.Some? ==> best.value in entries
      invariant best.Some? ==>
                  forall k :: k in entries && k !in todo ==> entries[best.value].expires <= entries[k].expires
      decreases todo
    {
      var k :| k in todo;
      if best.None? || entries[k].expires < entries[best.value].expires {
        best := Some(k);
      }
      todo := todo - {k};
    }
    victim := best.value;
  }

  /** Deleting, one key at a time, what has expired. */
  method Prune<V>(m: map<Key, V>, expiry: V -> Time, now: Time) returns (kept: map<Key, V>)
    ensures kept == map k | k in m && now <= expiry(m[k]) :: m[k]
  {
    kept := m;
    var todo := m.Keys;
    while todo != {}
      invariant todo <= m.Keys
      invariant kept == map k | k in m && (k in todo || now <= expiry(m[k])) :: m[k]
      decreases todo
    {
      var k :| k in todo;
      if now > expiry(kept[k]) {
        kept := kept - {k};
      }
      todo := todo - {k};
    }
  }

  /** The evictor's snapshot: the keys that have expired, in some order. */
  method Expired<V>(m: map<Key, V>, expiry: V -> Time, now: Time) returns (dead: seq<Key>)
    ensures forall j :: 0 <= j < |dead| ==> dead[j] in m
    ensures forall k :: k in m && now > expiry(m[k]) ==> k in dead
  {
    dead := [];
    var todo := m.Keys;
    while todo != {}
      invariant todo <= m.Keys
      invariant forall j :: 0 <= j < |dead| ==> dead[j] in m
      invariant forall k :: k in m && now > expiry(m[k]) ==> k in todo || k in dead
      decreases todo
    {
      var k :| k in todo;
      if now > expiry(m[k]) {
        dead := dead + [k];
      }
      todo := todo - {k};
    }
  }

  class Cache {
    const shards: array<Shard>
    var minTTL: u32
    var maxPerShard: nat

    ghost predicate Valid()
      reads this, shards
    {
      Placed(shards[..])
    }

    ghost function View(): Store
      requires Valid()
      reads this, shards
    {
      Union(shards[..])
    }

    constructor ()
      ensures Valid() && fresh(shards) && View() == EMPTY && minTTL == 0 && maxPerShard == 0
    {
      shards := new Shard[NUM_SHARDS](_ => Shard(map[], map[]));
      minTTL, maxPerShard := 0, 0;
      new;
      EmptyView(shards[..]);
    }

    method SetMaxSize(n: int)
      requires Valid()
      modifies this`maxPerShard
      ensures Valid() && View() == old(View()) && maxPerShard == PerShard(n)
    {
      if n > 0 {
        maxPerShard := (n + NUM_SHARDS - 1) / NUM_SHARDS;
      } else {
        maxPerShard := 0;
      }
    }

    method SetNegative(k: Key, ttl0: int, now: Time)
      requires Valid()
      modifies shards
      ensures Valid() && View() == Apply(minTTL, old(View()), Event.SetNegative(k, ttl0, now))
    {
      hide ShardIdx, Union;
      ghost var before := shards[..];
      var ttl := if ttl0 == 0 then 300 else ttl0;
      var i := ShardIdx(k);
      var s := shards[i];
      DenyView(before, k, now + ttl * SECOND);
      s := s.(negative := s.negative[k := now + ttl * SECOND]);
      shards[i] := s;
      assert shards[..] == before[i := s];
    }

    method IsNegative(k: Key, now: Time) returns (b: bool)
      requires Valid()
      ensures b <==> CacheTrace.IsNegative(View(), k, now)
    {
      UnionFind(shards[..], k);
      var s := shards[ShardIdx(k)];
      b := k in s.negative && now < s.negative[k];
    }

    /** A hit is the stored message with its TTLs aged; the entry itself is not touched. */
    method Get(k: Key, now: Time) returns (r: Option<Message>)
      requires Valid()
      ensures r == CacheTrace.Get(View(), k, now)
    {
      hide ShardIdx, Union, AgedRRs;
      UnionFind(shards[..], k);
      var s := shards[ShardIdx(k)];
      if k !in s.entries || now > s.entries[k].expires {
        return None;
      }
      var e := s.entries[k];
      var elapsed := Elapsed(e, now);
      if elapsed == 0 {
        AgedByNothing(e.msg);
        return Some(e.msg);
      }
      var answers := DecrementRRs(e.msg.answers, elapsed);
      var authority := DecrementRRs(e.msg.authority, elapsed);
      var additional := DecrementRRs(e.msg.additional, elapsed);
      return Some(e.msg.(answers := answers, authority := authority, additional := additional));
    }

    /** One event of the trace; the ghost result names the entry it evicted, if any. */
    method Set(k: Key, msg: Message, now: Time) returns (ghost victim: Option<Key>)
      requires Valid()
      modifies shards
      ensures Valid() && View() == Apply(minTTL, old(View()), Event.Set(k, msg, now, victim))
      ensures VictimOk(old(View()), k, msg, minTTL, maxPerShard, victim)
    {
      hide *;
      victim := None;
      ghost var before := shards[..];
      ViewIs();
      var ttl := LowestTTL(msg);
      LifetimeIs(msg, minTTL);
      if ttl == 0 {
        NotStored(before, k, msg, now, minTTL, maxPerShard);
        return;
      }
      if minTTL > 0 && ttl < minTTL {
        ttl := minTTL;
      }
      var i := ShardIdx(k);
      var entries := shards[i].entries;
      if maxPerShard > 0 && |entries| >= maxPerShard && k !in entries {
        var evict := Earliest(entries);
        victim := Some(evict);
        entries := entries - {evict};
      }
      WithoutVictim(before[i].entries, victim);
      VictimChosen(before, k, msg, minTTL, maxPerShard, victim);
      SetView(before, k, msg, minTTL, now, victim);
      shards[i] := shards[i].(entries := entries[k := Entry(msg, now + ttl * SECOND, now)]);
      assert shards[..] == before[i := shards[i]];
      ViewIs();
    }

    lemma ViewIs()
      ensures Valid() <==> |shards[..]| == NUM_SHARDS && Placed(shards[..])
      ensures Valid() ==> View() == Union(shards[..])
    {
    }

    /** One batch of the evictor under its own lock, from whatever state the shard is in by then. */
    method EvictEntries(i: nat, keys: seq<Key>, now: Time)
      requires Valid() && i < NUM_SHARDS && forall j :: 0 <= j < |keys| ==> ShardIdx(keys[j]) == i
      modifies shards
      ensures Valid()
      ensures View() == old(View()).(entries := Alive(old(View()).entries, EntryExpiry, keys, now))
      ensures var s := old(shards[i]);
              shards[..] == old(shards[..])[i := s.(entries := Alive(s.entries, EntryExpiry, keys, now))]
    {
      hide ShardIdx, Union;
      ghost var before := shards[..];
      AliveNothing(before[i].entries, EntryExpiry, now);
      for j := 0 to |keys|
        invariant shards[..]
                  == before[i := before[i].(entries := Alive(before[i].entries, EntryExpiry, keys[..j], now))]
      {
        var k, entries := keys[j], shards[i].entries;
        assert keys[..j + 1] == keys[..j] + [k];
        AliveTwice(before[i].entries, EntryExpiry, keys[..j], [k], now);
        assert Alive(entries, EntryExpiry, [k], now)
               == if k in entries && now > entries[k].expires then entries - {k} else entries;
        if k in entries && now > entries[k].expires {
          shards[i] := shards[i].(entries := entries - {k});
        }
      }
      assert keys[..|keys|] == keys;
      EvictView(before, i, keys, now);
    }

    method EvictDenials(i: nat, keys: seq<Key>, now: Time)
      requires Valid() && i < NUM_SHARDS && forall j :: 0 <= j < |keys| ==> ShardIdx(keys[j]) == i
      modifies shards
      ensures Valid()
      ensures View() == old(View()).(negative := Alive(old(View()).negative, DenialExpiry, keys, now))
      ensures var s := old(shards[i]);
              shards[..] == old(shards[..])[i := s.(negative := Alive(s.negative, DenialExpiry, keys, now))]
    {
      hide ShardIdx, Union;
      ghost var before := shards[..];
      AliveNothing(before[i].negative, DenialExpiry, now);
      for j := 0 to |keys|
        invariant shards[..]
                  == before[i := before[i].(negative := Alive(before[i].negative, DenialExpiry, keys[..j], now))]
      {
        var k, negative := keys[j], shards[i].negative;
        assert keys[..j + 1] == keys[..j] + [k];
        AliveTwice(before[i].negative, DenialExpiry, keys[..j], [k], now);
        assert Alive(negative, DenialExpiry, [k], now)
               == if k in negative && now > negative[k] then negative - {k} else negative;
        if k in negative && now > negative[k] {
          shards[i] := shards[i].(negative := negative - {k});
        }
      }
      assert keys[..|keys|] == keys;
      EvictNegativeView(before, i, keys, now);
    }

    /** The snapshot of dead entries, in batches of 64, with no one in between. */
    method EvictDead(i: nat, dead: seq<Key>, now: Time)
      requires Valid() && i < NUM_SHARDS && forall j :: 0 <= j < |dead| ==> ShardIdx(dead[j]) == i
      modifies shards
      ensures Valid()
      ensures var s := old(shards[i]);
              shards[..] == old(shards[..])[i := s.(entries := Alive(s.entries, EntryExpiry, dead, now))]
    {
      hide ShardIdx, Union, Alive;
      ghost var before := shards[..];
      AliveNothing(before[i].entries, EntryExpiry, now);
      var n := 0;
      while n < |dead|
        invariant 0 <= n <= |dead| && Valid()
        invariant shards[..]
                  == before[i := before[i].(entries := Alive(before[i].entries, EntryExpiry, dead[..n], now))]
      {
        var end := if n + EVICT_BATCH < |dead| then n + EVICT_BATCH else |dead|;
        EvictEntries(i, dead[n..end], now);
        assert dead[..end] == dead[..n] + dead[n..end];
        AliveTwice(before[i].entries, EntryExpiry, dead[..n], dead[n..end], now);
        n := end;
      }
      assert dead[..n] == dead;
    }

    /** The same for negative entries. */
    method EvictDeadDenials(i: nat, dead: seq<Key>, now: Time)
      requires Valid() && i < NUM_SHARDS && forall j :: 0 <= j < |dead| ==> ShardIdx(dead[j]) == i
      modifies shards
      ensures Valid()
      ensures var s := old(shards[i]);
              shards[..] == old(shards[..])[i := s.(negative := Alive(s.negative, DenialExpiry, dead, now))]
    {
      hide ShardIdx, Union, Alive;
      ghost var before := shards[..];
      AliveNothing(before[i].negative, DenialExpiry, now);
      var n := 0;
      while n < |dead|
        invariant 0 <= n <= |dead| && Valid()
        invariant shards[..]
                  == before[i := before[i].(negative := Alive(before[i].negative, DenialExpiry, dead[..n], now))]
      {
        var end := if n + EVICT_BATCH < |dead| then n + EVICT_BATCH else |dead|;
        EvictDenials(i, dead[n..end], now);
        assert dead[..end] == dead[..n] + dead[n..end];
        AliveTwice(before[i].negative, DenialExpiry, dead[..n], dead[n..end], now);
        n := end;
      }
      assert dead[..n] == dead;
    }

    /** Left alone, the evictor leaves exactly what has not expired in its shard. */
    method EvictShard(i: nat, now: Time)
      requires Valid() && i < NUM_SHARDS
      modifies shards
      ensures Valid() && View() == Apply(0, old(View()), Event.Flush(ExpiredOnly, i, now))
      ensures shards[..] == old(shards[..])[i := Flushed(old(shards[i]), ExpiredOnly, now)]
    {
      hide ShardIdx, Union, Alive, Flushed, Apply;
      ghost var before := shards[..];
      ghost var s := before[i];
      var dead := Expired(shards[i].entries, EntryExpiry, now);
      var deadNegative := Expired(shards[i].negative, DenialExpiry, now);
      DeadIsFlushed(s, dead, deadNegative, now);
      EvictDead(i, dead, now);
      EvictDeadDenials(i, deadNegative, now);
      FlushView(before, i, ExpiredOnly, now);
      assert shards[..] == before[i := Flushed(s, ExpiredOnly, now)];
    }

    /** One tick of the eviction loop, left alone, is the flush of everything expired. */
    method Evict(now: Time)
      requires Valid()
      modifies shards
      ensures Valid() && View() == FlushedStore(old(View()), ExpiredOnly, _ => now, NUM_SHARDS)
    {
      hide ShardIdx, Union, Placed, Flushed, FlushedStore, Apply;
      ghost var clock: nat -> Time := _ => now;
      ghost var start := View();
      FlushOneMore(start, ExpiredOnly, clock, 0);
      for i := 0 to NUM_SHARDS
        invariant Valid() && View() == FlushedStore(start, ExpiredOnly, clock, i)
      {
        FlushOneMore(start, ExpiredOnly, clock, i);
        EvictShard(i, now);
      }
    }

    /** One shard under its lock, from whatever state the cache is in by then. */
    method FlushShard(i: nat, mode: FlushMode, now: Time)
      requires Valid() && i < NUM_SHARDS
      modifies shards
      ensures Valid() && View() == Apply(0, old(View()), Event.Flush(mode, i, now))
    {
      hide ShardIdx, Union;
      ghost var before := shards[..];
      var s := shards[i];
      FlushedCases(s, mode, now);
      FlushView(before, i, mode, now);
      match mode {
        case NegativeOnly => s := s.(negative := map[]);
        case ExpiredOnly =>
          var entries := Prune(s.entries, EntryExpiry, now);
          var negative := Prune(s.negative, DenialExpiry, now);
          s := Shard(entries, negative);
        case Everything => s := Shard(map[], map[]);
      }
      assert s == Flushed(before[i], mode, now);
      shards[i] := s;
      assert shards[..] == before[i := s];
    }

    /** Shard after shard, with a new clock reading for each; nothing in between. */
    method Flush(mode: FlushMode, clock: nat -> Time)
      requires Valid()
      modifies shards
      ensures Valid() && View() == FlushedStore(old(View()), mode, clock, NUM_SHARDS)
    {
      hide ShardIdx, Union, Placed, FlushedStore, Apply;
      ghost var start := View();
      FlushOneMore(start, mode, clock, 0);
      for i := 0 to NUM_SHARDS
        invariant Valid() && View() == FlushedStore(start, mode, clock, i)
      {
        FlushOneMore(start, mode, clock, i);
        FlushShard(i, mode, clock(i));
      }
    }

    method Size() returns (total: nat)
      requires Valid()
      ensures total == |View().entries|
    {
      hide ShardIdx, Union;
      total := 0;
      for i := 0 to NUM_SHARDS
        invariant total == SizeBelow(View(), i)
      {
        total := total + |shards[i].entries|;
        ShardKeysOfUnion(shards[..], i);
      }
      SizesAddUp(View(), NUM_SHARDS);
      assert KeysBelow(View(), NUM_SHARDS) == View().entries.Keys;
    }
  }

  /** The least expiry within a shard is the least among the shard's keys in the whole table. */
  lemma LifetimeIs(msg: Message, minTTL: u32)
    ensures var ttl := if MinTTL(msg.answers) == MAX_TTL then 0 else MinTTL(msg.answers);
            EffectiveTTL(msg, minTTL) == if minTTL > 0 && 0 < ttl < minTTL then minTTL else ttl
  {
    hide MinTTL;
  }

  lemma NotStored(sh: seq<Shard>, k: Key, msg: Message, now: Time, minTTL: u32, cap: nat)
    requires Placed(sh) && EffectiveTTL(msg, minTTL) == 0
    ensures Apply(minTTL, Union(sh), Event.Set(k, msg, now, None)) == Union(sh)
    ensures VictimOk(Union(sh), k, msg, minTTL, cap, None)
  {
    hide EffectiveTTL, Union;
  }

  lemma WithoutVictim(entries: map<Key, Entry>, victim: Option<Key>)
    ensures Without(entries, victim) == if victim.Some? then entries - {victim.value} else entries
  {
  }

  /** The victim that Set chooses is the one that the trace allows. */
  lemma VictimChosen(sh: seq<Shard>, k: Key, msg: Message, minTTL: u32, cap: nat, victim: Option<Key>)
    requires Placed(sh) && EffectiveTTL(msg, minTTL) != 0
    requires var entries := sh[ShardIdx(k)].entries;
             && (victim.Some? <==> cap > 0 && |entries| >= cap && k !in entries)
             && (victim.Some? ==>
                   && victim.value in entries
                   && forall x :: x in entries ==> entries[victim.value].expires <= entries[x].expires)
    ensures VictimOk(Union(sh), k, msg, minTTL, cap, victim)
  {
    hide ShardIdx, EffectiveTTL, Union;
    UnionFind(sh, k);
    ShardKeysOfUnion(sh, ShardIdx(k));
    hide Placed;
    if victim.Some? { VictimFits(sh, k, victim.value); }
    hide ShardKeys;
  }

  lemma SetView(sh: seq<Shard>, k: Key, msg: Message, minTTL: u32, now: Time, victim: Option<Key>)
    requires Placed(sh) && EffectiveTTL(msg, minTTL) != 0
    requires victim.Some? ==> victim.value in sh[ShardIdx(k)].entries
    ensures var i, e := ShardIdx(k), Entry(msg, now + EffectiveTTL(msg, minTTL) * SECOND, now);
            var sh' := sh[i := sh[i].(entries := Without(sh[i].entries, victim)[k := e])];
            Placed(sh') && Union(sh') == Apply(minTTL, Union(sh), Event.Set(k, msg, now, victim))
  {
    hide ShardIdx, EffectiveTTL, Union, Placed;
    InsertView(sh, k, NewEntry(msg, minTTL, now), victim);
  }

  lemma VictimFits(sh: seq<Shard>, k: Key, evict: Key)
    requires Placed(sh) && evict in sh[ShardIdx(k)].entries
    requires forall x :: x in sh[ShardIdx(k)].entries ==>
               sh[ShardIdx(k)].entries[evict].expires <= sh[ShardIdx(k)].entries[x].expires
    ensures var s := Union(sh);
            && evict in ShardKeys(s, ShardIdx(k))
            && forall x :: x in ShardKeys(s, ShardIdx(k)) ==> s.entries[evict].expires <= s.entries[x].expires
  {
    UnionFind(sh, evict);
    forall x | x in ShardKeys(Union(sh), ShardIdx(k))
      ensures Union(sh).entries[evict].expires <= Union(sh).entries[x].expires
    {
      UnionFind(sh, x);
    }
  }

  lemma {:induction false} AgedRRsByNothing(rrs: seq<RR>)
    ensures AgedRRs(rrs, 0) == rrs
  {
    if rrs != [] { AgedRRsByNothing(rrs[1..]); }
  }

  lemma AgedByNothing(m: Message)
    ensures AgedMessage(m, 0) == m
  {
    AgedRRsByNothing(m.answers);
    AgedRRsByNothing(m.authority);
    AgedRRsByNothing(m.additional);
  }
}
