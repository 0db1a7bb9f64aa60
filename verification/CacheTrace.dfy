/** What the cache promises over whole traces of operations, against a definition that only
    looks back through the trace for the latest relevant Set. */
module CacheTrace {
  import opened Wrappers
  import opened Text
  import opened Hash
  import opened Message

  datatype Key = Key(name: Str, qtype: u16)

  const NUM_SHARDS: nat := 64

  /** The shard of a key: the hash of its name, mixed with its type. */
  function ShardIdx(k: Key): (i: nat)
    ensures i < NUM_SHARDS
  {
    (Mix(Fnv(k.name, OFFSET_BASIS), k.qtype as bv32) as int) % NUM_SHARDS
  }

  /** Clock readings are nanoseconds. */
  type Time = int

  const SECOND: int := 1_000_000_000
  const MAX_TTL: u32 := 0xFFFF_FFFF

  datatype Entry = Entry(msg: Message, expires: Time, cached: Time)

  /** The cache as one table of positive and one of negative entries. */
  datatype Store = Store(entries: map<Key, Entry>, negative: map<Key, Time>)

  const EMPTY: Store := Store(map[], map[])

  function MinTTL(rrs: seq<RR>): u32 {
    if rrs == [] then MAX_TTL
    else if rrs[0].ttl < MinTTL(rrs[1..]) then rrs[0].ttl else MinTTL(rrs[1..])
  }

  /** The lifetime Set gives a message, 0 when it is not cached at all. */
  function EffectiveTTL(msg: Message, minTTL: u32): u32 {
    var ttl := if MinTTL(msg.answers) == MAX_TTL then 0 else MinTTL(msg.answers);
    if 0 < ttl < minTTL then minTTL else ttl
  }

  function NewEntry(msg: Message, minTTL: u32, now: Time): Entry {
    Entry(msg, now + EffectiveTTL(msg, minTTL) * SECOND, now)
  }

  function NegativeExpiry(ttl: int, now: Time): Time {
    now + (if ttl == 0 then 300 else ttl) * SECOND
  }

  datatype FlushMode = NegativeOnly | ExpiredOnly | Everything

  /** What can happen to the cache, each under one lock. `victim` is the entry Set evicts when its shard is
      full; Flush is the flush of one shard; Drop is the evictor's decision on one key, taken against
      the time `now` that it read before. */
  datatype Event =
    | Set(key: Key, msg: Message, now: Time, victim: Option<Key>)
    | SetNegative(key: Key, ttl: int, now: Time)
    | Flush(mode: FlushMode, shard: nat, now: Time)
    | Drop(key: Key, now: Time)
    | DropNegative(key: Key, now: Time)

  function Without<V>(m: map<Key, V>, victim: Option<Key>): map<Key, V> {
    if victim.Some? then m - {victim.value} else m
  }

  predicate KeepsEntry(mode: FlushMode, expires: Time, now: Time) {
    mode.NegativeOnly? || (mode.ExpiredOnly? && now <= expires)
  }

  predicate KeepsDenial(mode: FlushMode, expires: Time, now: Time) {
    mode.ExpiredOnly? && now <= expires
  }

  function Apply(minTTL: u32, s: Store, e: Event): Store {
    match e
    case Set(key, msg, now, victim) =>
      if EffectiveTTL(msg, minTTL) == 0 then s
      else s.(entries := Without(s.entries, victim)[key := NewEntry(msg, minTTL, now)])
    case SetNegative(key, ttl, now) => s.(negative := s.negative[key := NegativeExpiry(ttl, now)])
    case Flush(mode, shard, now) =>
      Store(map k | k in s.entries && (ShardIdx(k) == shard ==> KeepsEntry(mode, s.entries[k].expires, now)) ::
              s.entries[k],
            map k | k in s.negative && (ShardIdx(k) == shard ==> KeepsDenial(mode, s.negative[k], now)) ::
              s.negative[k])
    case Drop(key, now) =>
      if key in s.entries && now > s.entries[key].expires then s.(entries := s.entries - {key}) else s
    case DropNegative(key, now) =>
      if key in s.negative && now > s.negative[key] then s.(negative := s.negative - {key}) else s
  }

  function Run(minTTL: u32, trace: seq<Event>): Store {
    if trace == [] then EMPTY else Apply(minTTL, Run(minTTL, trace[..|trace| - 1]), trace[|trace| - 1])
  }

  /* ----- What a lookup returns ----- */

  function Aged(ttl: u32, elapsed: u32): u32 {
    if ttl > elapsed then ttl - elapsed else 0
  }

  function AgedRRs(rrs: seq<RR>, elapsed: u32): (r: seq<RR>)
    ensures |r| == |rrs|
    ensures forall i :: 0 <= i < |rrs| ==> r[i] == rrs[i].(ttl := Aged(rrs[i].ttl, elapsed))
  {
    if rrs == [] then [] else [rrs[0].(ttl := Aged(rrs[0].ttl, elapsed))] + AgedRRs(rrs[1..], elapsed)
  }

  function AgedMessage(m: Message, elapsed: u32): Message {
    m.(answers := AgedRRs(m.answers, elapsed), authority := AgedRRs(m.authority, elapsed),
       additional := AgedRRs(m.additional, elapsed))
  }

  /** uint32(time.Since(cached).Seconds()); the monotonic clock never reads before `cached`. */
  function Elapsed(e: Entry, now: Time): u32 {
    if now < e.cached then 0 else (now - e.cached) / SECOND % 0x1_0000_0000
  }

  function Served(o: Option<Entry>, now: Time): Option<Message> {
    match o
    case None => None
    case Some(e) => if now > e.expires then None else Some(AgedMessage(e.msg, Elapsed(e, now)))
  }

  function Find<V>(m: map<Key, V>, k: Key): Option<V> {
    if k in m then Some(m[k]) else None
  }

  function Get(s: Store, k: Key, now: Time): Option<Message> {
    Served(Find(s.entries, k), now)
  }

  predicate IsNegative(s: Store, k: Key, now: Time) {
    k in s.negative && now < s.negative[k]
  }

  /* ----- The reference: look back through the trace ----- */

  /** The latest Set of a key with a non-zero lifetime, unless since then its shard was flushed or the key
      had to make room for another. */
  function LatestSet(minTTL: u32, trace: seq<Event>, k: Key): Option<Entry> {
    if trace == [] then None
    else
      var front := trace[..|trace| - 1];
      match trace[|trace| - 1]
      case Set(key, msg, now, victim) =>
        if EffectiveTTL(msg, minTTL) == 0 then LatestSet(minTTL, front, k)
        else if key == k then Some(NewEntry(msg, minTTL, now))
        else if victim == Some(k) then None
        else LatestSet(minTTL, front, k)
      case Flush(Everything, shard, _) => if ShardIdx(k) == shard then None else LatestSet(minTTL, front, k)
      case _ => LatestSet(minTTL, front, k)
  }

  function LatestDenial(trace: seq<Event>, k: Key): Option<Time> {
    if trace == [] then None
    else
      var front := trace[..|trace| - 1];
      match trace[|trace| - 1]
      case SetNegative(key, ttl, now) => if key == k then Some(NegativeExpiry(ttl, now)) else LatestDenial(front, k)
      case Flush(mode, shard, _) =>
        if ShardIdx(k) == shard && !mode.ExpiredOnly? then None else LatestDenial(front, k)
      case _ => LatestDenial(front, k)
  }

  /** The evictor's and a flush's notion of now never runs ahead of the reader's. */
  predicate NotAfter(trace: seq<Event>, now: Time) {
    forall i :: 0 <= i < |trace| ==>
      match trace[i]
      case Flush(_, _, t) => t <= now
      case Drop(_, t) => t <= now
      case DropNegative(_, t) => t <= now
      case _ => true
  }

  /** What is stored for a key is the latest Set; and it is missing only if there is none or once it has
      expired. */
  lemma {:induction false} StoredIsLatest(minTTL: u32, trace: seq<Event>, k: Key, now: Time)
    ensures k in Run(minTTL, trace).entries ==>
              LatestSet(minTTL, trace, k) == Some(Run(minTTL, trace).entries[k])
    ensures NotAfter(trace, now) && k !in Run(minTTL, trace).entries ==>
              LatestSet(minTTL, trace, k).None? || now > LatestSet(minTTL, trace, k).value.expires
  {
    hide ShardIdx, EffectiveTTL, NewEntry, NegativeExpiry;
    if trace != [] {
      var front := trace[..|trace| - 1];
      StoredIsLatest(minTTL, front, k, now);
      assert NotAfter(trace, now) ==> NotAfter(front, now);
    }
  }

  /** Over every trace, capacity evictions included, a hit is exactly the latest Set of that key, aged, and
      a miss means that no such Set is alive. */
  lemma {:induction false} HitIsLatestSet(minTTL: u32, trace: seq<Event>, k: Key, now: Time)
    ensures Get(Run(minTTL, trace), k, now).Some? ==>
              Get(Run(minTTL, trace), k, now) == Served(LatestSet(minTTL, trace, k), now)
    ensures NotAfter(trace, now) ==> Get(Run(minTTL, trace), k, now) == Served(LatestSet(minTTL, trace, k), now)
  {
    StoredIsLatest(minTTL, trace, k, now);
  }

  lemma {:induction false} DenialIsLatest(minTTL: u32, trace: seq<Event>, k: Key, now: Time)
    requires NotAfter(trace, now)
    ensures k in Run(minTTL, trace).negative ==> LatestDenial(trace, k) == Some(Run(minTTL, trace).negative[k])
    ensures k !in Run(minTTL, trace).negative ==>
              LatestDenial(trace, k).None? || now > LatestDenial(trace, k).value
  {
    hide ShardIdx, EffectiveTTL, NewEntry, NegativeExpiry;
    if trace != [] {
      DenialIsLatest(minTTL, trace[..|trace| - 1], k, now);
    }
  }

  /** A name is denied exactly while its latest negative entry lives. */
  lemma {:induction false} DeniedIffLatestDenial(minTTL: u32, trace: seq<Event>, k: Key, now: Time)
    requires NotAfter(trace, now)
    ensures IsNegative(Run(minTTL, trace), k, now)
            <==> LatestDenial(trace, k).Some? && now < LatestDenial(trace, k).value
  {
    DenialIsLatest(minTTL, trace, k, now);
  }

  /** Entries are created alive for their lifetime, a positive number of seconds below 2^32. */
  lemma {:induction false} LatestLifetime(minTTL: u32, trace: seq<Event>, k: Key)
    ensures LatestSet(minTTL, trace, k).Some? ==>
              var e := LatestSet(minTTL, trace, k).value;
              && EffectiveTTL(e.msg, minTTL) > 0
              && e.expires == e.cached + EffectiveTTL(e.msg, minTTL) * SECOND
  {
    if trace != [] { LatestLifetime(minTTL, trace[..|trace| - 1], k); }
  }

  /** The 32-bit conversion of the elapsed seconds does not wrap while an entry lives. */
  lemma ElapsedExact(e: Entry, now: Time, ttl: u32)
    requires e.cached <= now <= e.expires && e.expires == e.cached + ttl * SECOND
    ensures Elapsed(e, now) == (now - e.cached) / SECOND
  {
    var d, seconds := now - e.cached, (now - e.cached) / SECOND;
    assert seconds * SECOND <= d <= ttl * SECOND;
    assert seconds <= ttl;
  }

  /** The same records with each TTL less so many seconds, and never below zero. */
  predicate LessSeconds(before: seq<RR>, after: seq<RR>, seconds: int) {
    && |after| == |before|
    && forall i :: 0 <= i < |before| ==>
         var left := before[i].ttl - seconds;
         after[i].ttl == (if left > 0 then left else 0) && after[i].(ttl := 0) == before[i].(ttl := 0)
  }

  lemma AgedIsLess(rrs: seq<RR>, elapsed: u32)
    ensures LessSeconds(rrs, AgedRRs(rrs, elapsed), elapsed)
  {
  }

  /** Nothing is served after it expires, and every TTL served, in all three sections, is the original
      less the whole seconds spent in the cache, never below zero. */
  lemma {:induction false} ServedTTLs(minTTL: u32, trace: seq<Event>, k: Key, now: Time)
    requires Get(Run(minTTL, trace), k, now).Some?
    ensures LatestSet(minTTL, trace, k).Some? && now <= LatestSet(minTTL, trace, k).value.expires
    ensures var e := LatestSet(minTTL, trace, k).value;
            var got, seconds := Get(Run(minTTL, trace), k, now).value, (now - e.cached) / SECOND;
            now >= e.cached ==>
              && LessSeconds(e.msg.answers, got.answers, seconds)
              && LessSeconds(e.msg.authority, got.authority, seconds)
              && LessSeconds(e.msg.additional, got.additional, seconds)
              && got == e.msg.(answers := got.answers, authority := got.authority, additional := got.additional)
  {
    HitIsLatestSet(minTTL, trace, k, now);
    hide Run, Elapsed, EffectiveTTL, LatestSet, AgedRRs, LessSeconds;
    LatestLifetime(minTTL, trace, k);
    var e := LatestSet(minTTL, trace, k).value;
    if now >= e.cached {
      ElapsedExact(e, now, EffectiveTTL(e.msg, minTTL));
      AgedIsLess(e.msg.answers, Elapsed(e, now));
      AgedIsLess(e.msg.authority, Elapsed(e, now));
      AgedIsLess(e.msg.additional, Elapsed(e, now));
    }
  }

  /* ----- The evictor cannot be observed ----- */

  function EntryExpiry(e: Entry): Time {
    e.expires
  }

  function DenialExpiry(t: Time): Time {
    t
  }

  /** A map without those of the given keys that have expired by `now`. */
  function Alive<V>(m: map<Key, V>, expiry: V -> Time, keys: seq<Key>, now: Time): map<Key, V> {
    map k | k in m && !(k in keys && now > expiry(m[k])) :: m[k]
  }

  lemma AliveTwice<V>(m: map<Key, V>, expiry: V -> Time, a: seq<Key>, b: seq<Key>, now: Time)
    ensures Alive(Alive(m, expiry, a, now), expiry, b, now) == Alive(m, expiry, a + b, now)
  {
    assert forall k :: k in a + b <==> k in a || k in b;
  }

  lemma AliveNothing<V>(m: map<Key, V>, expiry: V -> Time, now: Time)
    ensures Alive(m, expiry, [], now) == m
  {
  }

  lemma DropStep(minTTL: u32, s: Store, front: seq<Key>, last: Key, now: Time)
    ensures Apply(minTTL, s.(entries := Alive(s.entries, EntryExpiry, front, now)), Drop(last, now))
            == s.(entries := Alive(s.entries, EntryExpiry, front + [last], now))
  {
    var kept := Alive(s.entries, EntryExpiry, front, now);
    AliveTwice(s.entries, EntryExpiry, front, [last], now);
    assert Apply(minTTL, s.(entries := kept), Drop(last, now)).entries == Alive(kept, EntryExpiry, [last], now);
  }

  /** A batch of the evictor is the trace of its decisions, key by key: it removes the keys of the
      batch that have expired, whatever happened since they were collected, and nothing alive. */
  lemma {:induction false} BatchIsDrops(minTTL: u32, trace: seq<Event>, keys: seq<Key>, now: Time)
    ensures Run(minTTL, trace + seq(|keys|, j requires 0 <= j < |keys| => Drop(keys[j], now)))
            == Run(minTTL, trace).(entries := Alive(Run(minTTL, trace).entries, EntryExpiry, keys, now))
  {
    hide Apply;
    var s, all := Run(minTTL, trace), trace + seq(|keys|, j requires 0 <= j < |keys| => Drop(keys[j], now));
    if keys == [] {
      assert all == trace;
      AliveNothing(s.entries, EntryExpiry, now);
    } else {
      hide Alive;
      var front, last := keys[..|keys| - 1], keys[|keys| - 1];
      BatchIsDrops(minTTL, trace, front, now);
      assert all[..|all| - 1] == trace + seq(|front|, j requires 0 <= j < |front| => Drop(front[j], now));
      assert all[|all| - 1] == Drop(last, now);
      assert keys == front + [last];
      DropStep(minTTL, s, front, last, now);
    }
  }

  lemma DropNegativeStep(minTTL: u32, s: Store, front: seq<Key>, last: Key, now: Time)
    ensures Apply(minTTL, s.(negative := Alive(s.negative, DenialExpiry, front, now)), DropNegative(last, now))
            == s.(negative := Alive(s.negative, DenialExpiry, front + [last], now))
  {
    var kept := Alive(s.negative, DenialExpiry, front, now);
    AliveTwice(s.negative, DenialExpiry, front, [last], now);
    assert Apply(minTTL, s.(negative := kept), DropNegative(last, now)).negative
           == Alive(kept, DenialExpiry, [last], now);
  }

  lemma {:induction false} BatchIsNegativeDrops(minTTL: u32, trace: seq<Event>, keys: seq<Key>, now: Time)
    ensures Run(minTTL, trace + seq(|keys|, j requires 0 <= j < |keys| => DropNegative(keys[j], now)))
            == Run(minTTL, trace).(negative := Alive(Run(minTTL, trace).negative, DenialExpiry, keys, now))
  {
    hide Apply;
    var s, all := Run(minTTL, trace), trace + seq(|keys|, j requires 0 <= j < |keys| => DropNegative(keys[j], now));
    if keys == [] {
      assert all == trace;
      AliveNothing(s.negative, DenialExpiry, now);
    } else {
      hide Alive;
      var front, last := keys[..|keys| - 1], keys[|keys| - 1];
      BatchIsNegativeDrops(minTTL, trace, front, now);
      assert all[..|all| - 1] == trace + seq(|front|, j requires 0 <= j < |front| => DropNegative(front[j], now));
      assert all[|all| - 1] == DropNegative(last, now);
      assert keys == front + [last];
      DropNegativeStep(minTTL, s, front, last, now);
    }
  }

  predicate IsDrop(e: Event) {
    e.Drop? || e.DropNegative?
  }

  function WithoutDrops(trace: seq<Event>): seq<Event> {
    if trace == [] then []
    else
      var front := WithoutDrops(trace[..|trace| - 1]);
      if IsDrop(trace[|trace| - 1]) then front else front + [trace[|trace| - 1]]
  }

  lemma ErasingLast(minTTL: u32, front: seq<Event>, erased: seq<Event>, e: Event, k: Key)
    requires LatestSet(minTTL, erased, k) == LatestSet(minTTL, front, k)
    requires LatestDenial(erased, k) == LatestDenial(front, k)
    ensures LatestSet(minTTL, erased + [e], k) == LatestSet(minTTL, front + [e], k)
    ensures LatestDenial(erased + [e], k) == LatestDenial(front + [e], k)
  {
    hide ShardIdx, EffectiveTTL, NewEntry, NegativeExpiry;
    assert (erased + [e])[..|erased|] == erased && (front + [e])[..|front|] == front;
  }

  lemma DropsDoNotCount(minTTL: u32, front: seq<Event>, e: Event, k: Key)
    requires IsDrop(e)
    ensures LatestSet(minTTL, front + [e], k) == LatestSet(minTTL, front, k)
    ensures LatestDenial(front + [e], k) == LatestDenial(front, k)
  {
    hide ShardIdx, EffectiveTTL, NewEntry, NegativeExpiry;
    assert (front + [e])[..|front|] == front;
  }

  lemma {:induction false} ErasingDrops(minTTL: u32, trace: seq<Event>, k: Key)
    ensures LatestSet(minTTL, WithoutDrops(trace), k) == LatestSet(minTTL, trace, k)
    ensures LatestDenial(WithoutDrops(trace), k) == LatestDenial(trace, k)
  {
    if trace != [] {
      var front, last := trace[..|trace| - 1], trace[|trace| - 1];
      assert trace == front + [last];
      ErasingDrops(minTTL, front, k);
      hide LatestSet, LatestDenial;
      if IsDrop(last) {
        DropsDoNotCount(minTTL, front, last, k);
      } else {
        ErasingLast(minTTL, front, WithoutDrops(front), last, k);
      }
    }
  }

  lemma {:induction false} StillNotAfter(trace: seq<Event>, now: Time)
    requires NotAfter(trace, now)
    ensures NotAfter(WithoutDrops(trace), now)
  {
    if trace != [] { StillNotAfter(trace[..|trace| - 1], now); }
  }

  /** However the evictor's decisions are interleaved with Sets, flushes and lookups, no lookup can tell
      whether it ran at all, given that full shards make room by the same victims. */
  lemma {:induction false} EvictorUnobservable(minTTL: u32, trace: seq<Event>, k: Key, now: Time)
    requires NotAfter(trace, now)
    ensures Get(Run(minTTL, trace), k, now) == Get(Run(minTTL, WithoutDrops(trace)), k, now)
    ensures IsNegative(Run(minTTL, trace), k, now) <==> IsNegative(Run(minTTL, WithoutDrops(trace)), k, now)
  {
    hide Run, LatestSet, LatestDenial, Get, Served, IsNegative;
    ErasingDrops(minTTL, trace, k);
    StillNotAfter(trace, now);
    HitIsLatestSet(minTTL, trace, k, now);
    HitIsLatestSet(minTTL, WithoutDrops(trace), k, now);
    DeniedIffLatestDenial(minTTL, trace, k, now);
    DeniedIffLatestDenial(minTTL, WithoutDrops(trace), k, now);
  }
}
