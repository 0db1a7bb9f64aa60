/** When the cache answers, in terms of positions in the trace and of seconds: which Set a hit comes from and how
    long it lasts, which denial counts and for how long, and what flushing leaves. */
module Lifetimes {
  import opened Wrappers
  import opened Message
  import opened CacheTrace

  /* ----- The lifetime of an answer ----- */

  /** The least TTL of some records. */
  predicate LeastTTL(rrs: seq<RR>, ttl: u32) {
    (exists i :: 0 <= i < |rrs| && rrs[i].ttl == ttl) && forall i :: 0 <= i < |rrs| ==> ttl <= rrs[i].ttl
  }

  lemma {:induction false} MinIsLeast(rrs: seq<RR>)
    ensures rrs != [] ==> LeastTTL(rrs, MinTTL(rrs))
    ensures rrs == [] ==> MinTTL(rrs) == 4294967295
  {
    if rrs != [] {
      MinIsLeast(rrs[1..]);
      var rest, least := MinTTL(rrs[1..]), MinTTL(rrs);
      if |rrs| > 1 {
        var k :| 0 <= k < |rrs[1..]| && rrs[1..][k].ttl == rest;
        assert rrs[k + 1].ttl == rest;
      }
      forall i | 0 <= i < |rrs| ensures least <= rrs[i].ttl {
        if i > 0 { assert rrs[i] == rrs[1..][i - 1]; }
      }
      assert least == rrs[0].ttl || (|rrs| > 1 && least == rest);
    }
  }

  /** A message is kept for the least TTL of its answers, or the configured minimum if that is more; and not at
      all without answers, or when the least TTL is 0 or the largest number there is. */
  lemma LifetimeExactly(msg: Message, minTTL: u32, least: u32)
    requires msg.answers != [] ==> LeastTTL(msg.answers, least)
    ensures msg.answers == [] || least == 0 || least == 4294967295 ==> EffectiveTTL(msg, minTTL) == 0
    ensures msg.answers != [] && 0 < least < 4294967295 ==>
              EffectiveTTL(msg, minTTL) == if least < minTTL then minTTL else least
  {
    MinIsLeast(msg.answers);
    hide MinTTL;
  }

  /* ----- Answers ----- */

  /** From this event on, an older answer for the key is not served any more. */
  predicate Displaces(minTTL: u32, e: Event, k: Key) {
    || (e.Set? && EffectiveTTL(e.msg, minTTL) > 0 && (e.key == k || e.victim == Some(k)))
    || (e.Flush? && e.mode == Everything && e.shard == ShardIdx(k))
  }

  predicate Stores(minTTL: u32, e: Event, k: Key) {
    e.Set? && e.key == k && EffectiveTTL(e.msg, minTTL) > 0
  }

  /** The i-th event stores an answer for the key, and nothing later displaces it. */
  predicate Stands(minTTL: u32, trace: seq<Event>, k: Key, i: nat) {
    && i < |trace| && Stores(minTTL, trace[i], k)
    && forall j :: i < j < |trace| ==> !Displaces(minTTL, trace[j], k)
  }

  lemma {:induction false} StandingIsLatest(minTTL: u32, trace: seq<Event>, k: Key, i: nat)
    requires Stands(minTTL, trace, k, i)
    ensures LatestSet(minTTL, trace, k) == Some(NewEntry(trace[i].msg, minTTL, trace[i].now))
  {
    hide ShardIdx, EffectiveTTL, NewEntry;
    if i + 1 < |trace| {
      var front := trace[..|trace| - 1];
      assert !Displaces(minTTL, trace[|trace| - 1], k);
      assert Stands(minTTL, front, k, i);
      StandingIsLatest(minTTL, front, k, i);
    }
  }

  lemma {:induction false} LatestStands(minTTL: u32, trace: seq<Event>, k: Key) returns (i: nat)
    requires LatestSet(minTTL, trace, k).Some?
    ensures Stands(minTTL, trace, k, i)
  {
    hide ShardIdx, EffectiveTTL, NewEntry;
    var front, last := trace[..|trace| - 1], trace[|trace| - 1];
    if Stores(minTTL, last, k) {
      i := |trace| - 1;
    } else {
      assert !Displaces(minTTL, last, k);
      i := LatestStands(minTTL, front, k);
      assert trace[i] == front[i];
      assert forall j :: i < j < |front| ==> trace[j] == front[j];
    }
  }

  /** A lookup finds an answer exactly while the latest one stored, and not displaced since, is no older than its
      lifetime. */
  lemma {:induction false} HitExactly(minTTL: u32, trace: seq<Event>, k: Key, now: Time)
    requires NotAfter(trace, now)
    ensures Get(Run(minTTL, trace), k, now).Some?
            <==> exists i: nat :: Stands(minTTL, trace, k, i)
                   && now <= trace[i].now + EffectiveTTL(trace[i].msg, minTTL) * 1_000_000_000
  {
    HitIsLatestSet(minTTL, trace, k, now);
    hide Run, Get, LatestSet, EffectiveTTL, AgedRRs, Elapsed;
    forall i: nat | Stands(minTTL, trace, k, i)
      ensures LatestSet(minTTL, trace, k) == Some(NewEntry(trace[i].msg, minTTL, trace[i].now))
    {
      StandingIsLatest(minTTL, trace, k, i);
    }
    if LatestSet(minTTL, trace, k).Some? { var i := LatestStands(minTTL, trace, k); }
  }

  /** And it serves that answer, each TTL less the seconds since it was stored, not below zero. */
  lemma {:induction false} HitServes(minTTL: u32, trace: seq<Event>, k: Key, now: Time, i: nat)
    requires Stands(minTTL, trace, k, i) && trace[i].now <= now && Get(Run(minTTL, trace), k, now).Some?
    ensures var msg, got := trace[i].msg, Get(Run(minTTL, trace), k, now).value;
            var seconds := (now - trace[i].now) / 1_000_000_000;
            && LessSeconds(msg.answers, got.answers, seconds)
            && LessSeconds(msg.authority, got.authority, seconds)
            && LessSeconds(msg.additional, got.additional, seconds)
            && got == msg.(answers := got.answers, authority := got.authority, additional := got.additional)
  {
    StandingIsLatest(minTTL, trace, k, i);
    ServedTTLs(minTTL, trace, k, now);
    hide Run, Get, LatestSet, EffectiveTTL, LessSeconds;
  }

  /** The same by the reference: alive is served. */
  lemma {:induction false} ServedExactly(minTTL: u32, trace: seq<Event>, k: Key, now: Time)
    requires NotAfter(trace, now)
    ensures Get(Run(minTTL, trace), k, now).Some?
            <==> LatestSet(minTTL, trace, k).Some? && now <= LatestSet(minTTL, trace, k).value.expires
  {
    HitIsLatestSet(minTTL, trace, k, now);
    hide Run, Get, LatestSet;
  }

  /* ----- Denials ----- */

  predicate Reverses(e: Event, k: Key) {
    || (e.SetNegative? && e.key == k)
    || (e.Flush? && e.mode != ExpiredOnly && e.shard == ShardIdx(k))
  }

  /** The i-th event denies the key, and nothing later denies it anew or flushes the denial. */
  predicate DenialStands(trace: seq<Event>, k: Key, i: nat) {
    && i < |trace| && trace[i].SetNegative? && trace[i].key == k
    && forall j :: i < j < |trace| ==> !Reverses(trace[j], k)
  }

  lemma {:induction false} StandingDenialIsLatest(trace: seq<Event>, k: Key, i: nat)
    requires DenialStands(trace, k, i)
    ensures LatestDenial(trace, k) == Some(NegativeExpiry(trace[i].ttl, trace[i].now))
  {
    hide ShardIdx, NegativeExpiry;
    if i + 1 < |trace| {
      var front := trace[..|trace| - 1];
      assert !Reverses(trace[|trace| - 1], k);
      assert DenialStands(front, k, i);
      StandingDenialIsLatest(front, k, i);
    }
  }

  lemma {:induction false} LatestDenialStands(trace: seq<Event>, k: Key) returns (i: nat)
    requires LatestDenial(trace, k).Some?
    ensures DenialStands(trace, k, i)
  {
    hide ShardIdx, NegativeExpiry;
    var front, last := trace[..|trace| - 1], trace[|trace| - 1];
    if last.SetNegative? && last.key == k {
      i := |trace| - 1;
    } else {
      assert !Reverses(last, k);
      i := LatestDenialStands(front, k);
      assert trace[i] == front[i];
      assert forall j :: i < j < |front| ==> trace[j] == front[j];
    }
  }

  /** A name is denied exactly for the seconds given with its latest denial, 300 for zero, unless that has been
      flushed. */
  lemma {:induction false} DeniedExactly(minTTL: u32, trace: seq<Event>, k: Key, now: Time)
    requires NotAfter(trace, now)
    ensures IsNegative(Run(minTTL, trace), k, now)
            <==> exists i: nat :: DenialStands(trace, k, i)
                   && now < trace[i].now + (if trace[i].ttl == 0 then 300 else trace[i].ttl) * 1_000_000_000
  {
    DeniedIffLatestDenial(minTTL, trace, k, now);
    hide Run, IsNegative, LatestDenial;
    forall i: nat | DenialStands(trace, k, i)
      ensures LatestDenial(trace, k) == Some(NegativeExpiry(trace[i].ttl, trace[i].now))
    {
      StandingDenialIsLatest(trace, k, i);
    }
    if LatestDenial(trace, k).Some? { var i := LatestDenialStands(trace, k); }
  }

  /* ----- What deletion leaves ----- */

  /** Flushing a shard leaves the others alone, and of its own what is no denial, what has not expired, or
      nothing. */
  lemma FlushLeaves(minTTL: u32, s: Store, mode: FlushMode, shard: nat, now: Time, k: Key)
    ensures var after := Apply(minTTL, s, Flush(mode, shard, now));
            && (ShardIdx(k) != shard ==>
                  Find(after.entries, k) == Find(s.entries, k) && Find(after.negative, k) == Find(s.negative, k))
            && (ShardIdx(k) == shard && mode == Everything ==> k !in after.entries && k !in after.negative)
            && (ShardIdx(k) == shard && mode == NegativeOnly ==>
                  Find(after.entries, k) == Find(s.entries, k) && k !in after.negative)
            && (ShardIdx(k) == shard && mode == ExpiredOnly ==>
                  && Find(after.entries, k) == (if k in s.entries && s.entries[k].expires >= now
                                                then Some(s.entries[k]) else None)
                  && Find(after.negative, k) == (if k in s.negative && s.negative[k] >= now
                                                 then Some(s.negative[k]) else None))
  {
    hide ShardIdx;
  }

  /** The evictor removes a key if it has expired by then, and otherwise keeps it; whatever else there is stays. */
  lemma DropRemoves(minTTL: u32, s: Store, key: Key, now: Time, k: Key)
    ensures var after := Apply(minTTL, s, Drop(key, now));
            && after.negative == s.negative
            && (k in after.entries <==> k in s.entries && !(k == key && s.entries[k].expires < now))
            && (k in after.entries ==> after.entries[k] == s.entries[k])
  {
  }
}
