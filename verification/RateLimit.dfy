/** The token bucket limiter. Every claim is about whole runs of calls from many clients, taken in
    the order in which they get the lock; the clock reading of a call is taken before the lock, so
    unless stated the readings need not be in order. */
module RateLimit {
  import opened Wrappers
  import opened Text

  /** Seconds. */
  type Time = real

  const IDLE_TTL: real := 600.0
  const CLEANUP_INTERVAL: real := 60.0

  datatype Limits = Limits(rate: real, burst: real)

  function Configured(qps: int, burst: int): Limits {
    Limits(qps as real, burst as real)
  }

  datatype Bucket = Bucket(tokens: real, last: Time, lastSeen: Time)
  datatype Table = Table(buckets: map<Str, Bucket>, nextCleanup: Option<Time>)
  datatype Call = Call(ip: Str, now: Time)

  const FRESH: Table := Table(map[], None)

  /** Tokens earned in a while. */
  function Gain(rate: real, elapsed: Time): real {
    elapsed * rate
  }

  lemma GainAdds(rate: real, a: Time, b: Time)
    ensures Gain(rate, a) + Gain(rate, b) == Gain(rate, a + b)
    ensures Gain(rate, 0.0) == 0.0
    ensures rate >= 0.0 && a >= 0.0 ==> Gain(rate, a) >= 0.0
  {
  }

  function Min(a: real, b: real): real {
    if a < b then a else b
  }

  /** The buckets seen within the last ten minutes. */
  function Recent(buckets: map<Str, Bucket>, now: Time): map<Str, Bucket> {
    map ip | ip in buckets && now - buckets[ip].lastSeen <= IDLE_TTL :: buckets[ip]
  }

  /** The first call only schedules a clean-up; a limiter that never sweeps is the reference. */
  function Swept(sweeps: bool, s: Table, now: Time): Table {
    if !sweeps then s
    else if s.nextCleanup.None? then s.(nextCleanup := Some(now + CLEANUP_INTERVAL))
    else if now > s.nextCleanup.value then Table(Recent(s.buckets, now), Some(now + CLEANUP_INTERVAL))
    else s
  }

  function Refilled(l: Limits, s: Table, c: Call): real {
    if c.ip in s.buckets
    then Min(l.burst, s.buckets[c.ip].tokens + Gain(l.rate, c.now - s.buckets[c.ip].last))
    else l.burst
  }

  function Grants(l: Limits, sweeps: bool, s: Table, c: Call): bool {
    Refilled(l, Swept(sweeps, s, c.now), c) >= 1.0
  }

  function Step(l: Limits, sweeps: bool, s: Table, c: Call): Table {
    var t := Swept(sweeps, s, c.now);
    var tokens := Refilled(l, t, c);
    t.(buckets := t.buckets[c.ip := Bucket(if tokens < 1.0 then tokens else tokens - 1.0, c.now, c.now)])
  }

  function Run(l: Limits, sweeps: bool, calls: seq<Call>): Table {
    if calls == [] then FRESH
    else Step(l, sweeps, Run(l, sweeps, calls[..|calls| - 1]), calls[|calls| - 1])
  }

  /** The answer to the i-th call of a run. */
  predicate Answer(l: Limits, sweeps: bool, calls: seq<Call>, i: nat)
    requires i < |calls|
  {
    Grants(l, sweeps, Run(l, sweeps, calls[..i]), calls[i])
  }

  lemma RunSnoc(l: Limits, sweeps: bool, calls: seq<Call>, i: nat)
    requires i < |calls|
    ensures Run(l, sweeps, calls[..i + 1]) == Step(l, sweeps, Run(l, sweeps, calls[..i]), calls[i])
  {
    assert calls[..i + 1][..i] == calls[..i];
  }

  /* ----- The limiter itself ----- */

  class RateLimiter {
    const rate: real
    const burst: real
    var buckets: map<Str, Bucket>
    var nextCleanup: Option<Time>

    constructor (qps: int, burst: int)
      ensures Limits(rate, this.burst) == Configured(qps, burst) && Table(buckets, nextCleanup) == FRESH
    {
      rate, this.burst := qps as real, burst as real;
      buckets, nextCleanup := map[], None;
    }

    method Allow(ip: Str, now: Time) returns (ok: bool)
      modifies this
      ensures ok <==> Grants(Limits(rate, burst), true, old(Table(buckets, nextCleanup)), Call(ip, now))
      ensures Table(buckets, nextCleanup)
              == Step(Limits(rate, burst), true, old(Table(buckets, nextCleanup)), Call(ip, now))
    {
      if nextCleanup.None? {
        nextCleanup := Some(now + CLEANUP_INTERVAL);
      } else if now > nextCleanup.value {
        Cleanup(now);
        nextCleanup := Some(now + CLEANUP_INTERVAL);
      }
      var b: Bucket;
      if ip in buckets {
        b := buckets[ip];
      } else {
        b := Bucket(burst, now, 0.0);
      }
      var elapsed := now - b.last;
      GainAdds(rate, elapsed, 0.0);
      b := Bucket(Min(burst, b.tokens + elapsed * rate), now, now);
      ok := b.tokens >= 1.0;
      if ok {
        b := b.(tokens := b.tokens - 1.0);
      }
      buckets := buckets[ip := b];
    }

    method Cleanup(now: Time)
      modifies this`buckets
      ensures buckets == Recent(old(buckets), now)
    {
      var todo := buckets.Keys;
      while todo != {}
        invariant todo <= old(buckets).Keys
        invariant buckets == map ip | ip in old(buckets) && (ip in todo || now - old(buckets)[ip].lastSeen <= IDLE_TTL)
                               :: old(buckets)[ip]
        decreases todo
      {
        var ip :| ip in todo;
        if now - buckets[ip].lastSeen > IDLE_TTL {
          buckets := buckets - {ip};
        }
        todo := todo - {ip};
      }
    }
  }

  /* ----- The window bound ----- */

  /** How many calls of a client from the i-th up to, not including, the j-th were allowed. */
  function Count(l: Limits, sweeps: bool, calls: seq<Call>, ip: Str, i: nat, j: nat): nat
    requires i <= j <= |calls|
  {
    if i == j then 0
    else Count(l, sweeps, calls, ip, i, j - 1)
         + if calls[j - 1].ip == ip && Answer(l, sweeps, calls, j - 1) then 1 else 0
  }

  /** Nothing deletes the client's bucket after call i, up to and including call j. */
  predicate Undisturbed(l: Limits, sweeps: bool, calls: seq<Call>, ip: Str, i: nat, j: nat)
    requires i <= j < |calls|
  {
    forall m :: i < m <= j ==> ip in Swept(sweeps, Run(l, sweeps, calls[..m]), calls[m].now).buckets
  }

  lemma SweptKeeps(sweeps: bool, s: Table, now: Time)
    ensures forall ip :: ip in Swept(sweeps, s, now).buckets ==>
              ip in s.buckets && Swept(sweeps, s, now).buckets[ip] == s.buckets[ip]
  {
  }

  /** Refills telescope: the tokens left bound what was handed out since call i. */
  lemma {:induction false} Telescopes(l: Limits, sweeps: bool, calls: seq<Call>, ip: Str, i: nat, j: nat)
    requires i <= j < |calls| && calls[i].ip == ip && Undisturbed(l, sweeps, calls, ip, i, j)
    ensures var s := Run(l, sweeps, calls[..j + 1]);
            && ip in s.buckets
            && s.buckets[ip].tokens + Count(l, sweeps, calls, ip, i, j + 1) as real
               <= l.burst + Gain(l.rate, s.buckets[ip].last - calls[i].now)
  {
    hide Gain, Run;
    GainAdds(l.rate, 0.0, 0.0);
    RunSnoc(l, sweeps, calls, j);
    SweptKeeps(sweeps, Run(l, sweeps, calls[..j]), calls[j].now);
    hide Swept;
    var before := Swept(sweeps, Run(l, sweeps, calls[..j]), calls[j].now);
    if i < j {
      Telescopes(l, sweeps, calls, ip, i, j - 1);
      var b := Run(l, sweeps, calls[..j]).buckets[ip];
      assert before.buckets[ip] == b;
      if calls[j].ip == ip {
        GainAdds(l.rate, b.last - calls[i].now, calls[j].now - b.last);
      }
    } else {
      assert Count(l, sweeps, calls, ip, i, i) == 0;
    }
  }

  /** Whatever the clock readings, a client gets at most `burst` calls, plus `rate` for every second
      between the first and the last of them. */
  lemma WindowBound(l: Limits, sweeps: bool, calls: seq<Call>, ip: Str, i: nat, j: nat)
    requires i <= j < |calls| && calls[i].ip == ip == calls[j].ip && Answer(l, sweeps, calls, j)
    requires Undisturbed(l, sweeps, calls, ip, i, j)
    ensures Count(l, sweeps, calls, ip, i, j + 1) as real <= l.burst + Gain(l.rate, calls[j].now - calls[i].now)
  {
    hide Gain, Run, Swept, Undisturbed, Count;
    Telescopes(l, sweeps, calls, ip, i, j);
    RunSnoc(l, sweeps, calls, j);
  }

  /* ----- When clean-up cannot be observed ----- */

  predicate Monotone(calls: seq<Call>) {
    forall i, j :: 0 <= i < j < |calls| ==> calls[i].now <= calls[j].now
  }

  /** The side condition: ten idle minutes refill a bucket (or nothing is ever granted). */
  predicate IdleRefills(l: Limits) {
    l.burst < 1.0 || l.burst <= IDLE_TTL * l.rate
  }

  /** How a sweeping limiter relates to one that never deletes: it has lost only full buckets. */
  ghost predicate LostOnlyFull(l: Limits, s: Table, u: Table, now: Time) {
    && (forall ip :: ip in s.buckets ==> ip in u.buckets && s.buckets[ip] == u.buckets[ip])
    && (forall ip :: ip in u.buckets ==>
          var b := u.buckets[ip];
          && b.lastSeen == b.last <= now
          && 0.0 <= b.tokens
          && (ip !in s.buckets ==> b.tokens + Gain(l.rate, now - b.last) >= l.burst))
  }

  lemma FullStaysFull(l: Limits, b: Bucket, t: Time, now: Time)
    requires t <= now && l.rate >= 0.0 && b.tokens + Gain(l.rate, t - b.last) >= l.burst
    ensures b.tokens + Gain(l.rate, now - b.last) >= l.burst
  {
    hide Gain;
    GainAdds(l.rate, now - t, t - b.last);
  }

  lemma IdleIsFull(l: Limits, b: Bucket, now: Time)
    requires l.burst <= IDLE_TTL * l.rate && l.burst >= 1.0 && b.tokens >= 0.0 && now - b.last > IDLE_TTL
    ensures b.tokens + Gain(l.rate, now - b.last) >= l.burst
  {
    assert l.rate > 0.0;
    GainAdds(l.rate, now - b.last - IDLE_TTL, IDLE_TTL);
  }

  lemma SweepLosesOnlyFull(l: Limits, s: Table, u: Table, t: Time, now: Time)
    requires l.burst >= 1.0 && IdleRefills(l) && t <= now && LostOnlyFull(l, s, u, t)
    ensures LostOnlyFull(l, Swept(true, s, now), u, now)
  {
    assert l.rate > 0.0;
    hide Gain;
    var s' := Swept(true, s, now);
    forall ip | ip in u.buckets && ip !in s'.buckets
      ensures u.buckets[ip].tokens + Gain(l.rate, now - u.buckets[ip].last) >= l.burst
    {
      if ip in s.buckets {
        IdleIsFull(l, u.buckets[ip], now);
      } else {
        FullStaysFull(l, u.buckets[ip], t, now);
      }
    }
  }

  lemma RefillSame(l: Limits, s: Table, u: Table, c: Call)
    requires l.burst >= 1.0 && l.rate > 0.0 && LostOnlyFull(l, s, u, c.now)
    ensures Refilled(l, s, c) == Refilled(l, u, c) >= 0.0
  {
    hide Gain;
    if c.ip in u.buckets {
      GainAdds(l.rate, c.now - u.buckets[c.ip].last, 0.0);
    }
  }

  lemma AgreeAfter(l: Limits, s: Table, u: Table, c: Call)
    requires l.burst >= 1.0 && l.rate > 0.0 && LostOnlyFull(l, s, u, c.now)
    ensures LostOnlyFull(l, Step(l, false, s, c), Step(l, false, u, c), c.now)
  {
    RefillSame(l, s, u, c);
    hide Gain, Refilled;
  }

  lemma LaterLosesOnlyFull(l: Limits, s: Table, u: Table, t: Time, now: Time)
    requires l.rate > 0.0 && t <= now && LostOnlyFull(l, s, u, t)
    ensures LostOnlyFull(l, s, u, now)
  {
    hide Gain;
    forall ip | ip in u.buckets && ip !in s.buckets
      ensures u.buckets[ip].tokens + Gain(l.rate, now - u.buckets[ip].last) >= l.burst
    {
      FullStaysFull(l, u.buckets[ip], t, now);
    }
  }

  lemma NothingLost(l: Limits, now: Time)
    ensures LostOnlyFull(l, FRESH, FRESH, now)
  {
  }

  lemma StepIsSweepThenServe(l: Limits, s: Table, c: Call)
    ensures Step(l, true, s, c) == Step(l, false, Swept(true, s, c.now), c)
  {
  }

  lemma {:induction false} RunsAgree(l: Limits, calls: seq<Call>, now: Time)
    requires l.burst >= 1.0 && IdleRefills(l) && Monotone(calls)
    requires forall i :: 0 <= i < |calls| ==> calls[i].now <= now
    ensures LostOnlyFull(l, Run(l, true, calls), Run(l, false, calls), now)
  {
    assert l.rate > 0.0;
    hide LostOnlyFull, Refilled, Swept;
    if calls == [] {
      NothingLost(l, now);
    } else {
      var front, c := calls[..|calls| - 1], calls[|calls| - 1];
      RunsAgree(l, front, c.now);
      var s, u := Run(l, true, front), Run(l, false, front);
      SweepLosesOnlyFull(l, s, u, c.now, c.now);
      StepIsSweepThenServe(l, s, c);
      AgreeAfter(l, Swept(true, s, c.now), u, c);
      LaterLosesOnlyFull(l, Run(l, true, calls), Run(l, false, calls), c.now, now);
    }
  }

  /** On every run with an ordered clock, sweeping changes no answer. */
  lemma CleanupUnobservable(l: Limits, calls: seq<Call>, i: nat)
    requires IdleRefills(l) && Monotone(calls) && i < |calls|
    ensures Answer(l, true, calls, i) <==> Answer(l, false, calls, i)
  {
    if l.burst >= 1.0 {
      var front, c := calls[..i], calls[i];
      RunsAgree(l, front, c.now);
      SweepLosesOnlyFull(l, Run(l, true, front), Run(l, false, front), c.now, c.now);
      RefillSame(l, Swept(true, Run(l, true, front), c.now), Run(l, false, front), c);
    }
  }

  /** Without sweeping, no bucket is ever deleted. */
  lemma {:induction false} NeverDeleted(l: Limits, calls: seq<Call>, i: nat, m: nat)
    requires i < m <= |calls|
    ensures calls[i].ip in Run(l, false, calls[..m]).buckets
  {
    RunSnoc(l, false, calls, m - 1);
    if i < m - 1 {
      NeverDeleted(l, calls, i, m - 1);
    }
  }

  lemma {:induction false} CountsAgree(l: Limits, calls: seq<Call>, ip: Str, i: nat, j: nat)
    requires IdleRefills(l) && Monotone(calls) && i <= j <= |calls|
    ensures Count(l, true, calls, ip, i, j) == Count(l, false, calls, ip, i, j)
  {
    hide Answer, Run;
    if i < j {
      CountsAgree(l, calls, ip, i, j - 1);
      CleanupUnobservable(l, calls, j - 1);
    }
  }

  /** So, with an ordered clock and the side condition, the window bound needs no proviso. */
  lemma WindowBoundAlways(l: Limits, calls: seq<Call>, ip: Str, i: nat, j: nat)
    requires IdleRefills(l) && Monotone(calls)
    requires i <= j < |calls| && calls[i].ip == ip == calls[j].ip && Answer(l, true, calls, j)
    ensures Count(l, true, calls, ip, i, j + 1) as real <= l.burst + Gain(l.rate, calls[j].now - calls[i].now)
  {
    hide Gain, Run, Count;
    CleanupUnobservable(l, calls, j);
    CountsAgree(l, calls, ip, i, j + 1);
    forall m | i < m <= j ensures ip in Run(l, false, calls[..m]).buckets {
      NeverDeleted(l, calls, i, m);
    }
    WindowBound(l, false, calls, ip, i, j);
  }

  /* ----- When it can ----- */

  /** A client spends its whole burst, idles for long enough to be forgotten but not to be refilled,
      and spends it again. */
  function Comeback(ip: Str, n: nat, later: Time): seq<Call> {
    seq(2 * n, i => Call(ip, if i < n then 0.0 else later))
  }

  /** The table of the only client, with so many tokens left. */
  function Only(ip: Str, tokens: int, now: Time): Table {
    Table(map[ip := Bucket(tokens as real, now, now)], Some(now + CLEANUP_INTERVAL))
  }

  lemma ServeAtOnce(l: Limits, ip: Str, tokens: int, now: Time)
    requires 1 <= tokens && tokens as real <= l.burst
    ensures Grants(l, true, Only(ip, tokens, now), Call(ip, now))
    ensures Step(l, true, Only(ip, tokens, now), Call(ip, now)) == Only(ip, tokens - 1, now)
  {
    hide Gain;
    GainAdds(l.rate, 0.0, 0.0);
  }

  lemma ServeForgotten(l: Limits, s: Table, ip: Str, n: nat, now: Time)
    requires s == FRESH || (s == Only(ip, 0, 0.0) && now > IDLE_TTL)
    requires 1 <= n && l.burst == n as real
    ensures Grants(l, true, s, Call(ip, now)) && Step(l, true, s, Call(ip, now)) == Only(ip, n - 1, now)
  {
    hide Gain;
    var t := Swept(true, s, now);
    assert t == Table(map[], Some(now + CLEANUP_INTERVAL));
  }

  /** A refused call costs nothing: the client's next call finds what it would have found without it. */
  lemma RefusalsAreFree(l: Limits, s: Table, refused: Call, next: Call)
    requires l.rate >= 0.0 && refused.ip == next.ip && refused.now <= next.now && !Grants(l, false, s, refused)
    requires next.ip in s.buckets ==> s.buckets[next.ip].last <= refused.now
    ensures Refilled(l, Step(l, false, s, refused), next) == Refilled(l, s, next)
  {
    var elapsed := next.now - refused.now;
    GainAdds(l.rate, elapsed, 0.0);
    if next.ip in s.buckets {
      GainAdds(l.rate, refused.now - s.buckets[next.ip].last, elapsed);
    }
    hide Gain;
  }

  /** The sweeping limiter grants all of that run. */
  lemma {:induction false} ComebackGranted(l: Limits, ip: Str, n: nat, later: Time, m: nat)
    requires 1 <= n && l.burst == n as real && later > IDLE_TTL && m <= 2 * n
    ensures Run(l, true, Comeback(ip, n, later)[..m])
            == if m == 0 then FRESH else if m <= n then Only(ip, n - m, 0.0) else Only(ip, 2 * n - m, later)
    ensures m < 2 * n ==> Answer(l, true, Comeback(ip, n, later), m)
  {
    hide Gain, Step, Grants;
    var calls := Comeback(ip, n, later);
    if m > 0 {
      ComebackGranted(l, ip, n, later, m - 1);
      RunSnoc(l, true, calls, m - 1);
      ServeNext(l, ip, n, later, m - 1);
    }
    if m < 2 * n { ServeNext(l, ip, n, later, m); }
  }

  lemma ServeNext(l: Limits, ip: Str, n: nat, later: Time, m: nat)
    requires 1 <= n && l.burst == n as real && later > IDLE_TTL && m < 2 * n
    ensures var s := if m == 0 then FRESH else if m <= n then Only(ip, n - m, 0.0) else Only(ip, 2 * n - m, later);
            var c := Call(ip, if m < n then 0.0 else later);
            && Grants(l, true, s, c)
            && Step(l, true, s, c) == if m < n then Only(ip, n - (m + 1), 0.0) else Only(ip, 2 * n - (m + 1), later)
  {
    hide Gain, Step, Grants, Only;
    if m == 0 {
      ServeForgotten(l, FRESH, ip, n, 0.0);
    } else if m == n {
      ServeForgotten(l, Only(ip, 0, 0.0), ip, n, later);
    } else if m < n {
      ServeAtOnce(l, ip, n - m, 0.0);
    } else {
      ServeAtOnce(l, ip, 2 * n - m, later);
    }
  }

  lemma {:induction false} AllGranted(l: Limits, sweeps: bool, calls: seq<Call>, ip: Str, j: nat)
    requires j <= |calls|
    requires forall i :: 0 <= i < j ==> calls[i].ip == ip && Answer(l, sweeps, calls, i)
    ensures Count(l, sweeps, calls, ip, 0, j) == j
  {
    if j > 0 { AllGranted(l, sweeps, calls, ip, j - 1); }
  }

  /** A limiter that remembers the client refuses one of its calls. */
  lemma ComebackRefused(l: Limits, n: nat, later: Time) returns (i: nat)
    requires 1 <= n && l.burst == n as real && later > IDLE_TTL && Gain(l.rate, later) < l.burst
    ensures i < 2 * n && !Answer(l, false, Comeback([], n, later), i)
  {
    hide Gain, Run, Answer;
    var calls := Comeback([], n, later);
    if forall i :: 0 <= i < |calls| ==> Answer(l, false, calls, i) {
      AllGranted(l, false, calls, [], |calls|);
      forall m | 0 < m < |calls| ensures [] in Run(l, false, calls[..m]).buckets {
        NeverDeleted(l, calls, 0, m);
      }
      WindowBound(l, false, calls, [], 0, |calls| - 1);
      assert false;
    }
    i :| 0 <= i < |calls| && !Answer(l, false, calls, i);
  }

  /** Sweeping goes unnoticed on all runs with an ordered clock exactly when ten idle minutes refill
      a bucket, that is burst <= 600 * qps. */
  lemma UnobservableExactly(qps: int, burst: int)
    ensures var l := Configured(qps, burst);
            (burst < 1 || burst <= 600 * qps)
            <==> forall calls, i | Monotone(calls) && 0 <= i < |calls| ::
                   Answer(l, true, calls, i) <==> Answer(l, false, calls, i)
  {
    var l := Configured(qps, burst);
    hide Run, Answer;
    if burst < 1 || burst <= 600 * qps {
      assert IdleRefills(l);
      forall calls, i: int | Monotone(calls) && 0 <= i < |calls|
        ensures Answer(l, true, calls, i) <==> Answer(l, false, calls, i)
      {
        CleanupUnobservable(l, calls, i);
      }
    } else {
      var later := LongEnough(qps, burst);
      var calls := Comeback([], burst, later);
      var i := ComebackRefused(l, burst, later);
      ComebackGranted(l, [], burst, later, i);
      assert Monotone(calls) && Answer(l, true, calls, i) && !Answer(l, false, calls, i);
    }
  }

  /** A time at which the bucket is idle but not full. */
  function LongEnough(qps: int, burst: int): (t: Time)
    requires 1 <= burst && 600 * qps < burst
    ensures t > IDLE_TTL && Gain(qps as real, t) < burst as real
  {
    if qps <= 0 then
      GainAdds(-(qps as real), IDLE_TTL + 1.0, 0.0);
      IDLE_TTL + 1.0
    else
      var q := qps as real;
      GainAdds(q, IDLE_TTL, HalfToken(q));
      IDLE_TTL + HalfToken(q)
  }

  function HalfToken(rate: real): (t: Time)
    requires rate > 0.0
    ensures t > 0.0 && Gain(rate, t) == 0.5
  {
    0.5 / rate
  }

  /* ----- Nobody else can get a slow client refused ----- */

  predicate Spaced(l: Limits, calls: seq<Call>, ip: Str) {
    forall i, j :: 0 <= i < j < |calls| && calls[i].ip == ip == calls[j].ip ==>
      Gain(l.rate, calls[j].now - calls[i].now) >= 1.0
  }

  /** The client's bucket, if it has one, holds no debt and was last used by an earlier call of it. */
  lemma {:induction false} NoDebt(l: Limits, sweeps: bool, calls: seq<Call>, ip: Str, n: nat)
    requires l.burst >= 1.0 && Spaced(l, calls, ip) && n <= |calls|
    ensures var s := Run(l, sweeps, calls[..n]);
            ip in s.buckets ==>
              && s.buckets[ip].tokens >= 0.0
              && exists i :: 0 <= i < n && calls[i].ip == ip && s.buckets[ip].last == calls[i].now
  {
    if n > 0 {
      NoDebt(l, sweeps, calls, ip, n - 1);
      RunSnoc(l, sweeps, calls, n - 1);
    }
  }

  /** A client whose calls are at least 1/rate apart is never refused, whatever the others do, and
      whatever their clock readings are. */
  lemma SpacedClientNeverRefused(l: Limits, sweeps: bool, calls: seq<Call>, ip: Str, i: nat)
    requires l.burst >= 1.0 && Spaced(l, calls, ip)
    requires i < |calls| && calls[i].ip == ip
    ensures Answer(l, sweeps, calls, i)
  {
    hide Gain, Run;
    NoDebt(l, sweeps, calls, ip, i);
  }
}
