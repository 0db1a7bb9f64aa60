/** Iterative resolution against an arbitrary network: what it costs in upstream queries, whom it asks
    what, and what the answers stitched from several packets lead to. */
module Resolution {
  import opened Wrappers
  import opened Text
  import opened Failures
  import opened NameWalk
  import opened Message
  import opened RoundTrip
  import opened Records
  import opened Trails
  import opened Courses

  /* ----- Resolution ----- */

  /** query: one upstream exchange; an NXDOMAIN or any other non-zero rcode is an error. */
  method Query(w: World, log0: Log, server: Server, name: Str, qtype: u16)
    returns (r: Result<Message, Failure>, log: Log)
    ensures log == log0 + [Asked(server, name, qtype)] && AskedFor(log[|log0|], name, qtype)
    ensures r.Ok? <==> ReplyTo(w, log, |log0|).Some?
    ensures r.Ok? ==> ReplyTo(w, log, |log0|) == Some(r.value)
    ensures r.Err? ==> Explained(w, log, |log0|, name, qtype, r.error)
    ensures Silent(w) ==> r.Err? && TransportError(w, log, r.error)
  {
    hide Reached, ParsedMessage;
    log := log0 + [Asked(server, name, qtype)];
    assert log[..|log0| + 1] == log;
    ReachedItself(w, log, |log0|, name, qtype);
    var packet := w.packet(log);
    if packet.Err? {
      assert SaidAt(w, log, |log0|, packet.error);
      return Err(Upstream(packet.error)), log;
    }
    var m := ParseMessage(packet.value);
    if m.Err? {
      assert SaidAt(w, log, |log0|, w.trouble(log));
      return Err(Upstream(w.trouble(log))), log;
    }
    var rcode := m.value.header.flags % 16;
    if rcode == 3 {
      assert DeniedAt(w, log, |log0|, name, qtype);
      return Err(NxDomain(name)), log;
    }
    if rcode != 0 {
      assert SaidAt(w, log, |log0|, w.trouble(log));
      return Err(Upstream(w.trouble(log))), log;
    }
    return Ok(m.value), log;
  }

  /** One more server in the loop of resolveAt still leaves room for the final referral. */
  lemma ServerStep(b: Bounds, i: nat, k: nat)
    requires i < b.S && k > 0
    ensures Units(i + 1, b, k) == Units(i, b, k) + 1 + Spent(b.N, Cost(b, k - 1))
    ensures Units(i + 1, b, k) + Cost(b, k - 1) <= Cost(b, k)
  {
    var u, c := Unit(b, k), Cost(b, k - 1);
    assert Cost(b, k) == b.S + 2 * b.N * b.S * c + c && u == 1 + 2 * b.N * c;
    hide Cost, Unit;
    UnitSum(b.S, i, u, b.N, c);
  }

  lemma UnitSum(s: nat, i: nat, u: nat, n: nat, c: nat)
    requires i < s && u == 1 + 2 * n * c
    ensures (i + 1) * u == i * u + u && 0 <= i * u && (i + 1) * u <= s * u == s + 2 * n * s * c
  {
    MulAdd(i, 1, u);
    MulAdd(i + 1, s - i - 1, u);
    MulAdd(1, 2 * n * c, s);
    MulSwap(s, 2 * n, c);
  }

  lemma MulAdd(a: nat, b: nat, c: nat)
    ensures (a + b) * c == a * c + b * c && 0 <= a * c && 0 <= b * c
  {
  }

  lemma MulSwap(a: nat, b: nat, c: nat)
    ensures b * c * a == b * a * c
  {
  }

  /** The price of one server that answers with a referral whose names lead nowhere, and of i of them. */
  function Unit(b: Bounds, k: nat): nat
    requires k > 0
  {
    1 + Spent(b.N, Cost(b, k - 1))
  }

  function Units(i: nat, b: Bounds, k: nat): nat
    requires k > 0
  {
    i * Unit(b, k)
  }

  lemma UnitsFit(b: Bounds, i: nat, k: nat)
    requires i <= b.S && k > 0
    ensures Units(0, b, k) == 0 && Units(i, b, k) <= Cost(b, k)
  {
    if i > 0 { ServerStep(b, i - 1, k); }
  }

  /** What the first i name servers may cost at c a lookup, and may bring at a addresses a lookup. */
  function Spent(i: nat, c: nat): nat {
    2 * i * c
  }

  function Brought(i: nat, a: nat): nat {
    i * a
  }

  lemma NameStep(i: nat, n: nat, c: nat, a: nat)
    requires i <= n
    ensures Spent(0, c) == 0 && Brought(0, a) == 0
    ensures Spent(i + 1, c) == Spent(i, c) + 2 * c && Spent(i, c) <= Spent(n, c)
    ensures Brought(i + 1, a) == Brought(i, a) + a && Brought(i, a) <= Brought(n, a)
  {
    MulAdd(i, 1, c);
    MulAdd(i, n - i, c);
    MulAdd(i, 1, a);
    MulAdd(i, n - i, a);
  }

  const NO_MESSAGE: Message := Message(Header(0, 0, 0, 0, 0, 0), [], [], [], [], [])

  lemma ReplyWithin(w: World, log: Log, at: nat, b: Bounds)
    requires Within(w, b) && at < |log| && ReplyTo(w, log, at).Some?
    ensures var m := ReplyTo(w, log, at).value;
            FromPacket(m) && MessageWithin(m, b) && |NsNames(m, |m.authority|)| <= b.N
  {
    hide MessageWithin;
    assert ParsedMessage(w.packet(log[..at + 1]).value) == Ok(ReplyTo(w, log, at).value);
    WithinNames(ReplyTo(w, log, at).value, b);
  }

  lemma WithinNames(m: Message, b: Bounds)
    requires MessageWithin(m, b)
    ensures |NsNames(m, |m.authority|)| <= b.N
  {
    hide NsNames;
  }

  lemma {:induction false} LastWithin(w: World, log: Log, from: nat, name: Str, qtype: u16, t: Trail, b: Bounds)
    requires Within(w, b) && Followed(w, log, from, name, qtype, t)
    ensures MessageWithin(t.last, b)
    decreases |t.hops|
  {
    hide MessageWithin, AliasFor, ReplyTo;
    if t.hops == [] {
      if AskedFor(log[t.lastAt], name, qtype) { ReplyWithin(w, log, t.lastAt, b); }
    } else {
      HopIsCname(w, log, t.hops[0], name, qtype);
      LastWithin(w, log, t.hops[0].at + 1, TargetOf(t.hops[0]).value, qtype, t.(hops := t.hops[1..]), b);
    }
  }

  /** A referral's glue, and how it was learned. */
  lemma GlueLearned(w: World, log: Log, at: nat, b: Bounds)
    requires Within(w, b) && at < |log| && ReplyTo(w, log, at).Some?
    ensures var m := ReplyTo(w, log, at).value;
            var glue := Glue(m.additional, NsNames(m, |m.authority|));
            |glue| <= b.S && AllLearned(w, log, glue)
  {
    ReplyWithin(w, log, at, b);
    var m := ReplyTo(w, log, at).value;
    var glue := Glue(m.additional, NsNames(m, |m.authority|));
    hide Glue, NsNames, ReplyTo;
    forall k | 0 <= k < |glue| ensures Learned(w, log, glue[k]) {
      assert Glued(w, log, at, glue[k]);
    }
  }

  lemma LevelDown(maxDepth: nat, depth: nat)
    ensures depth <= maxDepth ==> LevelsLeft(maxDepth, depth + 1) == LevelsLeft(maxDepth, depth) - 1 >= 0
    ensures depth > maxDepth ==> LevelsLeft(maxDepth, depth) == 0
  {
  }

  lemma FoundIsLearned(w: World, log: Log, at: nat, ns: Str, server: Server)
    requires Refers(w, log, at, ns) && AddressFound(w, log, at, ns, server)
    ensures Learned(w, log, server)
  {
    hide Refers, AddressFound, Glued;
  }

  /** resolveAt, for every behaviour of the network and the cache: at most Cost(b, levels left) upstream
      queries, all of them to the given servers or to servers learned on the way; and an answer is
      built from a trail of followed aliases that starts with a question for this name. */
  method ResolveAt(w: World, maxDepth: nat, name: Str, qtype: u16, servers: seq<Server>, depth: nat,
                   log0: Log, ghost b: Bounds)
    returns (r: Result<Message, Failure>, log: Log, ghost t: Trail, ghost levels: seq<seq<nat>>)
    requires Within(w, b) && |servers| <= b.S
    ensures log0 <= log && Asks(log) <= Asks(log0) + Cost(b, LevelsLeft(maxDepth, depth))
    ensures r.Ok? ==> Followed(w, log, |log0|, name, qtype, t) && r.value == Built(t)
    ensures r.Ok? ==> |t.hops| <= LevelsLeft(maxDepth, depth)
    ensures Justified(w, log, |log0|, servers)
    ensures servers != [] && depth <= maxDepth ==> |log| > |log0| && log[|log0|] == Asked(servers[0], name, qtype)
    ensures depth > maxDepth ==> log == log0 && r == Err(DepthExceeded(name))
    ensures r.Err? ==> Explained(w, log, |log0|, name, qtype, r.error)
    ensures Went(w, log, |log0|, name, qtype, servers, depth, maxDepth, levels)
    ensures r.Ok? <==> Arrives(w, log, qtype, levels)
    ensures Silent(w) && servers != [] && depth <= maxDepth ==>
              exists last :: TransportError(w, log, last) && r == Err(AllFailed(name, Some(last)))
    decreases LevelsLeft(maxDepth, depth), 5
  {
    hide *;
    LevelDown(maxDepth, depth);
    JustifiedStart(w, log0, servers);
    log, t, levels := log0, Trail([], 0, NO_MESSAGE), [];
    if depth > maxDepth {
      DepthExplained(w, log, name, qtype);
      WentTooDeep(w, log, |log0|, name, qtype, servers, depth, maxDepth);
      return Err(DepthExceeded(name)), log, t, levels;
    }
    ghost var asked: seq<nat> := [];
    ghost var k := LevelsLeft(maxDepth, depth);
    var lastErr: Option<Failure> := None;
    Setout(w, b, k, log0, name, qtype, servers);
    for i := 0 to |servers|
      invariant Underway(w, b, k, log0, log, name, qtype, servers, i, asked, lastErr)
    {
      ServerStep(b, i, k);
      ghost var at, ahead := |log|, log;
      var resp;
      resp, log := Query(w, log, servers[i], name, qtype);
      JustifiedStart(w, log, []);
      OneTurn(w, b, k, log0, ahead, log, name, qtype, servers, i, asked, lastErr, 0);
      if resp.Err? {
        NoReplyIsDead(w, log, at);
        ExplainedEarlier(w, log, at, |log0|, name, qtype, resp.error);
        asked := DeadToo(w, ahead, log, |log0|, name, qtype, servers, asked);
        StillUnderway(w, b, k, log0, log, name, qtype, servers, i + 1, asked, resp.error);
        lastErr := Some(resp.error);
        continue;
      }
      var m := resp.value;
      ReplyWithin(w, log, at, b);
      IsFinal(m, qtype);
      ghost var replied := log;

      if |m.answers| > 0 {
        var c := FirstCname(m.answers);
        if qtype != TYPE_CNAME && c < |m.answers| {
          r, log, t, levels := FollowAlias(w, maxDepth, name, qtype, m, m.answers[c], depth, log, at, b);
          OneTurn(w, b, k, log0, ahead, log, name, qtype, servers, i, asked, lastErr, Cost(b, k - 1));
          levels := TookTurn(w, ahead, log, |log0|, name, qtype, servers, depth, maxDepth, asked, levels);
          if r.Ok? { FollowedEarlier(w, log, at, |log0|, name, qtype, t); }
          if r.Err? { ExplainedEarlier(w, log, at, |log0|, name, qtype, r.error); }
          return;
        }
        t, levels := Answered(w, ahead, log, |log0|, m, name, qtype, servers, depth, maxDepth, asked);
        return Ok(m), log, t, levels;
      }

      var nsNames := ExtractNS(m);
      if |nsNames| == 0 {
        t, levels := Answered(w, ahead, log, |log0|, m, name, qtype, servers, depth, maxDepth, asked);
        return Ok(m), log, t, levels;
      }

      var next;
      next, log := NextServers(w, maxDepth, m, nsNames, depth, log, at, b);
      OneTurn(w, b, k, log0, ahead, log, name, qtype, servers, i, asked, lastErr, Spent(b.N, Cost(b, k - 1)));
      if next.Err? {
        NoAddressesExplained(w, log, |replied|, |log0|, name, qtype, next.error);
        NoServersIsDead(w, log, at);
        asked := DeadToo(w, ahead, log, |log0|, name, qtype, servers, asked);
        StillUnderway(w, b, k, log0, log, name, qtype, servers, i + 1, asked, next.error);
        lastErr := Some(next.error);
        continue;
      }
      ghost var found := log;
      r, log, t, levels := ResolveAt(w, maxDepth, name, qtype, next.value, depth + 1, log, b);
      ReplyLater(w, replied, found, at);
      levels := SentOn(w, ahead, found, log, |log0|, m, name, qtype, servers, depth, maxDepth, asked, next.value,
                       levels);
      JustifiedJoin(w, found, log, |log0|, servers, next.value);
      if r.Ok? { FollowedEarlier(w, log, |found|, |log0|, name, qtype, t); }
      if r.Err? { ExplainedEarlier(w, log, |found|, |log0|, name, qtype, r.error); }
      return;
    }
    levels := Exhausted(w, b, k, log0, log, name, qtype, servers, asked, lastErr, depth, maxDepth);
    return Err(AllFailed(name, lastErr)), log, t, levels;
  }

  /** Before the i-th server is asked: the price of the servers so far, whom else they led to asking, that nothing
      came of any of them, and why. */
  ghost predicate Underway(w: World, b: Bounds, k: nat, log0: Log, log: Log, name: Str, qtype: u16,
                           servers: seq<Server>, i: nat, asked: seq<nat>, lastErr: Option<Failure>)
    requires k > 0
  {
    && log0 <= log && Asks(log) <= Asks(log0) + Units(i, b, k) && Justified(w, log, |log0|, servers)
    && (if i == 0 then log == log0
        else servers != [] && |log| > |log0| && log[|log0|] == Asked(servers[0], name, qtype))
    && |asked| == i && AllDead(w, log, |log0|, name, qtype, servers, asked)
    && (lastErr.Some? ==> Explained(w, log, |log0|, name, qtype, lastErr.value))
    && (Silent(w) && i > 0 ==> lastErr.Some? && TransportError(w, log, lastErr.value))
  }

  lemma UnderwayMeans(w: World, b: Bounds, k: nat, log0: Log, log: Log, name: Str, qtype: u16, servers: seq<Server>,
                      i: nat, asked: seq<nat>, lastErr: Option<Failure>)
    requires k > 0 && Underway(w, b, k, log0, log, name, qtype, servers, i, asked, lastErr)
    ensures log0 <= log && Asks(log) <= Asks(log0) + Units(i, b, k) && Justified(w, log, |log0|, servers)
    ensures if i == 0 then log == log0
            else servers != [] && |log| > |log0| && log[|log0|] == Asked(servers[0], name, qtype)
    ensures |asked| == i && AllDead(w, log, |log0|, name, qtype, servers, asked)
    ensures lastErr.Some? ==> Explained(w, log, |log0|, name, qtype, lastErr.value)
    ensures Silent(w) && i > 0 ==> lastErr.Some? && TransportError(w, log, lastErr.value)
  {
    hide Asks, Units, Justified, AllDead, Explained, Silent, TransportError;
  }

  lemma Setout(w: World, b: Bounds, k: nat, log0: Log, name: Str, qtype: u16, servers: seq<Server>)
    requires k > 0
    ensures Underway(w, b, k, log0, log0, name, qtype, servers, 0, [], None)
  {
    JustifiedStart(w, log0, servers);
    NobodyAsked(w, log0, name, qtype, servers);
    UnitsFit(b, 0, k);
    hide Asks, Units, Justified, AllDead, Explained, Silent, TransportError;
  }

  /** The question to the next server, and what it leads to. */
  lemma OneTurn(w: World, b: Bounds, k: nat, log0: Log, ahead: Log, log: Log, name: Str, qtype: u16,
                servers: seq<Server>, i: nat, asked: seq<nat>, lastErr: Option<Failure>, spent: nat)
    requires k > 0 && Underway(w, b, k, log0, ahead, name, qtype, servers, i, asked, lastErr) && i < |servers|
    requires ahead + [Asked(servers[i], name, qtype)] <= log && Justified(w, log, |ahead| + 1, [])
    requires Asks(log) <= Asks(ahead + [Asked(servers[i], name, qtype)]) + spent
    ensures log0 <= log && Asks(log) <= Asks(log0) + Units(i, b, k) + 1 + spent
    ensures Justified(w, log, |log0|, servers)
    ensures |log| > |log0| && log[|log0|] == Asked(servers[0], name, qtype)
    ensures |asked| == i && AllDead(w, ahead, |log0|, name, qtype, servers, asked)
    ensures |log0| <= |ahead| && (asked == [] ==> |log0| == |ahead|)
  {
    hide *;
    UnderwayMeans(w, b, k, log0, ahead, name, qtype, servers, i, asked, lastErr);
    var e := Asked(servers[i], name, qtype);
    AsksMore(ahead, e);
    JustifiedStep(w, ahead, e, |log0|, servers);
    NoneLearned(w, ahead + [e]);
    JustifiedJoin(w, ahead + [e], log, |log0|, servers, []);
  }

  /** Nothing has come of it. */
  lemma DeadToo(w: World, ahead: Log, log: Log, from: nat, name: Str, qtype: u16, servers: seq<Server>, asked: seq<nat>)
    returns (more: seq<nat>)
    requires AllDead(w, ahead, from, name, qtype, servers, asked) && |asked| < |servers|
    requires ahead + [Asked(servers[|asked|], name, qtype)] <= log && from <= |ahead|
             && (asked == [] ==> from == |ahead|)
    requires Dead(w, log, |ahead|)
    ensures more == asked + [|ahead|] && |more| == |asked| + 1
    ensures AllDead(w, log, from, name, qtype, servers, more)
  {
    hide *;
    TriedNext(w, ahead, log, from, name, qtype, servers, asked);
    more := asked + [|ahead|];
  }

  lemma StillUnderway(w: World, b: Bounds, k: nat, log0: Log, log: Log, name: Str, qtype: u16, servers: seq<Server>,
                      i: nat, asked: seq<nat>, e: Failure)
    requires k > 0 && log0 <= log && Asks(log) <= Asks(log0) + Units(i, b, k) && Justified(w, log, |log0|, servers)
    requires i > 0 && servers != [] && |log| > |log0| && log[|log0|] == Asked(servers[0], name, qtype)
    requires |asked| == i && AllDead(w, log, |log0|, name, qtype, servers, asked)
    requires Explained(w, log, |log0|, name, qtype, e) && (Silent(w) ==> TransportError(w, log, e))
    ensures Underway(w, b, k, log0, log, name, qtype, servers, i, asked, Some(e))
  {
    hide Asks, Units, Justified, AllDead, Explained, Silent, TransportError;
  }

  lemma TookTurn(w: World, ahead: Log, log: Log, from: nat, name: Str, qtype: u16, servers: seq<Server>, depth: nat,
                 maxDepth: nat, asked: seq<nat>, rest: seq<seq<nat>>)
    returns (levels: seq<seq<nat>>)
    requires depth <= maxDepth && from <= |ahead| && (asked == [] ==> from == |ahead|) && |asked| < |servers|
    requires AllDead(w, ahead, from, name, qtype, servers, asked)
    requires ahead + [Asked(servers[|asked|], name, qtype)] <= log
    requires Turned(w, log, |ahead|, name, qtype, depth, maxDepth, rest)
    ensures Went(w, log, from, name, qtype, servers, depth, maxDepth, levels)
    ensures Arrives(w, log, qtype, levels)
            <==> if rest == [] then ArrivesAt(w, log, qtype, |ahead|) else Arrives(w, log, qtype, rest)
  {
    hide *;
    TriedNext(w, ahead, log, from, name, qtype, servers, asked);
    levels := [asked + [|ahead|]] + rest;
    WentOn(w, log, from, name, qtype, servers, depth, maxDepth, asked + [|ahead|], rest);
  }

  /** Nothing has come of any server. */
  lemma Exhausted(w: World, b: Bounds, k: nat, log0: Log, log: Log, name: Str, qtype: u16, servers: seq<Server>,
                  asked: seq<nat>, lastErr: Option<Failure>, depth: nat, maxDepth: nat)
    returns (levels: seq<seq<nat>>)
    requires depth <= maxDepth && k > 0 && |servers| <= b.S
    requires Underway(w, b, k, log0, log, name, qtype, servers, |servers|, asked, lastErr)
    ensures Went(w, log, |log0|, name, qtype, servers, depth, maxDepth, levels) && !Arrives(w, log, qtype, levels)
    ensures Explained(w, log, |log0|, name, qtype, AllFailed(name, lastErr))
    ensures log0 <= log && Asks(log) <= Asks(log0) + Cost(b, k) && Justified(w, log, |log0|, servers)
    ensures servers != [] ==> |log| > |log0| && log[|log0|] == Asked(servers[0], name, qtype)
    ensures Silent(w) && servers != [] ==> lastErr.Some? && TransportError(w, log, lastErr.value)
  {
    hide *;
    UnderwayMeans(w, b, k, log0, log, name, qtype, servers, |servers|, asked, lastErr);
    UnitsFit(b, |servers|, k);
    AllFailedExplained(w, log, |log0|, name, qtype, lastErr);
    WentNowhere(w, log, |log0|, name, qtype, servers, depth, maxDepth, asked);
    levels := [asked];
  }

  lemma IsFinal(m: Message, qtype: u16)
    ensures m.answers == [] && NsNames(m, |m.authority|) == [] ==> Final(m, qtype)
    ensures m.answers != [] && (qtype == TYPE_CNAME || FirstCname(m.answers) == |m.answers|) ==> Final(m, qtype)
  {
    hide NsNames, Parsed, HasTerminal;
  }

  lemma NoReplyIsDead(w: World, log: Log, at: nat)
    requires at < |log| && ReplyTo(w, log, at).None?
    ensures Dead(w, log, at)
  {
    hide ReplyTo;
  }

  lemma NoServersIsDead(w: World, log: Log, at: nat)
    requires Servers(w, log, at, [])
    ensures Dead(w, log, at)
  {
    hide ReplyTo;
  }

  /** The last reply is the answer. */
  lemma Answered(w: World, ahead: Log, log: Log, from: nat, m: Message, name: Str, qtype: u16, servers: seq<Server>,
                 depth: nat, maxDepth: nat, asked: seq<nat>)
    returns (t: Trail, levels: seq<seq<nat>>)
    requires depth <= maxDepth && from <= |ahead| && (asked == [] ==> from == |ahead|) && |asked| < |servers|
    requires AllDead(w, ahead, from, name, qtype, servers, asked)
    requires log == ahead + [Asked(servers[|asked|], name, qtype)]
    requires ReplyTo(w, log, |ahead|) == Some(m) && Final(m, qtype)
    ensures Followed(w, log, from, name, qtype, t) && Built(t) == m && t.hops == []
    ensures Went(w, log, from, name, qtype, servers, depth, maxDepth, levels) && Arrives(w, log, qtype, levels)
  {
    hide *;
    var at := |ahead|;
    LastAsked(log, ahead, servers[|asked|], name, qtype);
    FinalReply(w, log, at, m, qtype);
    t := ReplyIsTrail(w, log, from, at, name, qtype);
    TriedNext(w, ahead, log, from, name, qtype, servers, asked);
    TurnedAtOnce(w, log, at, m, name, qtype, depth, maxDepth);
    levels := [asked + [at]] + [];
    WentOn(w, log, from, name, qtype, servers, depth, maxDepth, asked + [at], []);
  }

  lemma LastAsked(log: Log, ahead: Log, server: Server, name: Str, qtype: u16)
    requires log == ahead + [Asked(server, name, qtype)]
    ensures AskedFor(log[|ahead|], name, qtype)
  {
  }

  /** The last reply was a referral, and its servers have been asked. */
  lemma SentOn(w: World, ahead: Log, found: Log, log: Log, from: nat, m: Message, name: Str, qtype: u16,
               servers: seq<Server>, depth: nat, maxDepth: nat, asked: seq<nat>, next: seq<Server>, rest: seq<seq<nat>>)
    returns (levels: seq<seq<nat>>)
    requires depth <= maxDepth && from <= |ahead| && (asked == [] ==> from == |ahead|) && |asked| < |servers|
    requires AllDead(w, ahead, from, name, qtype, servers, asked)
    requires ahead + [Asked(servers[|asked|], name, qtype)] <= found <= log
    requires Servers(w, found, |ahead|, next) && next != [] && ReplyTo(w, found, |ahead|) == Some(m)
    requires Glue(m.additional, NsNames(m, |m.authority|)) != [] ==> |found| == |ahead| + 1
    requires Went(w, log, |found|, name, qtype, next, depth + 1, maxDepth, rest)
    ensures Went(w, log, from, name, qtype, servers, depth, maxDepth, levels)
    ensures Arrives(w, log, qtype, levels) <==> Arrives(w, log, qtype, rest)
  {
    hide *;
    var at := |ahead|;
    ServersLater(w, found, log, at, next);
    ReplyLater(w, found, log, at);
    TriedNext(w, ahead, log, from, name, qtype, servers, asked);
    DelegatedOn(w, log, at, name, qtype, depth, maxDepth, rest, next, |found|);
    levels := [asked + [at]] + rest;
    WentOn(w, log, from, name, qtype, servers, depth, maxDepth, asked + [at], rest);
    NoArrivalYet(w, log, qtype);
  }

  lemma NoArrivalYet(w: World, log: Log, qtype: u16)
    ensures !Arrives(w, log, qtype, [])
  {
  }

  lemma DepthExplained(w: World, log: Log, name: Str, qtype: u16)
    ensures Explained(w, log, |log|, name, qtype, DepthExceeded(name))
  {
    hide Reached;
    ReachedItself(w, log, |log|, name, qtype);
  }

  lemma AllFailedExplained(w: World, log: Log, from: nat, name: Str, qtype: u16, last: Option<Failure>)
    requires last.Some? ==> Explained(w, log, from, name, qtype, last.value)
    ensures Explained(w, log, from, name, qtype, AllFailed(name, last))
  {
    hide Reached, DeniedAt, SaidAt;
    ReachedItself(w, log, from, name, qtype);
  }

  ghost predicate FoundNobody(log: Log, from: nat, f: Failure) {
    f.NoAddresses? && LookedUpSince(log, from, f.ns)
  }

  lemma NoAddressesExplained(w: World, log: Log, from: nat, from': nat, name: Str, qtype: u16, f: Failure)
    requires FoundNobody(log, from, f) && from' <= from
    ensures Explained(w, log, from', name, qtype, f)
  {
  }

  /** Whom a referral sends us to: its glue, and without any the addresses of its name servers. */
  method NextServers(w: World, maxDepth: nat, m: Message, nsNames: seq<Str>, depth: nat, log0: Log, ghost at: nat,
                     ghost b: Bounds)
    returns (r: Result<seq<Server>, Failure>, log: Log)
    requires Within(w, b) && depth <= maxDepth && at + 1 == |log0| && ReplyTo(w, log0, at) == Some(m)
    requires m.answers == [] && nsNames == NsNames(m, |m.authority|) && nsNames != []
    ensures log0 <= log && Asks(log) <= Asks(log0) + Spent(b.N, Cost(b, LevelsLeft(maxDepth, depth + 1)))
    ensures r.Ok? ==> 0 < |r.value| <= b.S && AllLearned(w, log, r.value)
    ensures Glue(m.additional, nsNames) != [] ==> log == log0 && r == Ok(Glue(m.additional, nsNames))
    ensures r.Err? ==> FoundNobody(log, |log0|, r.error)
    ensures Servers(w, log, at, if r.Ok? then r.value else [])
    ensures Justified(w, log, |log0|, [])
    decreases LevelsLeft(maxDepth, depth), 4
  {
    hide *;
    JustifiedStart(w, log0, []);
    GlueLearned(w, log0, at, b);
    ReplyWithin(w, log0, at, b);
    IsReferralTo(w, log0, at, m);
    var glue := Glue(m.additional, nsNames);
    if |glue| > 0 {
      GlueServers(w, log0, at, m);
      return Ok(glue), log0;
    }
    ghost var parts;
    r, log, parts := ResolveNSParallel(w, maxDepth, nsNames, depth, log0, at, b);
    ReplyLater(w, log0, log, at);
    FoundServers(w, log, at, m, parts);
  }

  lemma GlueServers(w: World, log: Log, at: nat, m: Message)
    requires at < |log| && ReplyTo(w, log, at) == Some(m) && m.answers == [] && NsNames(m, |m.authority|) != []
    requires Glue(m.additional, NsNames(m, |m.authority|)) != []
    ensures Servers(w, log, at, Glue(m.additional, NsNames(m, |m.authority|)))
  {
    hide ReplyTo, NsNames, Glue, Gathered;
  }

  lemma FoundServers(w: World, log: Log, at: nat, m: Message, parts: seq<seq<Server>>)
    requires at < |log| && ReplyTo(w, log, at) == Some(m) && m.answers == [] && NsNames(m, |m.authority|) != []
    requires Glue(m.additional, NsNames(m, |m.authority|)) == []
    requires Gathered(w, log, at + 1, NsNames(m, |m.authority|), parts)
    ensures Servers(w, log, at, Flat(parts))
  {
    hide ReplyTo, NsNames, Glue, Gathered;
  }

  lemma IsReferralTo(w: World, log: Log, at: nat, m: Message)
    requires at < |log| && ReplyTo(w, log, at) == Some(m)
    ensures Referral(w, log, at, NsNames(m, |m.authority|))
  {
    hide ReplyTo, NsNames;
  }

  /** A reply taken as it is. */
  lemma ReplyIsTrail(w: World, log: Log, from: nat, at: nat, name: Str, qtype: u16) returns (t: Trail)
    requires from <= at < |log| && AskedFor(log[at], name, qtype) && FinalAt(w, log, at, qtype)
    ensures t.hops == [] && Followed(w, log, from, name, qtype, t) && Built(t) == ReplyTo(w, log, at).value
  {
    hide ReplyTo, Final;
    t := Trail([], at, ReplyTo(w, log, at).value);
  }

  /** The CNAME branch of resolveAt, for the reply at the end of the log: the target is looked up in the
      cache and resolved from the roots, which is what resolveNSAddr does for a name server. */
  method FollowAlias(w: World, maxDepth: nat, name: Str, qtype: u16, m: Message, rr: RR, depth: nat,
                     log0: Log, ghost at: nat, ghost b: Bounds)
    returns (r: Result<Message, Failure>, log: Log, ghost t: Trail, ghost rest: seq<seq<nat>>)
    requires Within(w, b) && depth <= maxDepth && qtype != TYPE_CNAME
    requires |log0| == at + 1 && AskedFor(log0[at], name, qtype) && ReplyTo(w, log0, at) == Some(m)
    requires FirstCname(m.answers) < |m.answers| && rr == m.answers[FirstCname(m.answers)]
    ensures log0 <= log && Asks(log) <= Asks(log0) + Cost(b, LevelsLeft(maxDepth, depth + 1))
    ensures r.Ok? ==> Followed(w, log, at, name, qtype, t) && r.value == Built(t)
    ensures r.Ok? ==> |t.hops| <= LevelsLeft(maxDepth, depth)
    ensures r.Err? ==> Explained(w, log, at, name, qtype, r.error)
    ensures Turned(w, log, at, name, qtype, depth, maxDepth, rest)
    ensures r.Ok? <==> if rest == [] then ArrivesAt(w, log, qtype, at) else Arrives(w, log, qtype, rest)
    ensures Justified(w, log, |log0|, [])
    decreases LevelsLeft(maxDepth, depth), 1
  {
    hide *;
    LevelDown(maxDepth, depth);
    JustifiedStart(w, log0, []);
    log, t, rest := log0, Trail([], 0, NO_MESSAGE), [];
    var parsed := ParseName(m.raw, rr.offset);
    if parsed.Err? {
      BadTargetExplained(w, log, at, m, name, qtype);
      TurnedNowhere(w, log, at, m, name, qtype, depth, maxDepth);
      return Err(BadTarget), log, t, rest;
    }
    var target := parsed.value.0;
    if HasTerminal(m.answers, target, qtype) {
      TerminalIsFinal(m, qtype, target);
      TurnedAtOnce(w, log, at, m, name, qtype, depth, maxDepth);
      FinalReply(w, log, at, m, qtype);
      t := ReplyIsTrail(w, log, at, at, name, qtype);
      return Ok(m), log, t, rest;
    }
    r, log, t, rest := ResolveNSAddr(w, maxDepth, target, qtype, depth, log0, b);
    LookupAt(w, log0, log, target, qtype);
    ghost var h := AliasHop(at, Alias(rr, m.raw));
    ReplyLater(w, log0, log, at);
    ReplyOffsets(w, log, at, FirstCname(m.answers));
    HopTaken(w, log, h, m, name, qtype, target);
    TurnedByAlias(w, log, h, name, qtype, depth, maxDepth, rest);
    NoArrivalYet(w, log, qtype);
    if r.Err? {
      ExplainedByAlias(w, log, h, name, qtype, r.error);
      return;
    }
    HopInFront(w, log, h, name, qtype, t);
    var out := PrependCNAME(rr, m.raw, r.value);
    t := t.(hops := [h] + t.hops);
    return Ok(out), log, t, rest;
  }

  lemma TerminalIsFinal(m: Message, qtype: u16, target: Str)
    requires FirstCname(m.answers) < |m.answers| && HasTerminal(m.answers, target, qtype)
    requires Parsed(m.raw, m.answers[FirstCname(m.answers)].offset).Ok?
             && Parsed(m.raw, m.answers[FirstCname(m.answers)].offset).value.0 == target
    ensures Final(m, qtype)
  {
    hide Parsed, NsNames;
  }

  lemma FinalReply(w: World, log: Log, at: nat, m: Message, qtype: u16)
    requires at < |log| && ReplyTo(w, log, at) == Some(m) && Final(m, qtype)
    ensures FinalAt(w, log, at, qtype)
  {
    hide ReplyTo, Final;
  }

  lemma LookupAt(w: World, log0: Log, log: Log, name: Str, qtype: u16)
    requires log0 + [LookedUp(name, qtype)] <= log
    ensures log[..|log0| + 1] == log0 + [LookedUp(name, qtype)]
  {
  }

  lemma BadTargetExplained(w: World, log: Log, at: nat, m: Message, name: Str, qtype: u16)
    requires at < |log| && ReplyTo(w, log, at) == Some(m) && FirstCname(m.answers) < |m.answers|
    requires Parsed(m.raw, m.answers[FirstCname(m.answers)].offset).Err?
    ensures Explained(w, log, at, name, qtype, BadTarget)
  {
    hide ReplyTo, FirstCname, Parsed;
    assert UnreadableAliasAt(w, log, at);
  }

  lemma ReplyOffsets(w: World, log: Log, at: nat, k: nat)
    requires at < |log| && ReplyTo(w, log, at).Some? && k < |ReplyTo(w, log, at).value.answers|
    ensures ReplyTo(w, log, at).value.answers[k].offset >= 12
  {
    AnswerOffsets(w.packet(log[..at + 1]).value, k);
  }

  lemma HopTaken(w: World, log: Log, h: AliasHop, m: Message, name: Str, qtype: u16, target: Str)
    requires h.at + 1 < |log| && AskedFor(log[h.at], name, qtype) && ReplyTo(w, log, h.at) == Some(m)
    requires FirstCname(m.answers) < |m.answers| && h.alias == Alias(m.answers[FirstCname(m.answers)], m.raw)
    requires h.alias.rr.offset >= 12
    requires Parsed(m.raw, h.alias.rr.offset).Ok? && Parsed(m.raw, h.alias.rr.offset).value.0 == target
    requires !HasTerminal(m.answers, target, qtype) && log[h.at + 1] == LookedUp(target, qtype)
    ensures AliasFor(w, log, h, name, qtype) && TargetOf(h) == Some(target)
  {
    hide *;
    TargetRead(h, target);
    IsAliasFor(w, log, h, m, name, qtype, target);
  }

  lemma IsAliasFor(w: World, log: Log, h: AliasHop, m: Message, name: Str, qtype: u16, target: Str)
    requires h.at + 1 < |log| && AskedFor(log[h.at], name, qtype) && ReplyTo(w, log, h.at) == Some(m)
    requires FirstCname(m.answers) < |m.answers| && h.alias == Alias(m.answers[FirstCname(m.answers)], m.raw)
    requires TargetOf(h) == Some(target) && !HasTerminal(m.answers, target, qtype)
    requires log[h.at + 1] == LookedUp(target, qtype)
    ensures AliasFor(w, log, h, name, qtype)
  {
    hide ReplyTo, HasTerminal, FirstCname, TargetOf, AskedFor;
  }

  lemma TargetRead(h: AliasHop, target: Str)
    requires h.alias.rr.offset >= 12 && h.alias.rr.rtype == TYPE_CNAME
    requires Parsed(h.alias.raw, h.alias.rr.offset).Ok? && Parsed(h.alias.raw, h.alias.rr.offset).value.0 == target
    ensures TargetOf(h) == Some(target)
  {
    hide Parsed;
  }

  lemma HitIsTrail(w: World, log: Log, name: Str, qtype: u16) returns (t: Trail)
    requires log != [] && log[|log| - 1] == LookedUp(name, qtype) && w.cached(log).Hit?
    ensures t.hops == [] && Followed(w, log, |log| - 1, name, qtype, t) && Built(t) == w.cached(log).msg
  {
    assert log[..|log| - 1 + 1] == log;
    t := Trail([], |log| - 1, w.cached(log).msg);
  }

  lemma RootsLearned(w: World, log: Log)
    ensures AllLearned(w, log, ROOT_SERVERS)
  {
    hide Glued, Refers, AddressFound;
  }

  /** resolveNSAddr: the cache first, the roots otherwise. */
  method ResolveNSAddr(w: World, maxDepth: nat, ns: Str, qtype: u16, depth: nat, log0: Log, ghost b: Bounds)
    returns (r: Result<Message, Failure>, log: Log, ghost t: Trail, ghost levels: seq<seq<nat>>)
    requires Within(w, b) && depth <= maxDepth
    ensures log0 + [LookedUp(ns, qtype)] <= log
    ensures Asks(log) <= Asks(log0) + Cost(b, LevelsLeft(maxDepth, depth + 1))
    ensures r.Ok? ==> Followed(w, log, |log0|, ns, qtype, t) && r.value == Built(t)
    ensures r.Ok? ==> |t.hops| <= LevelsLeft(maxDepth, depth + 1)
    ensures w.cached(log0 + [LookedUp(ns, qtype)]).Miss? || log == log0 + [LookedUp(ns, qtype)]
    ensures r.Err? ==> Explained(w, log, |log0|, ns, qtype, r.error)
    ensures var cached := w.cached(log0 + [LookedUp(ns, qtype)]);
            && (cached.Hit? ==> r == Ok(cached.msg) && levels == [])
            && (cached.Negative? ==> r == Err(NxDomain(ns)) && levels == [])
            && (cached.Miss? ==>
                  && Went(w, log, |log0| + 1, ns, qtype, ROOT_SERVERS, depth + 1, maxDepth, levels)
                  && (r.Ok? <==> Arrives(w, log, qtype, levels)))
    ensures Justified(w, log, |log0|, [])
    decreases LevelsLeft(maxDepth, depth), 0
  {
    RoomForRoots(b);
    hide *;
    LevelDown(maxDepth, depth);
    log, t, levels := log0 + [LookedUp(ns, qtype)], Trail([], 0, NO_MESSAGE), [];
    AsksMore(log0, LookedUp(ns, qtype));
    JustifiedStart(w, log0, []);
    JustifiedStep(w, log0, LookedUp(ns, qtype), |log0|, []);
    var cached := w.cached(log);
    match cached
    case Negative =>
      DenialExplained(w, log, ns, qtype);
      return Err(NxDomain(ns)), log, t, levels;
    case Hit(msg) =>
      t := HitIsTrail(w, log, ns, qtype);
      return Ok(msg), log, t, levels;
    case Miss =>
      ghost var before := log;
      r, log, t, levels := ResolveAt(w, maxDepth, ns, qtype, ROOT_SERVERS, depth + 1, log, b);
      RootsLearned(w, before);
      JustifiedJoin(w, before, log, |log0|, [], ROOT_SERVERS);
      if r.Ok? { FollowedEarlier(w, log, |before|, |log0|, ns, qtype, t); }
      if r.Err? { ExplainedEarlier(w, log, |before|, |log0|, ns, qtype, r.error); }
  }

  lemma DenialExplained(w: World, log: Log, name: Str, qtype: u16)
    requires log != [] && log[|log| - 1] == LookedUp(name, qtype) && w.cached(log).Negative?
    ensures Explained(w, log, |log| - 1, name, qtype, NxDomain(name))
  {
    hide Reached;
    assert log[..|log| - 1 + 1] == log;
    ReachedItself(w, log, |log| - 1, name, qtype);
    assert DeniedAt(w, log, |log| - 1, name, qtype);
  }

  lemma RoomForRoots(b: Bounds)
    requires Roomy(b)
    ensures |ROOT_SERVERS| <= b.S
  {
  }

  lemma TrailFinds(w: World, log: Log, from: nat, ns: Str, qtype: u16, t: Trail, b: Bounds)
    requires Within(w, b) && Followed(w, log, from, ns, qtype, t) && (qtype == TYPE_A || qtype == TYPE_AAAA)
    ensures var ips := Addresses(Built(t).answers, qtype);
            |ips| <= b.A && AllFound(w, log, from, ns, ips)
  {
    ChainAddresses(w, log, from, ns, t, qtype, qtype);
    LastWithin(w, log, from, ns, qtype, t, b);
    AddressesWithin(t.last, qtype, b);
    hide Followed, Addresses, Built, MessageWithin;
    var ips := Addresses(t.last.answers, qtype);
    forall k | 0 <= k < |ips| ensures AddressFound(w, log, from, ns, ips[k]) {
      assert FoundBy(w, log, from, ns, ips[k], qtype, t);
    }
  }

  lemma AddressesWithin(m: Message, qtype: u16, b: Bounds)
    requires MessageWithin(m, b) && (qtype == TYPE_A || qtype == TYPE_AAAA)
    ensures |Addresses(m.answers, qtype)| <= b.A
  {
    hide Addresses, NsNames, Glue;
  }

  /** What is found stays found, and may be counted from earlier. */
  lemma FoundLater(w: World, log: Log, log': Log, from: nat, from': nat, ns: Str, server: Server)
    requires AddressFound(w, log, from, ns, server) && log <= log' && from' <= from
    ensures AddressFound(w, log', from', ns, server)
  {
    hide Followed, Addresses;
    var qtype, t :| FoundBy(w, log, from, ns, server, qtype, t);
    FollowedLater(w, log, log', from, ns, qtype, t);
    FollowedEarlier(w, log', from, from', ns, qtype, t);
    assert FoundBy(w, log', from', ns, server, qtype, t);
  }

  /** resolveNSParallel: both lookups of every name run to their end and are paid for, though
      only the first non-empty list of each is used. `at` is where the referral came in. */
  method ResolveNSParallel(w: World, maxDepth: nat, nsNames: seq<Str>, depth: nat, log0: Log,
                           ghost at: nat, ghost b: Bounds)
    returns (r: Result<seq<Server>, Failure>, log: Log, ghost parts: seq<seq<Server>>)
    requires Within(w, b) && depth <= maxDepth && |nsNames| <= b.N
    requires at < |log0| && Referral(w, log0, at, nsNames)
    ensures log0 <= log && Asks(log) <= Asks(log0) + Spent(b.N, Cost(b, LevelsLeft(maxDepth, depth + 1)))
    ensures r.Ok? ==> 0 < |r.value| <= b.S && AllLearned(w, log, r.value)
    ensures Gathered(w, log, |log0|, nsNames, parts) && Flat(parts) == (if r.Ok? then r.value else [])
    ensures r.Err? ==> if nsNames == [] then r.error == NoNameServers else FoundNobody(log, |log0|, r.error)
    ensures Justified(w, log, |log0|, [])
    decreases LevelsLeft(maxDepth, depth), 3
  {
    hide *;
    RoomForAddresses(w, b);
    JustifiedStart(w, log0, []);
    log := log0;
    var all: seq<Server> := [];
    ghost var c := Cost(b, LevelsLeft(maxDepth, depth + 1));
    NameStep(0, b.N, c, b.A);
    NoneLearned(w, log);
    NoneLookedUp(log, nsNames);
    NothingGathered(w, log, |log0|, nsNames);
    parts := [];
    for i := 0 to |nsNames|
      invariant log0 <= log && Asks(log) <= Asks(log0) + Spent(i, c)
      invariant |all| <= Brought(i, b.A)
      invariant AllLookedUp(log, |log0|, nsNames[..i])
      invariant Gathered(w, log, |log0|, nsNames[..i], parts) && Flat(parts) == all
      invariant AllLearned(w, log, all)
      invariant Justified(w, log, |log0|, [])
    {
      NameStep(i, b.N, c, b.A);
      ghost var before := log;
      var ips;
      ips, log := ResolveOneNS(w, maxDepth, nsNames[i], depth, log, b);
      NoneLearned(w, before);
      JustifiedJoin(w, before, log, |log0|, [], []);
      IsReferral(w, log0, log, at, nsNames, i);
      MoreLearned(w, before, log, at, nsNames[i], all, ips);
      OneMoreLookedUp(before, log, |log0|, nsNames, i);
      GatheredNext(w, before, log, |log0|, nsNames, i, parts, ips);
      parts := parts + [ips];
      all := all + ips;
    }
    assert nsNames[..|nsNames|] == nsNames;
    NameStep(|nsNames|, b.N, c, b.A);
    if |all| == 0 {
      if |nsNames| == 0 {
        return Err(NoNameServers), log, parts;
      }
      NobodyFound(w, log, |log0|, nsNames);
      return Err(NoAddresses(LastToFail(w, log, nsNames))), log, parts;
    }
    return Ok(all), log, parts;
  }

  function LastToFail(w: World, log: Log, nsNames: seq<Str>): Str
    requires nsNames != []
  {
    nsNames[w.lastNs(log) % |nsNames|]
  }

  ghost predicate AllLookedUp(log: Log, from: nat, nsNames: seq<Str>) {
    forall i :: 0 <= i < |nsNames| ==> LookedUpSince(log, from, nsNames[i])
  }

  lemma NoneLookedUp(log: Log, nsNames: seq<Str>)
    ensures AllLookedUp(log, |log|, nsNames[..0])
  {
  }

  lemma OneMoreLookedUp(log: Log, log': Log, from: nat, nsNames: seq<Str>, i: nat)
    requires i < |nsNames| && from <= |log| && AllLookedUp(log, from, nsNames[..i])
    requires log + [LookedUp(nsNames[i], TYPE_A)] <= log'
    ensures AllLookedUp(log', from, nsNames[..i + 1])
  {
    assert log'[|log|] == LookedUp(nsNames[i], TYPE_A);
    forall j | 0 <= j < i ensures LookedUpSince(log', from, nsNames[j]) {
      assert nsNames[..i][j] == nsNames[j];
      var at: nat :| from <= at < |log| && log[at] == LookedUp(nsNames[j], TYPE_A);
      assert log'[at] == log[at];
    }
  }

  lemma NobodyFound(w: World, log: Log, from: nat, nsNames: seq<Str>)
    requires nsNames != [] && AllLookedUp(log, from, nsNames[..|nsNames|])
    ensures FoundNobody(log, from, NoAddresses(LastToFail(w, log, nsNames)))
  {
    assert nsNames[..|nsNames|] == nsNames;
  }

  lemma RoomForAddresses(w: World, b: Bounds)
    requires Within(w, b)
    ensures Brought(b.N, b.A) <= b.S
  {
  }

  lemma IsReferral(w: World, log: Log, log': Log, at: nat, nsNames: seq<Str>, i: nat)
    requires Referral(w, log, at, nsNames) && log <= log' && i < |nsNames|
    ensures Refers(w, log', at, nsNames[i])
  {
    ReplyLater(w, log, log', at);
    hide ReplyTo, NsNames;
  }

  lemma MoreLearned(w: World, log: Log, log': Log, at: nat, ns: Str, known: seq<Server>, ips: seq<Server>)
    requires at <= |log| && log <= log' && Refers(w, log', at, ns)
    requires AllLearned(w, log, known)
    requires AllFound(w, log', |log|, ns, ips)
    ensures AllLearned(w, log', known + ips)
  {
    hide *;
    AddressesLearned(w, log', |log|, at, ns, ips);
    StillLearned(w, log, log', known);
    LearnedConcat(w, log', known, ips);
  }

  lemma LearnedConcat(w: World, log: Log, a: seq<Server>, b: seq<Server>)
    requires AllLearned(w, log, a) && AllLearned(w, log, b)
    ensures AllLearned(w, log, a + b)
  {
    hide Learned;
  }

  lemma AddressesLearned(w: World, log: Log, from: nat, at: nat, ns: Str, ips: seq<Server>)
    requires at <= from && Refers(w, log, at, ns)
    requires AllFound(w, log, from, ns, ips)
    ensures AllLearned(w, log, ips)
  {
    hide Refers, AddressFound, Learned;
    forall k | 0 <= k < |ips| ensures Learned(w, log, ips[k]) {
      FoundLater(w, log, log, from, at, ns, ips[k]);
      FoundIsLearned(w, log, at, ns, ips[k]);
    }
  }

  lemma StillLearned(w: World, log: Log, log': Log, servers: seq<Server>)
    requires log <= log' && AllLearned(w, log, servers)
    ensures AllLearned(w, log', servers)
  {
    hide Learned;
    forall k | 0 <= k < |servers| ensures Learned(w, log', servers[k]) {
      LearnedLater(w, log, log', servers[k]);
    }
  }

  /** The addresses of one type for a name server; a failure counts as none. */
  method AddressesOf(w: World, maxDepth: nat, ns: Str, qtype: u16, depth: nat, log0: Log, ghost b: Bounds)
    returns (ips: seq<Server>, log: Log)
    requires Within(w, b) && depth <= maxDepth && (qtype == TYPE_A || qtype == TYPE_AAAA)
    ensures log0 + [LookedUp(ns, qtype)] <= log
    ensures log0 <= log && Asks(log) <= Asks(log0) + Cost(b, LevelsLeft(maxDepth, depth + 1))
    ensures |ips| <= b.A && AllFound(w, log, |log0|, ns, ips)
    ensures Yields(w, log, |log0|, ns, qtype, ips)
    ensures Justified(w, log, |log0|, [])
    decreases LevelsLeft(maxDepth, depth), 1
  {
    hide *;
    var r;
    ghost var t, levels;
    r, log, t, levels := ResolveNSAddr(w, maxDepth, ns, qtype, depth, log0, b);
    if r.Err? {
      NoneFound(w, log, |log0|, ns);
      YieldsNothing(w, log, |log0|, ns, qtype, r.error);
      return [], log;
    }
    TrailFinds(w, log, |log0|, ns, qtype, t, b);
    TrailYields(w, log, |log0|, ns, qtype, t);
    return Addresses(r.value.answers, qtype), log;
  }

  /** Both address lookups of one name server; the list that is ready first and not empty is taken. */
  method ResolveOneNS(w: World, maxDepth: nat, ns: Str, depth: nat, log0: Log, ghost b: Bounds)
    returns (ips: seq<Server>, log: Log)
    requires Within(w, b) && depth <= maxDepth
    ensures log0 + [LookedUp(ns, TYPE_A)] <= log
    ensures log0 <= log && Asks(log) <= Asks(log0) + 2 * Cost(b, LevelsLeft(maxDepth, depth + 1))
    ensures |ips| <= b.A && AllFound(w, log, |log0|, ns, ips)
    ensures Picked(w, log, |log0|, ns, ips)
    ensures Justified(w, log, |log0|, [])
    decreases LevelsLeft(maxDepth, depth), 2
  {
    hide *;
    var v4, v6;
    v4, log := AddressesOf(w, maxDepth, ns, TYPE_A, depth, log0, b);
    ghost var after4 := log;
    v6, log := AddressesOf(w, maxDepth, ns, TYPE_AAAA, depth, log, b);
    ghost var after6 := log;
    NoneLearned(w, after4);
    JustifiedJoin(w, after4, after6, |log0|, [], []);
    log := log + [Raced];
    AsksMore(after6, Raced);
    JustifiedStep(w, after6, Raced, |log0|, []);
    AllFoundLater(w, after4, log, |log0|, |log0|, ns, v4);
    AllFoundLater(w, after6, log, |after4|, |log0|, ns, v6);
    ips := if w.ipv4First(log) then (if |v4| == 0 then v6 else v4) else (if |v6| == 0 then v4 else v6);
    YieldsLater(w, after4, log, |log0|, |log0|, ns, TYPE_A, v4);
    YieldsLater(w, after6, log, |after4|, |log0|, ns, TYPE_AAAA, v6);
    IsPicked(w, log, |log0|, ns, ips, v4, v6);
  }

  lemma YieldsNothing(w: World, log: Log, from: nat, ns: Str, qtype: u16, f: Failure)
    requires Explained(w, log, from, ns, qtype, f)
    ensures Yields(w, log, from, ns, qtype, [])
  {
    hide Explained, YieldsBy;
  }

  lemma TrailYields(w: World, log: Log, from: nat, ns: Str, qtype: u16, t: Trail)
    requires Followed(w, log, from, ns, qtype, t) && (qtype == TYPE_A || qtype == TYPE_AAAA)
    ensures Yields(w, log, from, ns, qtype, Addresses(Built(t).answers, qtype))
  {
    ChainAddresses(w, log, from, ns, t, qtype, qtype);
    hide Followed, Addresses, Built;
    assert YieldsBy(w, log, from, ns, qtype, Addresses(t.last.answers, qtype), t);
  }

  lemma IsPicked(w: World, log: Log, from: nat, ns: Str, ips: seq<Server>, v4: seq<Server>, v6: seq<Server>)
    requires Yields(w, log, from, ns, TYPE_A, v4) && Yields(w, log, from, ns, TYPE_AAAA, v6)
    requires (ips == v4 || ips == v6) && (ips == [] ==> v4 == [] && v6 == [])
    ensures Picked(w, log, from, ns, ips)
  {
    hide Yields;
    assert PickedOf(w, log, from, ns, ips, v4, v6);
  }

  lemma AllFoundLater(w: World, log: Log, log': Log, from: nat, from': nat, ns: Str, ips: seq<Server>)
    requires AllFound(w, log, from, ns, ips) && log <= log' && from' <= from
    ensures AllFound(w, log', from', ns, ips)
  {
    hide AddressFound;
    forall k | 0 <= k < |ips| ensures AddressFound(w, log', from', ns, ips[k]) {
      FoundLater(w, log, log', from, from', ns, ips[k]);
    }
  }

  lemma NoneFound(w: World, log: Log, from: nat, ns: Str)
    ensures AllFound(w, log, from, ns, [])
  {
  }

  lemma NoneLearned(w: World, log: Log)
    ensures AllLearned(w, log, [])
  {
  }
}
