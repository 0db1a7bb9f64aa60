/** What resolution asks of an arbitrary network and cache, on record in a log: how an answer, a server and a
    failure trace back to it, and what it may cost. */
module Trails {
  import opened Wrappers
  import opened Text
  import opened Failures
  import opened NameWalk
  import opened Message
  import opened RoundTrip
  import opened Records

  /** A server is its address: four or sixteen bytes. */
  type Server = Str

  const ROOT_SERVERS: seq<Server> := [
    [198, 41, 0, 4], [170, 247, 170, 2], [192, 33, 4, 12], [199, 7, 91, 13], [192, 203, 230, 10],
    [192, 5, 5, 241], [192, 112, 36, 4], [198, 97, 190, 53], [192, 36, 148, 17], [192, 58, 128, 30],
    [193, 0, 14, 129], [199, 7, 83, 42], [202, 12, 27, 33]]

  datatype CacheAnswer = Miss | Negative | Hit(msg: Message)

  /** What resolution asks of the outside, in order: an upstream query, a look into the cache, and,
      for a referral, which of an NS's two address lookups and which NS finishes first or last. */
  datatype Event = Asked(server: Server, name: Str, qtype: u16) | LookedUp(name: Str, qtype: u16) | Raced

  type Log = seq<Event>

  /** Everything resolution does not control: what comes back, depending on all that has been asked
      so far, the last event being the question. `packet` is an error text on a transport failure or
      a mismatched ID, and `trouble` is the text for any other useless reply. */
  datatype World = World(
    packet: Log -> Result<Str, Str>,
    trouble: Log -> Str,
    cached: Log -> CacheAnswer,
    ipv4First: Log -> bool,
    lastNs: Log -> nat)

  /* ----- Reading a reply ----- */

  /** The names of the NS records of the authority section that can be read, up to record n. */
  ghost function NsNames(m: Message, n: nat): seq<Str>
    requires n <= |m.authority|
  {
    if n == 0 then []
    else
      var rr := m.authority[n - 1];
      if rr.rtype == TYPE_NS && Parsed(m.raw, rr.offset).Ok?
      then NsNames(m, n - 1) + [Parsed(m.raw, rr.offset).value.0]
      else NsNames(m, n - 1)
  }

  method ExtractNS(m: Message) returns (names: seq<Str>)
    ensures names == NsNames(m, |m.authority|)
  {
    names := [];
    for i := 0 to |m.authority|
      invariant names == NsNames(m, i)
    {
      if m.authority[i].rtype == TYPE_NS {
        var name := ParseName(m.raw, m.authority[i].offset);
        if name.Ok? {
          names := names + [name.value.0];
        }
      }
    }
  }

  predicate IsAddress(rr: RR) {
    (rr.rtype == TYPE_A && |rr.data| == 4) || (rr.rtype == TYPE_AAAA && |rr.data| == 16)
  }

  predicate Names(nsNames: seq<Str>, name: Str) {
    exists i :: 0 <= i < |nsNames| && SameName(nsNames[i], name)
  }

  /** Addresses in the additional section that belong to one of the name servers. */
  function Glue(rrs: seq<RR>, nsNames: seq<Str>): seq<Server> {
    if rrs == [] then []
    else if Names(nsNames, rrs[0].name) && IsAddress(rrs[0]) then [rrs[0].data] + Glue(rrs[1..], nsNames)
    else Glue(rrs[1..], nsNames)
  }

  /** Addresses of one type in an answer section. */
  function Addresses(rrs: seq<RR>, qtype: u16): seq<Server> {
    if rrs == [] then []
    else if rrs[0].rtype == qtype && IsAddress(rrs[0]) then [rrs[0].data] + Addresses(rrs[1..], qtype)
    else Addresses(rrs[1..], qtype)
  }

  function FirstCname(rrs: seq<RR>): (k: nat)
    ensures k <= |rrs| && (k < |rrs| ==> rrs[k].rtype == TYPE_CNAME)
  {
    if rrs == [] || rrs[0].rtype == TYPE_CNAME then 0 else 1 + FirstCname(rrs[1..])
  }

  predicate HasTerminal(rrs: seq<RR>, name: Str, qtype: u16) {
    exists i :: 0 <= i < |rrs| && rrs[i].rtype == qtype && SameName(rrs[i].name, name)
  }

  /** A name server counts if an NS record of the authority section names it readably. */
  lemma {:induction false} NamesExactly(m: Message, n: nat, ns: Str)
    requires n <= |m.authority|
    ensures ns in NsNames(m, n)
            <==> exists i :: 0 <= i < n && m.authority[i].rtype == 2 && Parsed(m.raw, m.authority[i].offset).Ok?
                   && Parsed(m.raw, m.authority[i].offset).value.0 == ns
  {
    hide Parsed;
    if n > 0 { NamesExactly(m, n - 1, ns); }
  }

  /** Glue is an A record of four bytes or an AAAA record of sixteen for one of the name servers, up to case. */
  lemma {:induction false} GlueExactly(rrs: seq<RR>, nsNames: seq<Str>, server: Server)
    ensures server in Glue(rrs, nsNames)
            <==> exists i :: 0 <= i < |rrs| && rrs[i].data == server
                   && ((rrs[i].rtype == 1 && |server| == 4) || (rrs[i].rtype == 28 && |server| == 16))
                   && exists j :: 0 <= j < |nsNames| && SameName(nsNames[j], rrs[i].name)
  {
    hide SameName;
    if rrs != [] {
      var rest := rrs[1..];
      GlueExactly(rest, nsNames, server);
      assert forall i :: 0 <= i < |rest| ==> rest[i] == rrs[i + 1];
      if i :| 0 <= i < |rest| && rest[i].data == server
              && ((rest[i].rtype == 1 && |server| == 4) || (rest[i].rtype == 28 && |server| == 16))
              && exists j :: 0 <= j < |nsNames| && SameName(nsNames[j], rest[i].name) {
        assert rrs[i + 1] == rest[i];
      }
    }
  }

  /** The addresses of one type in an answer, whatever their owner. */
  lemma {:induction false} AddressesExactly(rrs: seq<RR>, qtype: u16, server: Server)
    ensures server in Addresses(rrs, qtype)
            <==> exists i :: 0 <= i < |rrs| && rrs[i].data == server && rrs[i].rtype == qtype
                   && ((qtype == 1 && |server| == 4) || (qtype == 28 && |server| == 16))
  {
    if rrs != [] {
      var rest := rrs[1..];
      AddressesExactly(rest, qtype, server);
      assert forall i :: 0 <= i < |rest| ==> rest[i] == rrs[i + 1];
      if i :| 0 <= i < |rest| && rest[i].data == server && rest[i].rtype == qtype {
        assert rrs[i + 1] == rest[i];
      }
    }
  }

  /* ----- The cost bound ----- */

  /** N: NS names in a referral. A: addresses of one type in an answer. S: servers in a list. */
  datatype Bounds = Bounds(N: nat, A: nat, S: nat)

  ghost predicate MessageWithin(m: Message, b: Bounds) {
    && |NsNames(m, |m.authority|)| <= b.N
    && (forall names :: |Glue(m.additional, names)| <= b.S)
    && |Addresses(m.answers, TYPE_A)| <= b.A && |Addresses(m.answers, TYPE_AAAA)| <= b.A
  }

  /** A message that was parsed out of some packet. */
  ghost predicate FromPacket(m: Message) {
    exists buf :: ParsedMessage(buf) == Ok(m)
  }

  ghost predicate RepliesWithin(w: World, b: Bounds) {
    forall log :: w.packet(log).Ok? && ParsedMessage(w.packet(log).value).Ok? ==>
      MessageWithin(ParsedMessage(w.packet(log).value).value, b)
  }

  ghost predicate HitsWithin(w: World, b: Bounds) {
    forall log :: w.cached(log).Hit? ==> MessageWithin(w.cached(log).msg, b)
  }

  predicate Roomy(b: Bounds) {
    b.N * b.A <= b.S && |ROOT_SERVERS| <= b.S
  }

  ghost predicate Within(w: World, b: Bounds) {
    Roomy(b) && RepliesWithin(w, b) && HitsWithin(w, b)
  }

  function LevelsLeft(maxDepth: nat, depth: nat): nat {
    if depth > maxDepth then 0 else maxDepth + 1 - depth
  }

  /** Upstream queries that resolution may need with k levels left. */
  function Cost(b: Bounds, k: nat): nat {
    if k == 0 then 0 else b.S + (2 * b.N * b.S + 1) * Cost(b, k - 1)
  }

  function Pow(x: nat, k: nat): nat {
    if k == 0 then 1 else x * Pow(x, k - 1)
  }

  lemma GeometricStep(x: int, s: int, c: int, p: int)
    requires x * c == s * (p - 1)
    ensures x * (s + (x + 1) * c) == s * ((x + 1) * p - 1)
  {
    assert x * (s + (x + 1) * c) == x * s + (x + 1) * (x * c);
    assert (x + 1) * (s * (p - 1)) == s * ((x + 1) * p) - s * (x + 1);
  }

  /** The bound in closed form: S * ((2NS + 1)^k - 1) / (2NS), without the division. */
  lemma {:induction false} CostClosedForm(b: Bounds, k: nat)
    ensures 2 * b.N * b.S * Cost(b, k) == b.S * (Pow(2 * b.N * b.S + 1, k) - 1)
  {
    if k > 0 {
      CostClosedForm(b, k - 1);
      GeometricStep(2 * b.N * b.S, b.S, Cost(b, k - 1), Pow(2 * b.N * b.S + 1, k - 1));
    }
  }

  /** Upstream queries in a log. */
  function Asks(log: Log): nat {
    if log == [] then 0 else Asks(log[..|log| - 1]) + if log[|log| - 1].Asked? then 1 else 0
  }

  lemma AsksMore(log: Log, e: Event)
    ensures Asks(log + [e]) == Asks(log) + if e.Asked? then 1 else 0
  {
    assert (log + [e])[..|log|] == log;
  }

  /* ----- The chain an answer is made of ----- */

  /** The usable reply to the question at this place of the log. */
  ghost function ReplyTo(w: World, log: Log, at: nat): Option<Message>
    requires at < |log|
  {
    var packet := w.packet(log[..at + 1]);
    if log[at].Asked? && packet.Ok? && ParsedMessage(packet.value).Ok?
       && ParsedMessage(packet.value).value.header.flags % 16 == 0
    then Some(ParsedMessage(packet.value).value) else None
  }

  /** A followed alias: its record, its packet, and the place of the question it came in reply to. */
  datatype AliasHop = AliasHop(at: nat, alias: Alias)

  ghost function TargetOf(h: AliasHop): Option<Str> {
    NameInPacket(h.alias.rr, h.alias.raw)
  }

  predicate AskedFor(e: Event, name: Str, qtype: u16) {
    e.Asked? && e.name == name && e.qtype == qtype
  }

  /** A reply that is an answer in itself: it is no referral, and the first alias in it, if the question was not
      for one, comes with its target's records. */
  ghost predicate Final(m: Message, qtype: u16) {
    if m.answers == [] then NsNames(m, |m.authority|) == []
    else
      var k := FirstCname(m.answers);
      || qtype == TYPE_CNAME || k == |m.answers|
      || (Parsed(m.raw, m.answers[k].offset).Ok?
          && HasTerminal(m.answers, Parsed(m.raw, m.answers[k].offset).value.0, qtype))
  }

  /** The message was the final reply to an upstream query for this name and type, or was found in the cache
      when looking for them. */
  ghost predicate CameFor(w: World, log: Log, at: nat, name: Str, qtype: u16, m: Message) {
    && at < |log|
    && if log[at] == LookedUp(name, qtype) then w.cached(log[..at + 1]) == Hit(m)
       else AskedFor(log[at], name, qtype) && ReplyTo(w, log, at) == Some(m) && Final(m, qtype)
  }

  /** The alias is the first CNAME, whatever its owner, of the reply to an upstream query for this name
      and type; the reply does not hold the target's own records; and right after it the target is
      looked up. */
  ghost predicate AliasFor(w: World, log: Log, h: AliasHop, name: Str, qtype: u16) {
    && h.at + 1 < |log| && AskedFor(log[h.at], name, qtype) && ReplyTo(w, log, h.at).Some?
    && TargetOf(h).Some?
    && var m := ReplyTo(w, log, h.at).value;
       && h.alias.raw == m.raw && FirstCname(m.answers) < |m.answers| && h.alias.rr == m.answers[FirstCname(m.answers)]
       && !HasTerminal(m.answers, TargetOf(h).value, qtype)
       && log[h.at + 1] == LookedUp(TargetOf(h).value, qtype)
  }

  /** How a message was arrived at, at or after a place of the log: aliases one after the other, each in
      reply to a question for the target of the one before, and a last message that came for the last
      target. */
  datatype Trail = Trail(hops: seq<AliasHop>, lastAt: nat, last: Message)

  ghost predicate Followed(w: World, log: Log, from: nat, name: Str, qtype: u16, t: Trail)
    decreases |t.hops|
  {
    if t.hops == [] then from <= t.lastAt && CameFor(w, log, t.lastAt, name, qtype, t.last)
    else
      var h := t.hops[0];
      && from <= h.at && AliasFor(w, log, h, name, qtype)
      && Followed(w, log, h.at + 1, TargetOf(h).value, qtype, t.(hops := t.hops[1..]))
  }

  function Aliases(hops: seq<AliasHop>): (r: seq<Alias>)
    ensures |r| == |hops| && forall i :: 0 <= i < |hops| ==> r[i] == hops[i].alias
  {
    if hops == [] then [] else [hops[0].alias] + Aliases(hops[1..])
  }

  /** The message built from a trail. */
  ghost function Built(t: Trail): Message {
    Chain(Aliases(t.hops), t.last)
  }

  lemma {:induction false} FollowedEarlier(w: World, log: Log, from: nat, from': nat, name: Str, qtype: u16, t: Trail)
    requires Followed(w, log, from, name, qtype, t) && from' <= from
    ensures Followed(w, log, from', name, qtype, t)
  {
  }

  lemma CameForLater(w: World, log: Log, log': Log, at: nat, name: Str, qtype: u16, m: Message)
    requires CameFor(w, log, at, name, qtype, m) && log <= log'
    ensures CameFor(w, log', at, name, qtype, m)
  {
    assert log'[..at + 1] == log[..at + 1];
  }

  lemma AliasForLater(w: World, log: Log, log': Log, h: AliasHop, name: Str, qtype: u16)
    requires AliasFor(w, log, h, name, qtype) && log <= log'
    ensures AliasFor(w, log', h, name, qtype) && TargetOf(h).Some?
  {
    hide ParsedMessage, TargetOf, HasTerminal;
    assert log'[..h.at + 1] == log[..h.at + 1];
  }

  /** What has happened stays so. */
  lemma {:induction false} FollowedLater(w: World, log: Log, log': Log, from: nat, name: Str, qtype: u16, t: Trail)
    requires Followed(w, log, from, name, qtype, t) && log <= log'
    ensures Followed(w, log', from, name, qtype, t)
    decreases |t.hops|
  {
    hide CameFor, AliasFor, TargetOf;
    if t.hops == [] {
      CameForLater(w, log, log', t.lastAt, name, qtype, t.last);
    } else {
      var h := t.hops[0];
      AliasForLater(w, log, log', h, name, qtype);
      FollowedLater(w, log, log', h.at + 1, TargetOf(h).value, qtype, t.(hops := t.hops[1..]));
    }
  }

  /* ----- Whom resolution may ask ----- */

  /** The reply to the question at this place is a referral to this name server. */
  ghost predicate Refers(w: World, log: Log, at: nat, ns: Str) {
    && at < |log| && ReplyTo(w, log, at).Some?
    && var m := ReplyTo(w, log, at).value; ns in NsNames(m, |m.authority|)
  }

  /** The name servers of a referral. */
  ghost predicate Referral(w: World, log: Log, at: nat, nsNames: seq<Str>) {
    && at < |log| && ReplyTo(w, log, at).Some?
    && var m := ReplyTo(w, log, at).value; nsNames == NsNames(m, |m.authority|)
  }

  ghost predicate Glued(w: World, log: Log, at: nat, server: Server) {
    && at < |log| && ReplyTo(w, log, at).Some?
    && var m := ReplyTo(w, log, at).value; server in Glue(m.additional, NsNames(m, |m.authority|))
  }

  ghost predicate FoundBy(w: World, log: Log, from: nat, ns: Str, server: Server, qtype: u16, t: Trail) {
    && (qtype == TYPE_A || qtype == TYPE_AAAA)
    && Followed(w, log, from, ns, qtype, t) && server in Addresses(t.last.answers, qtype)
  }

  /** Resolving a name server's own name has led to this address. */
  ghost predicate AddressFound(w: World, log: Log, from: nat, ns: Str, server: Server) {
    exists qtype, t :: FoundBy(w, log, from, ns, server, qtype, t)
  }

  /** A server comes from somewhere: it is a root server, glue for a name server of a referral received
      before, or the address resolved, since then, for a name server of such a referral. */
  ghost predicate Learned(w: World, log: Log, server: Server) {
    || server in ROOT_SERVERS
    || (exists at: nat :: Glued(w, log, at, server))
    || (exists at: nat, ns :: Refers(w, log, at, ns) && AddressFound(w, log, at, ns, server))
  }

  ghost predicate AllLearned(w: World, log: Log, servers: seq<Server>) {
    forall k :: 0 <= k < |servers| ==> Learned(w, log, servers[k])
  }

  ghost predicate AllFound(w: World, log: Log, from: nat, ns: Str, ips: seq<Server>) {
    forall k :: 0 <= k < |ips| ==> AddressFound(w, log, from, ns, ips[k])
  }

  /** From a place of the log on, only the given servers and learned ones are asked. */
  ghost predicate Justified(w: World, log: Log, from: nat, servers: seq<Server>) {
    forall at :: from <= at < |log| && log[at].Asked? ==>
      log[at].server in servers || Learned(w, log[..at], log[at].server)
  }

  lemma ReplyLater(w: World, log: Log, log': Log, at: nat)
    requires at < |log| && log <= log'
    ensures ReplyTo(w, log', at) == ReplyTo(w, log, at)
  {
    assert log'[..at + 1] == log[..at + 1];
  }

  lemma LearnedLater(w: World, log: Log, log': Log, server: Server)
    requires Learned(w, log, server) && log <= log'
    ensures Learned(w, log', server)
  {
    hide ReplyTo, Followed, Addresses, Glue;
    if at: nat :| Glued(w, log, at, server) {
      ReplyLater(w, log, log', at);
      assert Glued(w, log', at, server);
    } else if at: nat, ns :| Refers(w, log, at, ns) && AddressFound(w, log, at, ns, server) {
      ReplyLater(w, log, log', at);
      var qtype, t :| FoundBy(w, log, at, ns, server, qtype, t);
      FollowedLater(w, log, log', at, ns, qtype, t);
      assert FoundBy(w, log', at, ns, server, qtype, t);
      assert Refers(w, log', at, ns) && AddressFound(w, log', at, ns, server);
    }
  }

  lemma JustifiedStart(w: World, log: Log, servers: seq<Server>)
    ensures Justified(w, log, |log|, servers)
  {
  }

  lemma JustifiedStep(w: World, log: Log, e: Event, from: nat, servers: seq<Server>)
    requires Justified(w, log, from, servers) && (e.Asked? ==> e.server in servers)
    ensures Justified(w, log + [e], from, servers)
  {
    hide Learned;
    var more := log + [e];
    forall at | from <= at < |more| && more[at].Asked?
      ensures more[at].server in servers || Learned(w, more[..at], more[at].server)
    {
      if at < |log| { assert more[..at] == log[..at]; }
    }
  }

  /** One stretch of the log after the other; the servers of the second were known by then. */
  lemma JustifiedJoin(w: World, log: Log, log': Log, from: nat, servers: seq<Server>, servers': seq<Server>)
    requires from <= |log| && log <= log' && Justified(w, log, from, servers) && Justified(w, log', |log|, servers')
    requires AllLearned(w, log, servers')
    ensures Justified(w, log', from, servers)
  {
    forall at | from <= at < |log'| && log'[at].Asked?
      ensures log'[at].server in servers || Learned(w, log'[..at], log'[at].server)
    {
      if at < |log| {
        assert log'[at] == log[at] && log'[..at] == log[..at];
      } else if log'[at].server in servers' {
        var k :| 0 <= k < |servers'| && servers'[k] == log'[at].server;
        LearnedLater(w, log, log'[..at], servers'[k]);
      }
    }
  }

  /** Putting one followed alias in front of a trail. */
  lemma HopInFront(w: World, log: Log, h: AliasHop, name: Str, qtype: u16, t: Trail)
    requires AliasFor(w, log, h, name, qtype)
    requires Followed(w, log, h.at + 1, TargetOf(h).value, qtype, t)
    ensures var all := t.(hops := [h] + t.hops);
            && Followed(w, log, h.at, name, qtype, all)
            && Built(all) == Prepended(h.alias.rr, h.alias.raw, Built(t))
  {
    hide AliasFor, TargetOf, CameFor, Prepended;
    var all := [h] + t.hops;
    assert all[1..] == t.hops;
    assert Aliases(all) == [h.alias] + Aliases(t.hops);
    assert Aliases(all)[1..] == Aliases(t.hops);
  }

  lemma {:induction false} MaterializedAddresses(rrs: seq<RR>, raw: Str, qtype: u16)
    requires !HasName(qtype)
    ensures Addresses(MaterializedAll(rrs, raw), qtype) == Addresses(rrs, qtype)
  {
    if rrs != [] {
      MaterializedAddresses(rrs[1..], raw, qtype);
      assert MaterializedAll(rrs, raw)[1..] == MaterializedAll(rrs[1..], raw);
    }
  }

  lemma HopIsCname(w: World, log: Log, h: AliasHop, name: Str, qtype: u16)
    requires AliasFor(w, log, h, name, qtype)
    ensures h.alias.rr.rtype == TYPE_CNAME && TargetOf(h).Some?
  {
    hide ReplyTo, TargetOf, HasTerminal;
  }

  /** A chain holds the addresses of its last message and no others. */
  lemma {:induction false} ChainAddresses(w: World, log: Log, from: nat, name: Str, t: Trail, asked: u16, qtype: u16)
    requires Followed(w, log, from, name, asked, t) && !HasName(qtype)
    ensures Addresses(Built(t).answers, qtype) == Addresses(t.last.answers, qtype)
    decreases |t.hops|
  {
    if t.hops != [] {
      var h, rest := t.hops[0], t.(hops := t.hops[1..]);
      HopIsCname(w, log, h, name, asked);
      ChainAddresses(w, log, h.at + 1, TargetOf(h).value, rest, asked, qtype);
      hide AliasFor, TargetOf, Followed, Materialized, MaterializedAll, HasName;
      var inner := Built(rest);
      assert Aliases(t.hops)[1..] == Aliases(rest.hops);
      MaterializedAddresses(inner.answers, inner.raw, qtype);
      FirstNotAddress(Materialized(h.alias.rr, h.alias.raw), MaterializedAll(inner.answers, inner.raw), qtype);
      MaterializedKeepsType(h.alias.rr, h.alias.raw);
    }
  }

  lemma MaterializedKeepsType(rr: RR, raw: Str)
    ensures Materialized(rr, raw).rtype == rr.rtype
  {
    hide Parsed;
  }

  lemma FirstNotAddress(rr: RR, rest: seq<RR>, qtype: u16)
    ensures rr.rtype == TYPE_CNAME && !HasName(qtype) ==> Addresses([rr] + rest, qtype) == Addresses(rest, qtype)
  {
    assert ([rr] + rest)[1..] == rest;
  }

  lemma {:induction false} ParsedOffsets(buf: Str, offset: nat, count: nat)
    requires ParsedRRs(buf, offset, count).Ok? && offset >= 12
    ensures ParsedRRs(buf, offset, count).value.1 >= 12
    ensures forall i :: 0 <= i < |ParsedRRs(buf, offset, count).value.0| ==>
              ParsedRRs(buf, offset, count).value.0[i].offset >= 12
  {
    if count > 0 {
      ParsedOffsets(buf, offset, count - 1);
      ParsedInside(buf, ParsedRRs(buf, offset, count - 1).value.1);
    }
  }

  lemma {:induction false} QuestionOffsets(buf: Str, offset: nat, count: nat)
    requires ParsedQuestions(buf, offset, count).Ok? && offset >= 12
    ensures ParsedQuestions(buf, offset, count).value.1 >= 12
  {
    if count > 0 {
      QuestionOffsets(buf, offset, count - 1);
      ParsedInside(buf, ParsedQuestions(buf, offset, count - 1).value.1);
    }
  }

  /** Rdata never starts inside the header of its packet. */
  lemma AnswerOffsets(buf: Str, k: nat)
    requires ParsedMessage(buf).Ok? && k < |ParsedMessage(buf).value.answers|
    ensures ParsedMessage(buf).value.answers[k].offset >= 12 && ParsedMessage(buf).value.raw == buf
  {
    var h := ParsedHeader(buf);
    QuestionOffsets(buf, 12, h.qd);
    ParsedOffsets(buf, ParsedQuestions(buf, 12, h.qd).value.1, h.an);
  }

  /* ----- Why a resolution fails ----- */

  /** The response code of a reply that can be read. */
  ghost function Rcode(reply: Result<Str, Str>): Option<nat> {
    if reply.Ok? && ParsedMessage(reply.value).Ok? then Some(ParsedMessage(reply.value).value.header.flags % 16)
    else None
  }

  /** At this place the name is denied: by the server asked, or by the cache. */
  ghost predicate DeniedAt(w: World, log: Log, at: nat, name: Str, qtype: u16) {
    && at < |log|
    && if log[at] == LookedUp(name, qtype) then w.cached(log[..at + 1]).Negative?
       else AskedFor(log[at], name, qtype) && Rcode(w.packet(log[..at + 1])) == Some(3)
  }

  /** At this place an upstream query ends with this text from outside. */
  ghost predicate SaidAt(w: World, log: Log, at: nat, detail: Str) {
    && at < |log| && log[at].Asked?
    && var reply := w.packet(log[..at + 1]);
       if reply.Err? then detail == reply.error
       else Rcode(reply) != Some(0) && Rcode(reply) != Some(3) && detail == w.trouble(log[..at + 1])
  }

  ghost predicate UnreadableAliasAt(w: World, log: Log, at: nat) {
    && at < |log| && ReplyTo(w, log, at).Some?
    && var m := ReplyTo(w, log, at).value;
       FirstCname(m.answers) < |m.answers| && Parsed(m.raw, m.answers[FirstCname(m.answers)].offset).Err?
  }

  ghost predicate LookedUpSince(log: Log, from: nat, name: Str) {
    exists at: nat :: from <= at < |log| && log[at] == LookedUp(name, TYPE_A)
  }

  /** Following these aliases, one after the other, leads from one name to another. */
  ghost predicate LeadsBy(w: World, log: Log, from: nat, name: Str, qtype: u16, end: Str, hops: seq<AliasHop>)
    decreases |hops|
  {
    if hops == [] then end == name
    else
      && from <= hops[0].at && AliasFor(w, log, hops[0], name, qtype)
      && LeadsBy(w, log, hops[0].at + 1, TargetOf(hops[0]).value, qtype, end, hops[1..])
  }

  /** The name itself, or one that aliases received since `from` lead to. */
  ghost predicate Reached(w: World, log: Log, from: nat, name: Str, qtype: u16, end: Str) {
    exists hops :: LeadsBy(w, log, from, name, qtype, end, hops)
  }

  /** Every part of a failure has its cause in the log: a denial is one that a server or the cache has given
      of the name resolved or of one its aliases lead to, a text from outside is what an upstream
      query ended with, and the names quoted are such names, or name servers looked up. */
  ghost predicate Explained(w: World, log: Log, from: nat, name: Str, qtype: u16, f: Failure) {
    match f
    case DepthExceeded(end) => Reached(w, log, from, name, qtype, end)
    case NxDomain(end) =>
      Reached(w, log, from, name, qtype, end) && exists at: nat :: from <= at && DeniedAt(w, log, at, end, qtype)
    case BadTarget => exists at: nat :: from <= at && UnreadableAliasAt(w, log, at)
    case Upstream(detail) => exists at: nat :: from <= at && SaidAt(w, log, at, detail)
    case AllFailed(end, last) =>
      Reached(w, log, from, name, qtype, end) && (last.Some? ==> Explained(w, log, from, name, qtype, last.value))
    case NoAddresses(ns) => LookedUpSince(log, from, ns)
    case NoNameServers => false
  }

  lemma ReachedItself(w: World, log: Log, from: nat, name: Str, qtype: u16)
    ensures Reached(w, log, from, name, qtype, name)
  {
    assert LeadsBy(w, log, from, name, qtype, name, []);
  }

  lemma ReachedEarlier(w: World, log: Log, from: nat, from': nat, name: Str, qtype: u16, end: Str)
    requires Reached(w, log, from, name, qtype, end) && from' <= from
    ensures Reached(w, log, from', name, qtype, end)
  {
    hide AliasFor, TargetOf;
    var hops :| LeadsBy(w, log, from, name, qtype, end, hops);
    assert LeadsBy(w, log, from', name, qtype, end, hops);
  }

  lemma ReachedByAlias(w: World, log: Log, h: AliasHop, name: Str, qtype: u16, end: Str)
    requires AliasFor(w, log, h, name, qtype) && TargetOf(h).Some?
    requires Reached(w, log, h.at + 1, TargetOf(h).value, qtype, end)
    ensures Reached(w, log, h.at, name, qtype, end)
  {
    hide AliasFor, TargetOf;
    var hops :| LeadsBy(w, log, h.at + 1, TargetOf(h).value, qtype, end, hops);
    assert ([h] + hops)[1..] == hops;
    assert LeadsBy(w, log, h.at, name, qtype, end, [h] + hops);
  }

  lemma {:induction false} ExplainedEarlier(w: World, log: Log, from: nat, from': nat, name: Str, qtype: u16,
                                            f: Failure)
    requires Explained(w, log, from, name, qtype, f) && from' <= from
    ensures Explained(w, log, from', name, qtype, f)
  {
    hide DeniedAt, SaidAt, UnreadableAliasAt, Reached;
    match f
    case DepthExceeded(end) => ReachedEarlier(w, log, from, from', name, qtype, end);
    case NxDomain(end) => ReachedEarlier(w, log, from, from', name, qtype, end);
    case AllFailed(end, last) =>
      ReachedEarlier(w, log, from, from', name, qtype, end);
      if last.Some? { ExplainedEarlier(w, log, from, from', name, qtype, last.value); }
    case _ =>
  }

  lemma {:induction false} LeadsLater(w: World, log: Log, log': Log, from: nat, name: Str, qtype: u16, end: Str,
                                      hops: seq<AliasHop>)
    requires LeadsBy(w, log, from, name, qtype, end, hops) && log <= log'
    ensures LeadsBy(w, log', from, name, qtype, end, hops)
    decreases |hops|
  {
    hide AliasFor, TargetOf;
    if hops != [] {
      AliasForLater(w, log, log', hops[0], name, qtype);
      LeadsLater(w, log, log', hops[0].at + 1, TargetOf(hops[0]).value, qtype, end, hops[1..]);
    }
  }

  lemma ReachedLater(w: World, log: Log, log': Log, from: nat, name: Str, qtype: u16, end: Str)
    requires Reached(w, log, from, name, qtype, end) && log <= log'
    ensures Reached(w, log', from, name, qtype, end)
  {
    hide LeadsBy;
    var hops :| LeadsBy(w, log, from, name, qtype, end, hops);
    LeadsLater(w, log, log', from, name, qtype, end, hops);
  }

  lemma DeniedLater(w: World, log: Log, log': Log, at: nat, name: Str, qtype: u16)
    requires DeniedAt(w, log, at, name, qtype) && log <= log'
    ensures DeniedAt(w, log', at, name, qtype)
  {
    hide Rcode;
    assert log'[..at + 1] == log[..at + 1];
  }

  lemma SaidLater(w: World, log: Log, log': Log, at: nat, detail: Str)
    requires SaidAt(w, log, at, detail) && log <= log'
    ensures SaidAt(w, log', at, detail)
  {
    hide Rcode;
    assert log'[..at + 1] == log[..at + 1];
  }

  lemma UnreadableLater(w: World, log: Log, log': Log, at: nat)
    requires UnreadableAliasAt(w, log, at) && log <= log'
    ensures UnreadableAliasAt(w, log', at)
  {
    hide ReplyTo, Parsed;
    ReplyLater(w, log, log', at);
  }

  /** A cause that is in the log stays there. */
  lemma {:induction false} ExplainedLater(w: World, log: Log, log': Log, from: nat, name: Str, qtype: u16, f: Failure)
    requires Explained(w, log, from, name, qtype, f) && log <= log'
    ensures Explained(w, log', from, name, qtype, f)
  {
    hide DeniedAt, SaidAt, UnreadableAliasAt, Reached;
    match f
    case DepthExceeded(end) => ReachedLater(w, log, log', from, name, qtype, end);
    case NxDomain(end) =>
      ReachedLater(w, log, log', from, name, qtype, end);
      var at: nat :| from <= at && DeniedAt(w, log, at, end, qtype);
      DeniedLater(w, log, log', at, end, qtype);
    case BadTarget =>
      var at: nat :| from <= at && UnreadableAliasAt(w, log, at);
      UnreadableLater(w, log, log', at);
    case Upstream(detail) =>
      var at: nat :| from <= at && SaidAt(w, log, at, detail);
      SaidLater(w, log, log', at, detail);
    case AllFailed(end, last) =>
      ReachedLater(w, log, log', from, name, qtype, end);
      if last.Some? { ExplainedLater(w, log, log', from, name, qtype, last.value); }
    case NoAddresses(ns) =>
      var at: nat :| from <= at < |log| && log[at] == LookedUp(ns, TYPE_A);
      assert log'[at] == log[at];
    case _ =>
  }

  /** What makes resolving an alias's target fail makes resolving the alias's owner fail. */
  lemma {:induction false} ExplainedByAlias(w: World, log: Log, h: AliasHop, name: Str, qtype: u16, f: Failure)
    requires AliasFor(w, log, h, name, qtype) && TargetOf(h).Some?
    requires Explained(w, log, h.at + 1, TargetOf(h).value, qtype, f)
    ensures Explained(w, log, h.at, name, qtype, f)
  {
    hide DeniedAt, SaidAt, UnreadableAliasAt, Reached, AliasFor, TargetOf;
    match f
    case DepthExceeded(end) => ReachedByAlias(w, log, h, name, qtype, end);
    case NxDomain(end) => ReachedByAlias(w, log, h, name, qtype, end);
    case AllFailed(end, last) =>
      ReachedByAlias(w, log, h, name, qtype, end);
      if last.Some? { ExplainedByAlias(w, log, h, name, qtype, last.value); }
    case _ =>
  }

  /** Some name that the failure may quote contains the word that denials are recognised by. */
  ghost predicate UnluckyName(w: World, log: Log, from: nat, name: Str, qtype: u16) {
    || (exists n :: Reached(w, log, from, name, qtype, n) && Contains(n, DENIAL))
    || (exists ns :: LookedUpSince(log, from, ns) && Contains(ns, DENIAL))
  }

  ghost predicate UnluckyText(w: World, log: Log, from: nat) {
    exists at: nat, detail :: from <= at && SaidAt(w, log, at, detail) && Contains(detail, DENIAL)
  }

  /** A server or the cache has denied the name, or one that its aliases lead to. */
  ghost predicate Denied(w: World, log: Log, from: nat, name: Str, qtype: u16) {
    exists at: nat, n :: from <= at && DeniedAt(w, log, at, n, qtype) && Reached(w, log, from, name, qtype, n)
  }

  /** A failed resolution is remembered as a denial only if the log holds one, of the name asked for or of
      one its aliases lead to, unless the word occurs where it should not. */
  lemma {:induction false} DenialsAreReal(w: World, log: Log, from: nat, name: Str, qtype: u16, f: Failure)
    requires Explained(w, log, from, name, qtype, f) && Denies(f)
    ensures Denied(w, log, from, name, qtype) || UnluckyName(w, log, from, name, qtype) || UnluckyText(w, log, from)
  {
    DenialExactly(f);
    hide Denies, DeniedAt, SaidAt, UnreadableAliasAt, LookedUpSince, Reached, Contains;
    if f.AllFailed? && !Contains(f.name, DENIAL) {
      DenialExactly(f.last.value);
      DenialsAreReal(w, log, from, name, qtype, f.last.value);
    }
  }

  /** A network that never answers. */
  ghost predicate Silent(w: World) {
    forall log :: w.packet(log).Err?
  }

  /** The upstream query at the end of the log failed with this error of the transport. */
  ghost predicate TransportError(w: World, log: Log, f: Failure) {
    w.packet(log).Err? && f == Upstream(w.packet(log).error)
  }

  /* ----- What a trail says ----- */

  /** Along a trail, each hop's question stands in the log: the first for the name resolved, each next
      one for the target of the alias before, later than it and after a lookup of that target. */
  lemma {:induction false} TargetIsAskedNext(w: World, log: Log, from: nat, name: Str, qtype: u16, t: Trail, i: nat)
    requires Followed(w, log, from, name, qtype, t) && i < |t.hops|
    ensures from <= t.hops[i].at && t.hops[i].at + 1 < |log| && TargetOf(t.hops[i]).Some?
    ensures t.hops[i].alias.rr.rtype == TYPE_CNAME
    ensures AskedFor(log[t.hops[0].at], name, qtype)
    ensures log[t.hops[i].at + 1] == LookedUp(TargetOf(t.hops[i]).value, qtype)
    ensures i + 1 < |t.hops| ==>
              && t.hops[i].at < t.hops[i + 1].at < |log|
              && AskedFor(log[t.hops[i + 1].at], TargetOf(t.hops[i]).value, qtype)
    ensures i + 1 == |t.hops| ==>
              t.hops[i].at < t.lastAt && CameFor(w, log, t.lastAt, TargetOf(t.hops[i]).value, qtype, t.last)
    decreases |t.hops|
  {
    hide ReplyTo, TargetOf, CameFor;
    var h, rest := t.hops[0], t.(hops := t.hops[1..]);
    HopIsCname(w, log, h, name, qtype);
    if i > 0 {
      TargetIsAskedNext(w, log, h.at + 1, TargetOf(h).value, qtype, rest, i - 1);
    } else if |t.hops| > 1 {
      assert rest.hops[0] == t.hops[1];
    }
  }

  /** Where a trail ends with a reply of a server, that reply is an answer: without answers it names no name
      servers, and its first alias, if the question was not for one, comes with the target's records. */
  lemma {:induction false} LastIsFinal(w: World, log: Log, from: nat, name: Str, qtype: u16, t: Trail, k: nat)
    requires Followed(w, log, from, name, qtype, t) && t.lastAt < |log| && log[t.lastAt].Asked?
    ensures t.last.answers == [] ==> forall i :: 0 <= i < |t.last.authority| && t.last.authority[i].rtype == 2 ==>
              Parsed(t.last.raw, t.last.authority[i].offset).Err?
    ensures qtype != 5 && k < |t.last.answers| && t.last.answers[k].rtype == 5
              && (forall i :: 0 <= i < k ==> t.last.answers[i].rtype != 5) ==>
              && Parsed(t.last.raw, t.last.answers[k].offset).Ok?
              && exists i :: 0 <= i < |t.last.answers| && t.last.answers[i].rtype == qtype
                   && SameName(t.last.answers[i].name, Parsed(t.last.raw, t.last.answers[k].offset).value.0)
    decreases |t.hops|
  {
    if t.hops == [] {
      hide ReplyTo, Parsed, NsNames;
      if t.last.answers == [] { NoNamesNoRecords(t.last, |t.last.authority|); }
      if k < |t.last.answers| && t.last.answers[k].rtype == 5
         && forall i :: 0 <= i < k ==> t.last.answers[i].rtype != 5 {
        FirstAlias(t.last.answers, k);
      }
    } else {
      hide ReplyTo, CameFor, TargetOf, HasTerminal, Parsed;
      HopIsCname(w, log, t.hops[0], name, qtype);
      LastIsFinal(w, log, t.hops[0].at + 1, TargetOf(t.hops[0]).value, qtype, t.(hops := t.hops[1..]), k);
    }
  }

  lemma {:induction false} NoNamesNoRecords(m: Message, n: nat)
    requires n <= |m.authority| && NsNames(m, n) == []
    ensures forall i :: 0 <= i < n && m.authority[i].rtype == 2 ==> Parsed(m.raw, m.authority[i].offset).Err?
  {
    hide Parsed;
    if n > 0 { NoNamesNoRecords(m, n - 1); }
  }

  lemma {:induction false} FirstAlias(rrs: seq<RR>, k: nat)
    requires k < |rrs| && rrs[k].rtype == 5 && forall i :: 0 <= i < k ==> rrs[i].rtype != 5
    ensures FirstCname(rrs) == k
  {
    if k > 0 { FirstAlias(rrs[1..], k - 1); }
  }

  /** From resolution to the client: the packet sent for a resolved answer parses, and its i-th answer
      is an alias leading to the very name that resolution, right after receiving it, looked up, and,
      if that missed, asked upstream for. */
  lemma {:induction false} ResolvedChainArrives(w: World, log: Log, from: nat, name: Str, qtype: u16, t: Trail, i: nat)
    requires Followed(w, log, from, name, qtype, t) && PackableMessage(Built(t)) && i < |t.hops|
    requires TargetOf(t.hops[i]).Some? && Dotted(TargetOf(t.hops[i]).value)
    ensures var r := ParsedMessage(PackedMessage(Built(t)).bytes);
            var target := TargetOf(t.hops[i]).value;
            && r.Ok? && i < |r.value.answers|
            && LeadsTo(r.value.answers[i], r.value.raw, t.hops[i].alias.rr.name, target)
            && t.hops[i].at + 1 < |log| && log[t.hops[i].at + 1] == LookedUp(target, qtype)
            && (i + 1 < |t.hops| ==> t.hops[i + 1].at < |log| && AskedFor(log[t.hops[i + 1].at], target, qtype))
  {
    TargetIsAskedNext(w, log, from, name, qtype, t, i);
    hide ParsedMessage, PackedMessage, PackableMessage, LeadsTo, Chain, NameInPacket, Followed, AskedFor;
    assert GoodAlias(Aliases(t.hops)[i]);
    ChainSurvives(Aliases(t.hops), t.last, i);
  }
}
