/** The course of a resolution: whom it asks one after the other, why it goes on to the next server, and where a
    referral or an alias takes it. */
module Courses {
  import opened Wrappers
  import opened Text
  import opened Failures
  import opened NameWalk
  import opened Message
  import opened RoundTrip
  import opened Records
  import opened Trails
  import WireLayout

  /* ----- Whom a referral leads to ----- */

  ghost predicate YieldsBy(w: World, log: Log, from: nat, ns: Str, qtype: u16, ips: seq<Server>, t: Trail) {
    Followed(w, log, from, ns, qtype, t) && ips == Addresses(t.last.answers, qtype)
  }

  /** What looking for a name server's addresses of one type came to: those of the answer it led to, or none, for
      a reason in the log. */
  ghost predicate Yields(w: World, log: Log, from: nat, ns: Str, qtype: u16, ips: seq<Server>) {
    || (exists t :: YieldsBy(w, log, from, ns, qtype, ips, t))
    || (ips == [] && exists f :: Explained(w, log, from, ns, qtype, f))
  }

  /** Of the two lists of a name server one that is not empty is used, if there is one. */
  ghost predicate PickedOf(w: World, log: Log, from: nat, ns: Str, ips: seq<Server>, v4: seq<Server>, v6: seq<Server>) {
    && Yields(w, log, from, ns, TYPE_A, v4) && Yields(w, log, from, ns, TYPE_AAAA, v6)
    && (ips == v4 || ips == v6) && (ips == [] ==> v4 == [] && v6 == [])
  }

  ghost predicate Picked(w: World, log: Log, from: nat, ns: Str, ips: seq<Server>) {
    exists v4, v6 :: PickedOf(w, log, from, ns, ips, v4, v6)
  }

  /** The addresses of every name server of a list. */
  ghost predicate Gathered(w: World, log: Log, from: nat, nsNames: seq<Str>, parts: seq<seq<Server>>) {
    |parts| == |nsNames| && forall i :: 0 <= i < |parts| ==> Picked(w, log, from, nsNames[i], parts[i])
  }

  function Flat(parts: seq<seq<Server>>): seq<Server> {
    if parts == [] then [] else Flat(parts[..|parts| - 1]) + parts[|parts| - 1]
  }

  ghost predicate IsReferral(m: Message) {
    m.answers == [] && NsNames(m, |m.authority|) != []
  }

  /** The servers that the referral received at this place leads to: all of its glue, or without any the
      addresses of all its name servers. */
  ghost predicate Servers(w: World, log: Log, at: nat, servers: seq<Server>) {
    && at < |log| && ReplyTo(w, log, at).Some? && IsReferral(ReplyTo(w, log, at).value)
    && var m := ReplyTo(w, log, at).value;
       var names := NsNames(m, |m.authority|);
       if Glue(m.additional, names) != [] then servers == Glue(m.additional, names)
       else exists parts :: Gathered(w, log, at + 1, names, parts) && servers == Flat(parts)
  }

  /* ----- The course ----- */

  /** Nothing came of the question at this place: no usable reply, or a referral that leads nowhere. */
  ghost predicate Dead(w: World, log: Log, at: nat) {
    at < |log| && (ReplyTo(w, log, at).None? || Servers(w, log, at, []))
  }

  ghost predicate FinalAt(w: World, log: Log, at: nat, qtype: u16) {
    at < |log| && ReplyTo(w, log, at).Some? && Final(ReplyTo(w, log, at).value, qtype)
  }

  /** Questions for one name to the servers of a list, one after the other, the first of them at this place, as
      long as nothing comes of them. */
  ghost predicate Tried(w: World, log: Log, from: nat, name: Str, qtype: u16, servers: seq<Server>, asked: seq<nat>) {
    && |asked| <= |servers| && (servers != [] ==> asked != [] && asked[0] == from)
    && (forall j :: 0 <= j < |asked| ==> from <= asked[j] < |log| && log[asked[j]] == Asked(servers[j], name, qtype))
    && (forall j :: 0 <= j < |asked| - 1 ==> asked[j] < asked[j + 1] && Dead(w, log, asked[j]))
  }

  /** All of them without success. */
  ghost predicate AllDead(w: World, log: Log, from: nat, name: Str, qtype: u16, servers: seq<Server>, asked: seq<nat>) {
    && |asked| <= |servers| && (asked != [] ==> asked[0] == from)
    && (forall j :: 0 <= j < |asked| ==> from <= asked[j] < |log| && log[asked[j]] == Asked(servers[j], name, qtype))
    && (forall j :: 0 <= j < |asked| - 1 ==> asked[j] < asked[j + 1])
    && (forall j :: 0 <= j < |asked| ==> Dead(w, log, asked[j]))
  }

  /** Resolving a name, level by level: which questions for it were asked where. The servers are asked in turn
      until something comes of it: a final reply; an alias, whose target is looked up and on a miss
      resolved from the roots; or a referral, whose servers are asked next. Nothing is asked too deep. */
  ghost predicate Went(w: World, log: Log, from: nat, name: Str, qtype: u16, servers: seq<Server>, depth: nat,
                       maxDepth: nat, levels: seq<seq<nat>>)
    decreases |levels|, 2
  {
    if depth > maxDepth then levels == []
    else
      && levels != [] && Tried(w, log, from, name, qtype, servers, levels[0])
      && var asked, rest := levels[0], levels[1..];
         if asked == [] then rest == []
         else
           var at := asked[|asked| - 1];
           || (Dead(w, log, at) && |asked| == |servers| && rest == [])
           || Turned(w, log, at, name, qtype, depth, maxDepth, rest)
           || Delegated(w, log, at, name, qtype, depth, maxDepth, rest)
  }

  /** A reply with an answer ends the course, or its alias takes it to another name. */
  ghost predicate Turned(w: World, log: Log, at: nat, name: Str, qtype: u16, depth: nat, maxDepth: nat,
                         rest: seq<seq<nat>>)
    decreases |rest|, 4
  {
    || (rest == [] && (FinalAt(w, log, at, qtype) || UnreadableAliasAt(w, log, at)))
    || exists h :: TurnedBy(w, log, at, name, qtype, depth, maxDepth, rest, h)
  }

  ghost predicate TurnedBy(w: World, log: Log, at: nat, name: Str, qtype: u16, depth: nat, maxDepth: nat,
                           rest: seq<seq<nat>>, h: AliasHop)
    decreases |rest|, 3
  {
    && h.at == at && at + 1 < |log| && TargetOf(h).Some? && AliasFor(w, log, h, name, qtype)
    && if w.cached(log[..at + 2]).Miss?
       then Went(w, log, at + 2, TargetOf(h).value, qtype, ROOT_SERVERS, depth + 1, maxDepth, rest)
       else rest == []
  }

  ghost predicate Delegated(w: World, log: Log, at: nat, name: Str, qtype: u16, depth: nat, maxDepth: nat,
                            rest: seq<seq<nat>>)
    decreases |rest|, 4
  {
    exists next, start :: DelegatedTo(w, log, at, name, qtype, depth, maxDepth, rest, next, start)
  }

  /** The servers of a referral are asked next, right after it if it has glue. */
  ghost predicate DelegatedTo(w: World, log: Log, at: nat, name: Str, qtype: u16, depth: nat, maxDepth: nat,
                              rest: seq<seq<nat>>, next: seq<Server>, start: nat)
    decreases |rest|, 3
  {
    && Servers(w, log, at, next) && next != [] && at < start
    && var m := ReplyTo(w, log, at).value;
       && (Glue(m.additional, NsNames(m, |m.authority|)) != [] ==> start == at + 1)
       && Went(w, log, start, name, qtype, next, depth + 1, maxDepth, rest)
  }

  /** An alias whose target was in the cache. */
  ghost predicate AliasHit(w: World, log: Log, at: nat) {
    && at + 1 < |log| && ReplyTo(w, log, at).Some? && ReplyTo(w, log, at).value.answers != []
    && !UnreadableAliasAt(w, log, at) && log[at + 1].LookedUp? && w.cached(log[..at + 2]).Hit?
  }

  /** The course ends with an answer. */
  ghost predicate Arrives(w: World, log: Log, qtype: u16, levels: seq<seq<nat>>) {
    levels != [] && levels[|levels| - 1] != []
    && ArrivesAt(w, log, qtype, levels[|levels| - 1][|levels[|levels| - 1]| - 1])
  }

  ghost predicate ArrivesAt(w: World, log: Log, qtype: u16, at: nat) {
    FinalAt(w, log, at, qtype) || AliasHit(w, log, at)
  }

  /* ----- Evidence stays evidence ----- */

  lemma YieldsLater(w: World, log: Log, log': Log, from: nat, from': nat, ns: Str, qtype: u16, ips: seq<Server>)
    requires Yields(w, log, from, ns, qtype, ips) && log <= log' && from' <= from
    ensures Yields(w, log', from', ns, qtype, ips)
  {
    hide Followed, Explained, Addresses;
    if t :| YieldsBy(w, log, from, ns, qtype, ips, t) {
      FollowedLater(w, log, log', from, ns, qtype, t);
      FollowedEarlier(w, log', from, from', ns, qtype, t);
      assert YieldsBy(w, log', from', ns, qtype, ips, t);
    } else {
      var f :| Explained(w, log, from, ns, qtype, f);
      ExplainedLater(w, log, log', from, ns, qtype, f);
      ExplainedEarlier(w, log', from, from', ns, qtype, f);
    }
  }

  lemma PickedLater(w: World, log: Log, log': Log, from: nat, from': nat, ns: Str, ips: seq<Server>)
    requires Picked(w, log, from, ns, ips) && log <= log' && from' <= from
    ensures Picked(w, log', from', ns, ips)
  {
    hide Yields;
    var v4, v6 :| PickedOf(w, log, from, ns, ips, v4, v6);
    YieldsLater(w, log, log', from, from', ns, TYPE_A, v4);
    YieldsLater(w, log, log', from, from', ns, TYPE_AAAA, v6);
    assert PickedOf(w, log', from', ns, ips, v4, v6);
  }

  lemma GatheredLater(w: World, log: Log, log': Log, from: nat, nsNames: seq<Str>, parts: seq<seq<Server>>)
    requires Gathered(w, log, from, nsNames, parts) && log <= log'
    ensures Gathered(w, log', from, nsNames, parts)
  {
    hide Picked;
    forall i | 0 <= i < |parts| ensures Picked(w, log', from, nsNames[i], parts[i]) {
      PickedLater(w, log, log', from, from, nsNames[i], parts[i]);
    }
  }

  lemma NothingGathered(w: World, log: Log, from: nat, nsNames: seq<Str>)
    ensures Gathered(w, log, from, nsNames[..0], []) && Flat([]) == []
  {
  }

  lemma GatheredNext(w: World, log: Log, log': Log, from: nat, nsNames: seq<Str>, i: nat, parts: seq<seq<Server>>,
                     ips: seq<Server>)
    requires i < |nsNames| && from <= |log| && log <= log' && Gathered(w, log, from, nsNames[..i], parts)
    requires Picked(w, log', |log|, nsNames[i], ips)
    ensures Gathered(w, log', from, nsNames[..i + 1], parts + [ips]) && Flat(parts + [ips]) == Flat(parts) + ips
  {
    hide Picked;
    PickedLater(w, log', log', |log|, from, nsNames[i], ips);
    GatheredLater(w, log, log', from, nsNames[..i], parts);
    assert (parts + [ips])[..|parts|] == parts;
    assert forall j :: 0 <= j < i ==> nsNames[..i][j] == nsNames[j];
  }

  lemma ServersLater(w: World, log: Log, log': Log, at: nat, servers: seq<Server>)
    requires Servers(w, log, at, servers) && log <= log'
    ensures Servers(w, log', at, servers)
  {
    hide ReplyTo, NsNames, Glue, Gathered;
    ReplyLater(w, log, log', at);
    var m := ReplyTo(w, log, at).value;
    var names := NsNames(m, |m.authority|);
    if Glue(m.additional, names) == [] {
      var parts :| Gathered(w, log, at + 1, names, parts) && servers == Flat(parts);
      GatheredLater(w, log, log', at + 1, names, parts);
    }
  }

  lemma DeadLater(w: World, log: Log, log': Log, at: nat)
    requires Dead(w, log, at) && log <= log'
    ensures Dead(w, log', at)
  {
    hide ReplyTo, Servers;
    ReplyLater(w, log, log', at);
    if Servers(w, log, at, []) { ServersLater(w, log, log', at, []); }
  }

  /* ----- How a course goes on ----- */

  lemma NobodyAsked(w: World, log: Log, name: Str, qtype: u16, servers: seq<Server>)
    ensures AllDead(w, log, |log|, name, qtype, servers, [])
  {
  }

  /** The question to the next server. */
  lemma TriedNext(w: World, log: Log, log': Log, from: nat, name: Str, qtype: u16, servers: seq<Server>,
                  asked: seq<nat>)
    requires AllDead(w, log, from, name, qtype, servers, asked) && |asked| < |servers|
    requires log + [Asked(servers[|asked|], name, qtype)] <= log' && from <= |log| && (asked == [] ==> from == |log|)
    ensures Tried(w, log', from, name, qtype, servers, asked + [|log|])
    ensures Dead(w, log', |log|) ==> AllDead(w, log', from, name, qtype, servers, asked + [|log|])
  {
    hide Dead;
    var more := asked + [|log|];
    assert log'[|log|] == Asked(servers[|asked|], name, qtype);
    forall j | 0 <= j < |asked| ensures Dead(w, log', asked[j]) && log'[asked[j]] == log[asked[j]] {
      DeadLater(w, log, log', asked[j]);
    }
  }

  lemma WentNowhere(w: World, log: Log, from: nat, name: Str, qtype: u16, servers: seq<Server>, depth: nat,
                    maxDepth: nat, asked: seq<nat>)
    requires depth <= maxDepth && AllDead(w, log, from, name, qtype, servers, asked) && |asked| == |servers|
    ensures Went(w, log, from, name, qtype, servers, depth, maxDepth, [asked]) && !Arrives(w, log, qtype, [asked])
  {
    hide Dead, Turned, Delegated, ArrivesAt;
    assert [asked][1..] == [];
    if asked != [] { DeadIsNoArrival(w, log, asked[|asked| - 1], qtype); }
  }

  lemma DeadIsNoArrival(w: World, log: Log, at: nat, qtype: u16)
    requires Dead(w, log, at)
    ensures !ArrivesAt(w, log, qtype, at)
  {
    hide ReplyTo, NsNames, Glue, Gathered, Parsed, HasTerminal;
  }

  lemma WentTooDeep(w: World, log: Log, from: nat, name: Str, qtype: u16, servers: seq<Server>, depth: nat,
                    maxDepth: nat)
    requires depth > maxDepth
    ensures Went(w, log, from, name, qtype, servers, depth, maxDepth, []) && !Arrives(w, log, qtype, [])
  {
  }

  lemma WentOn(w: World, log: Log, from: nat, name: Str, qtype: u16, servers: seq<Server>, depth: nat, maxDepth: nat,
               asked: seq<nat>, rest: seq<seq<nat>>)
    requires depth <= maxDepth && Tried(w, log, from, name, qtype, servers, asked) && asked != []
    requires var at := asked[|asked| - 1];
             || Turned(w, log, at, name, qtype, depth, maxDepth, rest)
             || Delegated(w, log, at, name, qtype, depth, maxDepth, rest)
    ensures Went(w, log, from, name, qtype, servers, depth, maxDepth, [asked] + rest)
    ensures Arrives(w, log, qtype, [asked] + rest)
            <==> if rest == [] then ArrivesAt(w, log, qtype, asked[|asked| - 1]) else Arrives(w, log, qtype, rest)
  {
    hide Dead, Turned, Delegated, Tried, ArrivesAt;
    assert ([asked] + rest)[1..] == rest;
  }

  /** A reply that is an answer in itself. */
  lemma TurnedAtOnce(w: World, log: Log, at: nat, m: Message, name: Str, qtype: u16, depth: nat, maxDepth: nat)
    requires at < |log| && ReplyTo(w, log, at) == Some(m) && Final(m, qtype)
    ensures Turned(w, log, at, name, qtype, depth, maxDepth, []) && ArrivesAt(w, log, qtype, at)
  {
    hide ReplyTo, Final, TurnedBy;
  }

  lemma TurnedNowhere(w: World, log: Log, at: nat, m: Message, name: Str, qtype: u16, depth: nat, maxDepth: nat)
    requires at < |log| && ReplyTo(w, log, at) == Some(m) && FirstCname(m.answers) < |m.answers| && qtype != TYPE_CNAME
    requires Parsed(m.raw, m.answers[FirstCname(m.answers)].offset).Err?
    ensures Turned(w, log, at, name, qtype, depth, maxDepth, []) && !ArrivesAt(w, log, qtype, at)
  {
    hide ReplyTo, Parsed, TurnedBy, HasTerminal, NsNames;
    assert UnreadableAliasAt(w, log, at);
  }

  /** An alias: its target is in the cache, or resolved from the roots. */
  lemma TurnedByAlias(w: World, log: Log, h: AliasHop, name: Str, qtype: u16, depth: nat, maxDepth: nat,
                      rest: seq<seq<nat>>)
    requires AliasFor(w, log, h, name, qtype) && TargetOf(h).Some? && h.at + 1 < |log| && qtype != TYPE_CNAME
    requires if w.cached(log[..h.at + 2]).Miss?
             then Went(w, log, h.at + 2, TargetOf(h).value, qtype, ROOT_SERVERS, depth + 1, maxDepth, rest)
             else rest == []
    ensures Turned(w, log, h.at, name, qtype, depth, maxDepth, rest)
    ensures ArrivesAt(w, log, qtype, h.at) <==> w.cached(log[..h.at + 2]).Hit?
  {
    hide *;
    AliasIsNotFinal(w, log, h, name, qtype);
    AliasTurns(w, log, h, name, qtype, depth, maxDepth, rest);
    AliasArrives(w, log, h.at, qtype);
  }

  lemma AliasTurns(w: World, log: Log, h: AliasHop, name: Str, qtype: u16, depth: nat, maxDepth: nat,
                   rest: seq<seq<nat>>)
    requires AliasFor(w, log, h, name, qtype) && TargetOf(h).Some? && h.at + 1 < |log|
    requires if w.cached(log[..h.at + 2]).Miss?
             then Went(w, log, h.at + 2, TargetOf(h).value, qtype, ROOT_SERVERS, depth + 1, maxDepth, rest)
             else rest == []
    ensures Turned(w, log, h.at, name, qtype, depth, maxDepth, rest)
  {
    hide AliasFor, TargetOf, Went, FinalAt, UnreadableAliasAt;
    assert TurnedBy(w, log, h.at, name, qtype, depth, maxDepth, rest, h);
  }

  lemma AliasArrives(w: World, log: Log, at: nat, qtype: u16)
    requires at + 1 < |log| && !FinalAt(w, log, at, qtype) && !UnreadableAliasAt(w, log, at)
    requires log[at + 1].LookedUp? && ReplyTo(w, log, at).Some? && ReplyTo(w, log, at).value.answers != []
    ensures ArrivesAt(w, log, qtype, at) <==> w.cached(log[..at + 2]).Hit?
  {
    hide ReplyTo, FinalAt, UnreadableAliasAt;
  }

  lemma AliasIsNotFinal(w: World, log: Log, h: AliasHop, name: Str, qtype: u16)
    requires AliasFor(w, log, h, name, qtype) && qtype != TYPE_CNAME
    ensures !FinalAt(w, log, h.at, qtype) && !UnreadableAliasAt(w, log, h.at)
    ensures h.at + 1 < |log| && log[h.at + 1].LookedUp? && ReplyTo(w, log, h.at).Some?
            && ReplyTo(w, log, h.at).value.answers != []
  {
    hide ReplyTo, Parsed, HasTerminal, NsNames;
  }

  lemma DelegatedOn(w: World, log: Log, at: nat, name: Str, qtype: u16, depth: nat, maxDepth: nat,
                    rest: seq<seq<nat>>, next: seq<Server>, start: nat)
    requires Servers(w, log, at, next) && next != [] && at < start
    requires var m := ReplyTo(w, log, at).value; Glue(m.additional, NsNames(m, |m.authority|)) != [] ==> start == at + 1
    requires Went(w, log, start, name, qtype, next, depth + 1, maxDepth, rest)
    ensures Delegated(w, log, at, name, qtype, depth, maxDepth, rest) && !ArrivesAt(w, log, qtype, at)
  {
    hide ReplyTo, NsNames, Glue, Gathered, Went;
    assert DelegatedTo(w, log, at, name, qtype, depth, maxDepth, rest, next, start);
  }

  /* ----- What it says ----- */

  /** A reply can be used if it parses and the low half of its fourth byte, the response code, is zero; if that is
      three, the name is denied. */
  lemma ReplyCodes(w: World, log: Log, at: nat, name: Str, qtype: u16)
    requires at < |log| && log[at].Asked? && log[at].name == name && log[at].qtype == qtype
    ensures var packet := w.packet(log[..at + 1]);
            && (ReplyTo(w, log, at).Some?
                <==> packet.Ok? && ParsedMessage(packet.value).Ok? && |packet.value| >= 4 && packet.value[3] % 16 == 0)
            && (DeniedAt(w, log, at, name, qtype)
                <==> packet.Ok? && ParsedMessage(packet.value).Ok? && |packet.value| >= 4 && packet.value[3] % 16 == 3)
            && (ReplyTo(w, log, at).Some? ==> ReplyTo(w, log, at) == Some(ParsedMessage(packet.value).value))
  {
    hide ParsedMessage;
    var packet := w.packet(log[..at + 1]);
    if packet.Ok? && ParsedMessage(packet.value).Ok? { CodeAt(packet.value); }
  }

  lemma CodeAt(packet: Str)
    requires ParsedMessage(packet).Ok?
    ensures |packet| >= 4 && ParsedMessage(packet).value.header.flags % 16 == packet[3] % 16
  {
    hide *;
    WireLayout.MessageLayout(packet);
    LowHalf(packet);
  }

  lemma LowHalf(packet: Str)
    requires |packet| >= 12
    ensures WireLayout.Two(packet, 2) % 16 == packet[3] % 16
  {
  }

  /** After a referral with glue, and with levels left, the very next question is the same one, to the first server
      of the glue; and all of the glue is what the course goes on with. */
  lemma GlueIsAskedNext(w: World, log: Log, from: nat, name: Str, qtype: u16, servers: seq<Server>, depth: nat,
                        maxDepth: nat, levels: seq<seq<nat>>)
    requires Went(w, log, from, name, qtype, servers, depth, maxDepth, levels) && depth < maxDepth
    requires levels != [] && levels[0] != []
    requires var at := levels[0][|levels[0]| - 1];
             && at < |log| && ReplyTo(w, log, at).Some? && ReplyTo(w, log, at).value.answers == []
             && var m := ReplyTo(w, log, at).value;
                NsNames(m, |m.authority|) != [] && Glue(m.additional, NsNames(m, |m.authority|)) != []
    ensures var at := levels[0][|levels[0]| - 1];
            var m := ReplyTo(w, log, at).value;
            var glue := Glue(m.additional, NsNames(m, |m.authority|));
            && at + 1 < |log| && log[at + 1] == Asked(glue[0], name, qtype)
            && Went(w, log, at + 1, name, qtype, glue, depth + 1, maxDepth, levels[1..])
  {
    hide *;
    var at, rest := levels[0][|levels[0]| - 1], levels[1..];
    AtReferral(w, log, at, name, qtype, depth, maxDepth, rest);
    OneOfThree(w, log, from, name, qtype, servers, depth, maxDepth, levels);
    GoesToGlue(w, log, at, name, qtype, depth, maxDepth, rest);
  }

  lemma OneOfThree(w: World, log: Log, from: nat, name: Str, qtype: u16, servers: seq<Server>, depth: nat,
                   maxDepth: nat, levels: seq<seq<nat>>)
    requires Went(w, log, from, name, qtype, servers, depth, maxDepth, levels) && depth <= maxDepth
    requires levels != [] && levels[0] != []
    ensures var at, rest := levels[0][|levels[0]| - 1], levels[1..];
            || Dead(w, log, at) || Turned(w, log, at, name, qtype, depth, maxDepth, rest)
            || Delegated(w, log, at, name, qtype, depth, maxDepth, rest)
  {
    hide Tried, Dead, Turned, Delegated;
  }

  lemma GoesToGlue(w: World, log: Log, at: nat, name: Str, qtype: u16, depth: nat, maxDepth: nat, rest: seq<seq<nat>>)
    requires Delegated(w, log, at, name, qtype, depth, maxDepth, rest) && depth < maxDepth
    requires at < |log| && ReplyTo(w, log, at).Some?
    requires var m := ReplyTo(w, log, at).value; Glue(m.additional, NsNames(m, |m.authority|)) != []
    ensures var m := ReplyTo(w, log, at).value;
            var glue := Glue(m.additional, NsNames(m, |m.authority|));
            && at + 1 < |log| && log[at + 1] == Asked(glue[0], name, qtype)
            && Went(w, log, at + 1, name, qtype, glue, depth + 1, maxDepth, rest)
  {
    hide ReplyTo, NsNames, Glue, Went;
    var next, start :| DelegatedTo(w, log, at, name, qtype, depth, maxDepth, rest, next, start);
    FirstAsked(w, log, start, name, qtype, next, depth + 1, maxDepth, rest);
  }

  lemma FirstAsked(w: World, log: Log, from: nat, name: Str, qtype: u16, servers: seq<Server>, depth: nat,
                   maxDepth: nat, levels: seq<seq<nat>>)
    requires Went(w, log, from, name, qtype, servers, depth, maxDepth, levels) && depth <= maxDepth && servers != []
    ensures from < |log| && log[from] == Asked(servers[0], name, qtype)
  {
    hide Dead, Turned, Delegated;
  }

  /** A referral with glue is neither dead nor an answer. */
  lemma AtReferral(w: World, log: Log, at: nat, name: Str, qtype: u16, depth: nat, maxDepth: nat, rest: seq<seq<nat>>)
    requires at < |log| && ReplyTo(w, log, at).Some? && ReplyTo(w, log, at).value.answers == []
    requires var m := ReplyTo(w, log, at).value; NsNames(m, |m.authority|) != []
    ensures !Turned(w, log, at, name, qtype, depth, maxDepth, rest)
    ensures var m := ReplyTo(w, log, at).value;
            Glue(m.additional, NsNames(m, |m.authority|)) != [] ==> !Dead(w, log, at)
  {
    hide ReplyTo, NsNames, Glue, Gathered, Went, AliasFor, Parsed, HasTerminal, TargetOf;
    forall h ensures !TurnedBy(w, log, at, name, qtype, depth, maxDepth, rest, h) {
      if TurnedBy(w, log, at, name, qtype, depth, maxDepth, rest, h) { AliasHasAnswers(w, log, h, name, qtype); }
    }
  }

  lemma AliasHasAnswers(w: World, log: Log, h: AliasHop, name: Str, qtype: u16)
    requires AliasFor(w, log, h, name, qtype)
    ensures h.at < |log| && ReplyTo(w, log, h.at).Some? && ReplyTo(w, log, h.at).value.answers != []
  {
    hide ReplyTo, TargetOf, HasTerminal;
  }

  /** A server is passed over only if it gave no usable reply, or a referral without glue; and if none gave a usable
      reply, all of them were asked, in their order. */
  lemma AllAreAsked(w: World, log: Log, from: nat, name: Str, qtype: u16, servers: seq<Server>, depth: nat,
                    maxDepth: nat, levels: seq<seq<nat>>, j: nat)
    requires Went(w, log, from, name, qtype, servers, depth, maxDepth, levels) && depth <= maxDepth
    requires levels != [] && j < |levels[0]|
    ensures levels[0][j] < |log| && |levels[0]| <= |servers| && log[levels[0][j]] == Asked(servers[j], name, qtype)
    ensures levels[0][0] == from
    ensures j + 1 < |levels[0]| ==>
              && levels[0][j] < levels[0][j + 1]
              && (ReplyTo(w, log, levels[0][j]).None?
                  || var m := ReplyTo(w, log, levels[0][j]).value;
                     m.answers == [] && NsNames(m, |m.authority|) != []
                     && Glue(m.additional, NsNames(m, |m.authority|)) == [])
    ensures (forall k :: 0 <= k < |levels[0]| ==> levels[0][k] < |log| && ReplyTo(w, log, levels[0][k]).None?) ==>
              |levels[0]| == |servers|
  {
    hide *;
    var asked, rest := levels[0], levels[1..];
    WentTried(w, log, from, name, qtype, servers, depth, maxDepth, levels, j);
    if j + 1 < |asked| { DeadMeans(w, log, asked[j]); }
    var at := asked[|asked| - 1];
    if ReplyTo(w, log, at).None? {
      NoTurnWithoutReply(w, log, at, name, qtype, depth, maxDepth, rest);
      EndsDead(w, log, from, name, qtype, servers, depth, maxDepth, levels);
    }
  }

  lemma WentTried(w: World, log: Log, from: nat, name: Str, qtype: u16, servers: seq<Server>, depth: nat,
                  maxDepth: nat, levels: seq<seq<nat>>, j: nat)
    requires Went(w, log, from, name, qtype, servers, depth, maxDepth, levels) && depth <= maxDepth
    requires levels != [] && j < |levels[0]|
    ensures var asked := levels[0];
            && |asked| <= |servers| && asked[0] == from && asked[|asked| - 1] < |log|
            && asked[j] < |log| && log[asked[j]] == Asked(servers[j], name, qtype)
            && (j + 1 < |asked| ==> asked[j] < asked[j + 1] && Dead(w, log, asked[j]))
  {
    hide Dead, Turned, Delegated;
  }

  lemma EndsDead(w: World, log: Log, from: nat, name: Str, qtype: u16, servers: seq<Server>, depth: nat,
                 maxDepth: nat, levels: seq<seq<nat>>)
    requires Went(w, log, from, name, qtype, servers, depth, maxDepth, levels) && depth <= maxDepth
    requires levels != [] && levels[0] != []
    requires var at, rest := levels[0][|levels[0]| - 1], levels[1..];
             && !Turned(w, log, at, name, qtype, depth, maxDepth, rest)
             && !Delegated(w, log, at, name, qtype, depth, maxDepth, rest)
    ensures |levels[0]| == |servers|
  {
    hide Tried, Dead, Turned, Delegated;
  }

  lemma DeadMeans(w: World, log: Log, at: nat)
    requires Dead(w, log, at)
    ensures at < |log|
    ensures ReplyTo(w, log, at).None?
            || var m := ReplyTo(w, log, at).value;
               m.answers == [] && NsNames(m, |m.authority|) != [] && Glue(m.additional, NsNames(m, |m.authority|)) == []
  {
    hide ReplyTo, NsNames, Glue, Gathered;
  }

  lemma NoTurnWithoutReply(w: World, log: Log, at: nat, name: Str, qtype: u16, depth: nat, maxDepth: nat,
                           rest: seq<seq<nat>>)
    requires at < |log| && ReplyTo(w, log, at).None?
    ensures !Turned(w, log, at, name, qtype, depth, maxDepth, rest)
    ensures !Delegated(w, log, at, name, qtype, depth, maxDepth, rest)
  {
    hide ReplyTo, Went, TargetOf, HasTerminal, Gathered, NsNames, Glue;
    forall h ensures !TurnedBy(w, log, at, name, qtype, depth, maxDepth, rest, h) {
      if TurnedBy(w, log, at, name, qtype, depth, maxDepth, rest, h) { AliasHasAnswers(w, log, h, name, qtype); }
    }
  }

  /** After a reply whose first alias comes without its target's records, the very next thing is to look the target up;
      and on a miss, with levels left, to ask the first root server for it. */
  lemma AliasIsFollowedNext(w: World, log: Log, from: nat, name: Str, qtype: u16, servers: seq<Server>, depth: nat,
                            maxDepth: nat, levels: seq<seq<nat>>, target: Str)
    requires Went(w, log, from, name, qtype, servers, depth, maxDepth, levels) && depth < maxDepth
    requires levels != [] && levels[0] != [] && qtype != 5
    requires var at := levels[0][|levels[0]| - 1];
             && at < |log| && ReplyTo(w, log, at).Some?
             && var m := ReplyTo(w, log, at).value;
                && FirstCname(m.answers) < |m.answers| && m.answers[FirstCname(m.answers)].offset >= 12
                && Parsed(m.raw, m.answers[FirstCname(m.answers)].offset).Ok?
                && Parsed(m.raw, m.answers[FirstCname(m.answers)].offset).value.0 == target
                && !HasTerminal(m.answers, target, qtype)
    ensures var at := levels[0][|levels[0]| - 1];
            && at + 1 < |log| && log[at + 1] == LookedUp(target, qtype)
            && (w.cached(log[..at + 2]).Miss? ==>
                  at + 2 < |log| && log[at + 2] == Asked(ROOT_SERVERS[0], target, qtype))
  {
    hide *;
    var at, rest := levels[0][|levels[0]| - 1], levels[1..];
    var m := ReplyTo(w, log, at).value;
    OneOfThree(w, log, from, name, qtype, servers, depth, maxDepth, levels);
    NeitherEndNorReferral(w, log, at, m, name, qtype, depth, maxDepth, rest, target);
    AliasTaken(w, log, at, m, name, qtype, depth, maxDepth, rest, target);
  }

  lemma NeitherEndNorReferral(w: World, log: Log, at: nat, m: Message, name: Str, qtype: u16, depth: nat, maxDepth: nat,
                              rest: seq<seq<nat>>, target: Str)
    requires at < |log| && ReplyTo(w, log, at) == Some(m) && FirstCname(m.answers) < |m.answers| && qtype != 5
    requires Parsed(m.raw, m.answers[FirstCname(m.answers)].offset).Ok?
             && Parsed(m.raw, m.answers[FirstCname(m.answers)].offset).value.0 == target
    requires !HasTerminal(m.answers, target, qtype)
    ensures !FinalAt(w, log, at, qtype) && !UnreadableAliasAt(w, log, at) && !Dead(w, log, at)
    ensures !Delegated(w, log, at, name, qtype, depth, maxDepth, rest)
  {
    hide ReplyTo, Went, HasTerminal, Gathered, NsNames, Glue, Parsed;
  }

  lemma AliasTaken(w: World, log: Log, at: nat, m: Message, name: Str, qtype: u16, depth: nat, maxDepth: nat,
                   rest: seq<seq<nat>>, target: Str)
    requires Turned(w, log, at, name, qtype, depth, maxDepth, rest) && depth < maxDepth
    requires !FinalAt(w, log, at, qtype) && !UnreadableAliasAt(w, log, at)
    requires at < |log| && ReplyTo(w, log, at) == Some(m) && FirstCname(m.answers) < |m.answers|
    requires m.answers[FirstCname(m.answers)].offset >= 12
    requires Parsed(m.raw, m.answers[FirstCname(m.answers)].offset).Ok?
             && Parsed(m.raw, m.answers[FirstCname(m.answers)].offset).value.0 == target
    ensures at + 1 < |log| && log[at + 1] == LookedUp(target, qtype)
    ensures w.cached(log[..at + 2]).Miss? ==>
              at + 2 < |log| && log[at + 2] == Asked(ROOT_SERVERS[0], target, qtype)
  {
    hide ReplyTo, Went, HasTerminal, Parsed, FinalAt, UnreadableAliasAt;
    var h :| TurnedBy(w, log, at, name, qtype, depth, maxDepth, rest, h);
    if w.cached(log[..at + 2]).Miss? {
      FirstAsked(w, log, at + 2, target, qtype, ROOT_SERVERS, depth + 1, maxDepth, rest);
    }
  }
}
