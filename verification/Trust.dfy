/** The chain of trust over many zones: the cache of validated keys, the walk from a trusted zone down to a
    signer, and what a referral does to the trust. */
module Trust {
  import opened Wrappers
  import opened Text
  import opened Message
  import opened Canonical
  import opened Domains
  import opened ZoneKeys
  import SignatureScope

  /* ----- Establishing one zone's keys ----- */

  /** The first server that answers at all. */
  function FirstReply(replies: seq<Option<Message>>): Option<Message> {
    if replies == [] then None
    else if replies[0].Some? then replies[0]
    else FirstReply(replies[1..])
  }

  /** The first server that answers with some records. */
  function FirstAnswer(replies: seq<Option<Message>>): Option<Message> {
    if replies == [] then None
    else if replies[0].Some? && replies[0].value.answers != [] then replies[0]
    else FirstAnswer(replies[1..])
  }

  /** What the parent's servers reply, in their order, when asked for the DS and the DNSKEY records of
      one zone, and the clock readings in between. */
  datatype Replies = Replies(ds: seq<Option<Message>>, keys: seq<Option<Message>>,
                             dsTime: Time, keysTime: Time, cacheTime: Time)

  ghost function EstablishedKeys(c: Crypto, anchors: Keys, parent: Keys, zone: Str, w: Replies): (r: Option<Keys>)
    ensures r.Some? ==> FirstAnswer(w.keys).Some?
  {
    match FirstReply(w.ds)
    case None => None
    case Some(ds) =>
      match FirstAnswer(w.keys)
      case None => None
      case Some(m) =>
        var keys := AllKeys(c, OfType(m.answers, TYPE_DNSKEY));
        if Proves(c, anchors, parent, zone, keys, Evidence(ds, w.dsTime, m, w.keysTime)) then Some(keys) else None
  }

  method AskFirst(replies: seq<Option<Message>>, wantAnswers: bool) returns (r: Option<Message>)
    ensures r == if wantAnswers then FirstAnswer(replies) else FirstReply(replies)
  {
    for i := 0 to |replies|
      invariant FirstReply(replies) == FirstReply(replies[i..]) || wantAnswers
      invariant FirstAnswer(replies) == FirstAnswer(replies[i..]) || !wantAnswers
    {
      assert replies[i..][1..] == replies[i + 1..];
      if replies[i].None? {
        continue;
      }
      if !wantAnswers || |replies[i].value.answers| > 0 {
        return replies[i];
      }
    }
    return None;
  }

  datatype CachedZone = CachedZone(keys: Keys, expiresAt: Time)

  function Fqdn(name: Str): Str {
    if EndsWith(name, [DOT]) then name else name + [DOT]
  }

  function CacheKey(zone: Str): Str {
    Lower(Fqdn(zone))
  }

  function KeyTtl(rrs: seq<RR>): u32 {
    if rrs == [] || rrs[0].ttl == 0 then 3600 else rrs[0].ttl
  }

  type KeyCache = map<Str, CachedZone>

  /** A context: a zone and the keys trusted for it. */
  datatype Ctx = Ctx(zone: Str, keys: Keys)

  /** A zone is below another when the other's labels, redundant dots and case aside, are a suffix of its
      own; every zone is below the root and below itself. */
  predicate Below(zone: Str, above: Str) {
    LabelSuffix(LowerAll(Labels(above)), LowerAll(Labels(zone)))
  }

  /** Keys of a zone are trusted when a chain of links, each from a zone to one below it, leads to them
      from the roots. */
  ghost predicate TrustedWithin(c: Crypto, anchors: Keys, roots: set<Ctx>, zone: Str, keys: Keys, links: nat)
    decreases links, 0
  {
    Ctx(Normal(zone), keys) in roots || (links > 0 && LinkedTo(c, anchors, roots, zone, keys, links - 1))
  }

  ghost predicate LinkedTo(c: Crypto, anchors: Keys, roots: set<Ctx>, zone: Str, keys: Keys, links: nat)
    decreases links, 1
  {
    exists z, k :: TrustedWithin(c, anchors, roots, z, k, links) && Linked(c, anchors, z, k, zone, keys)
  }

  ghost predicate Linked(c: Crypto, anchors: Keys, above: Str, parent: Keys, zone: Str, keys: Keys) {
    Below(zone, above) && Established(c, anchors, parent, zone, keys)
  }

  ghost predicate Trusted(c: Crypto, anchors: Keys, roots: set<Ctx>, zone: Str, keys: Keys) {
    exists n: nat :: TrustedWithin(c, anchors, roots, zone, keys, n)
  }

  ghost predicate TrustedCache(c: Crypto, anchors: Keys, roots: set<Ctx>, cache: KeyCache) {
    forall k :: k in cache ==> Trusted(c, anchors, roots, k, cache[k].keys)
  }

  lemma TrustExtends(c: Crypto, anchors: Keys, roots: set<Ctx>, z: Str, k: Keys, zone: Str, keys: Keys)
    requires Trusted(c, anchors, roots, z, k) && Linked(c, anchors, z, k, zone, keys)
    ensures Trusted(c, anchors, roots, zone, keys)
  {
    hide Linked;
    var n: nat :| TrustedWithin(c, anchors, roots, z, k, n);
    assert LinkedTo(c, anchors, roots, zone, keys, n);
    assert TrustedWithin(c, anchors, roots, zone, keys, n + 1);
  }

  /* ----- Trust stays below its roots ----- */

  lemma BelowTransitive(a: Str, b: Str, c: Str)
    requires Below(a, b) && Below(b, c)
    ensures Below(a, c)
  {
    hide Labels, LowerAll;
  }

  lemma {:induction false} TrustedIsBelow(c: Crypto, anchors: Keys, roots: set<Ctx>, zone: Str, keys: Keys, links: nat)
    returns (root: Ctx)
    requires TrustedWithin(c, anchors, roots, zone, keys, links)
    ensures root in roots && Below(zone, root.zone)
    decreases links
  {
    hide Established, Normal;
    if Ctx(Normal(zone), keys) in roots {
      root := Ctx(Normal(zone), keys);
      BelowNormal(zone);
    } else {
      assert LinkedTo(c, anchors, roots, zone, keys, links - 1);
      var z, k :| TrustedWithin(c, anchors, roots, z, k, links - 1) && Linked(c, anchors, z, k, zone, keys);
      root := TrustedIsBelow(c, anchors, roots, z, k, links - 1);
      BelowTransitive(zone, z, root.zone);
    }
  }

  /** Whatever the servers reply, keys can only come to be trusted for zones at or below one of the roots. */
  lemma {:induction false} TrustStaysBelowRoots(c: Crypto, anchors: Keys, roots: set<Ctx>, zone: Str, keys: Keys)
    requires Trusted(c, anchors, roots, zone, keys)
    ensures exists root :: root in roots && Below(zone, root.zone)
  {
    var n: nat :| TrustedWithin(c, anchors, roots, zone, keys, n);
    var root := TrustedIsBelow(c, anchors, roots, zone, keys, n);
  }

  lemma NormalLabels(zone: Str)
    ensures LowerAll(Labels(Normal(zone))) == LowerAll(Labels(zone))
  {
    TrimDotLabels(zone);
    LowerLabels(TrimDot(zone));
    SignatureScope.LowerTwice(Labels(TrimDot(zone)));
  }

  lemma BelowNormal(zone: Str)
    ensures Below(zone, Normal(zone)) && Below(Normal(zone), zone)
  {
    NormalLabels(zone);
    hide Normal, Labels, LowerAll;
  }

  lemma LinkedNormal(c: Crypto, anchors: Keys, above: Str, parent: Keys, zone: Str, zone': Str, keys: Keys)
    requires Normal(zone) == Normal(zone') && Linked(c, anchors, above, parent, zone, keys)
    ensures Linked(c, anchors, above, parent, zone', keys)
  {
    EstablishedNormal(c, anchors, parent, zone, zone', keys);
    NormalLabels(zone);
    NormalLabels(zone');
    hide Established, Normal, Labels, LowerAll;
  }

  /** One more label in front leads below. */
  lemma UnderIsBelow(l: Str, zone: Str)
    ensures Below(Under(l, zone), zone)
  {
    if zone == [] {
      SplitDotless([]);
    } else {
      SplitConcat(l, zone);
      NonEmptyConcat(Split(l), Split(zone));
      LowerAllConcat(Labels(l), Labels(zone));
      hide Split, NonEmpty, LowerAll;
    }
  }

  lemma LowerAllConcat(a: seq<Str>, b: seq<Str>)
    ensures LowerAll(a + b) == LowerAll(a) + LowerAll(b)
  {
  }

  lemma {:induction false} StepsGoBelow(zone: Str, labels: seq<Str>, i: nat)
    requires i < |labels|
    ensures Below(Steps(zone, labels)[i], if i == 0 then zone else Steps(zone, labels)[i - 1])
    decreases |labels|
  {
    var front, next := labels[..|labels| - 1], Under(labels[|labels| - 1], zone);
    UnderIsBelow(labels[|labels| - 1], zone);
    StepsAt(zone, labels, i);
    if i > 0 {
      StepsAt(zone, labels, i - 1);
      hide *;
      StepsGoBelow(next, front, i - 1);
    }
  }

  /** Every zone of a chain is below the one before, and the first below the parent. */
  lemma ChainGoesBelow(parent: Str, target: Str, i: nat)
    requires i < |Chain(parent, target)|
    ensures Below(Chain(parent, target)[i], if i == 0 then parent else Chain(parent, target)[i - 1])
  {
    var p, t := Normal(parent), Normal(target);
    hide *;
    ChainDef(parent, target);
    StepsGoBelow(p, Split(Above(p, t)), i);
    BelowNormal(parent);
    if i == 0 { BelowTransitive(Chain(parent, target)[0], p, parent); }
  }

  /* ----- Trust does not depend on how a zone is written ----- */

  lemma CacheKeyNormal(zone: Str)
    ensures Normal(CacheKey(zone)) == Normal(zone)
  {
    var f := Fqdn(zone);
    var bare, k := f[..|f| - 1], Lower(f);
    assert zone != [] ==> zone[|zone| - 1..] == [zone[|zone| - 1]];
    assert f[|f| - 1] == DOT && bare == TrimDot(zone);
    assert k[|k| - 1] == DOT && TrimDot(k) == k[..|k| - 1] == Lower(bare);
    assert Lower(Lower(bare)) == Lower(bare);
  }

  lemma WireNameNormal(zone: Str)
    ensures WireName(Normal(zone)) == WireName(zone)
  {
    NormalLabels(zone);
  }

  lemma RootNormal(zone: Str)
    ensures IsRoot(zone) <==> Normal(zone) == []
  {
  }

  lemma {:induction false} OwnerNormal(rrs: seq<RR>, t: u16, zone: Str, zone': Str)
    requires Normal(zone) == Normal(zone')
    ensures OfTypeOwner(rrs, t, zone) == OfTypeOwner(rrs, t, zone')
  {
    hide Normal;
    if rrs != [] { OwnerNormal(rrs[..|rrs| - 1], t, zone, zone'); }
  }

  lemma SeedsNormal(c: Crypto, anchors: Keys, zone: Str, zone': Str, all: Keys, ds: seq<Ds>)
    requires Normal(zone) == Normal(zone')
    ensures Seeds(c, anchors, zone, all, ds) == Seeds(c, anchors, zone', all, ds)
  {
    RootNormal(zone);
    RootNormal(zone');
    WireNameNormal(zone);
    WireNameNormal(zone');
    hide Normal, WireName, DnsKeyRdata, IsRoot;
    forall t | t in all ensures Vouched(c, zone, all[t], ds) == Vouched(c, zone', all[t], ds) {
      assert forall i :: 0 <= i < |ds| ==> DsMatches(c, zone, all[t], ds[i]) == DsMatches(c, zone', all[t], ds[i]);
    }
  }

  lemma DsRecordsNormal(m: Message, zone: Str, zone': Str)
    requires Normal(zone) == Normal(zone')
    ensures DsRecords(m, zone) == DsRecords(m, zone')
  {
    OwnerNormal(m.answers, TYPE_DS, zone, zone');
    OwnerNormal(m.authority, TYPE_DS, zone, zone');
  }

  lemma EstablishedNormal(c: Crypto, anchors: Keys, parent: Keys, zone: Str, zone': Str, keys: Keys)
    requires Normal(zone) == Normal(zone') && Established(c, anchors, parent, zone, keys)
    ensures Established(c, anchors, parent, zone', keys)
  {
    var e :| Proves(c, anchors, parent, zone, keys, e);
    DsRecordsNormal(e.ds, zone, zone');
    SeedsNormal(c, anchors, zone, zone', AllKeys(c, OfType(e.keys.answers, TYPE_DNSKEY)),
                AllDs(DsRecords(e.ds, zone).0));
    hide Seeds, AnySignature, DsRecords, OfType, AllKeys, AllDs, Normal;
    assert Proves(c, anchors, parent, zone', keys, e);
  }

  lemma TrustedNormal(c: Crypto, anchors: Keys, roots: set<Ctx>, zone: Str, zone': Str, keys: Keys)
    requires Normal(zone) == Normal(zone') && Trusted(c, anchors, roots, zone, keys)
    ensures Trusted(c, anchors, roots, zone', keys)
  {
    hide Normal, Linked;
    var n: nat :| TrustedWithin(c, anchors, roots, zone, keys, n);
    if Ctx(Normal(zone), keys) in roots {
      assert TrustedWithin(c, anchors, roots, zone', keys, 0);
    } else {
      assert LinkedTo(c, anchors, roots, zone, keys, n - 1);
      var z, k :| TrustedWithin(c, anchors, roots, z, k, n - 1) && Linked(c, anchors, z, k, zone, keys);
      LinkedNormal(c, anchors, z, k, zone, zone', keys);
      assert LinkedTo(c, anchors, roots, zone', keys, n - 1);
      assert TrustedWithin(c, anchors, roots, zone', keys, n);
    }
  }

  /* ----- Whose signature it is ----- */

  /** The signer named by the first readable signature of this type; empty without one. */
  function Signer(rrsigs: seq<RR>, covered: u16): Str {
    if rrsigs == [] then []
    else
      var sig := ParseRrsig(rrsigs[0]);
      if sig.Some? && sig.value.typeCovered == covered then Normal(sig.value.signerName)
      else Signer(rrsigs[1..], covered)
  }

  method FirstSigner(rrsigs: seq<RR>, covered: u16) returns (signer: Str)
    ensures signer == Signer(rrsigs, covered)
  {
    hide ParseRrsig, Normal;
    for i := 0 to |rrsigs|
      invariant Signer(rrsigs, covered) == Signer(rrsigs[i..], covered)
    {
      assert rrsigs[i..][1..] == rrsigs[i + 1..];
      var sig := ParseRrsig(rrsigs[i]);
      if sig.Some? && sig.value.typeCovered == covered {
        return Normal(sig.value.signerName);
      }
    }
    return [];
  }

  /** Whether verification walks to the signer first. */
  predicate WalksDown(ctx: Ctx, signer: Str) {
    signer != [] && signer != Normal(ctx.zone) && IsDescendant(signer, Normal(ctx.zone))
  }

  /** The zone whose keys are used: where the walk ends, or the context's own. */
  function VerifierZone(ctx: Ctx, signer: Str): Str {
    var chain := Chain(ctx.zone, signer);
    if WalksDown(ctx, signer) && chain != [] then chain[|chain| - 1] else ctx.zone
  }

  /* ----- Referrals ----- */

  /** The zone a referral delegates: the owner of its first NS record. */
  function FirstNsOwner(rrs: seq<RR>): Str {
    if rrs == [] then [] else if rrs[0].rtype == TYPE_NS then Normal(rrs[0].name) else FirstNsOwner(rrs[1..])
  }

  function Delegated(m: Message): Str {
    FirstNsOwner(m.authority)
  }

  method DelegatedZone(m: Message) returns (zone: Str)
    ensures zone == Delegated(m)
  {
    hide Normal;
    for i := 0 to |m.authority|
      invariant FirstNsOwner(m.authority) == FirstNsOwner(m.authority[i..])
    {
      assert m.authority[i..][1..] == m.authority[i + 1..];
      if m.authority[i].rtype == TYPE_NS {
        return Normal(m.authority[i].name);
      }
    }
    return [];
  }

  function DelegationDs(m: Message): seq<RR> {
    OfTypeOwner(m.authority, TYPE_DS, Delegated(m))
  }

  function DelegationSigner(m: Message): Str {
    Signer(OfType(m.authority, TYPE_RRSIG), TYPE_DS)
  }

  /** The keys that a delegated zone's servers present, if its DS records vouch for them. */
  ghost function ChildKeys(c: Crypto, anchors: Keys, m: Message, w: Replies): (r: Option<Keys>)
    ensures r.Some? ==> FirstAnswer(w.keys).Some?
  {
    match FirstAnswer(w.keys)
    case None => None
    case Some(k) =>
      if ZoneKeysValid(c, anchors, Delegated(m), OfType(k.answers, TYPE_DNSKEY), OfType(k.answers, TYPE_RRSIG),
                       AllDs(DelegationDs(m)), k.raw, w.keysTime)
      then Some(AllKeys(c, OfType(k.answers, TYPE_DNSKEY))) else None
  }

  /* ----- What happens to the cache ----- */

  /** A context if there is one, and the key cache afterwards. */
  datatype Walked = Walked(ctx: Option<Ctx>, cache: KeyCache)

  function CachedKeys(cache: KeyCache, zone: Str, now: Time): Option<Keys> {
    var k := CacheKey(zone);
    if k in cache && now <= cache[k].expiresAt then Some(cache[k].keys) else None
  }

  /** Looking a zone up removes an expired entry. */
  function AfterLookup(cache: KeyCache, zone: Str, now: Time): KeyCache {
    if CachedKeys(cache, zone, now).Some? then cache else cache - {CacheKey(zone)}
  }

  function Stored(cache: KeyCache, zone: Str, keys: Keys, reply: Message, now: Time): KeyCache {
    cache[CacheKey(zone) := CachedZone(keys, now + KeyTtl(OfType(reply.answers, TYPE_DNSKEY)))]
  }

  /** One zone of a walk: from the cache if it is there, otherwise established by the keys so far. */
  ghost function Descended(c: Crypto, anchors: Keys, cache: KeyCache, ctx: Ctx, zone: Str, w: Replies,
                           now: Time): Walked {
    match CachedKeys(cache, zone, now)
    case Some(keys) => Walked(Some(Ctx(zone, keys)), cache)
    case None =>
      var rest := AfterLookup(cache, zone, now);
      match EstablishedKeys(c, anchors, ctx.keys, zone, w)
      case None => Walked(None, rest)
      case Some(keys) =>
        Walked(Some(Ctx(zone, keys)), Stored(rest, zone, keys, FirstAnswer(w.keys).value, w.cacheTime))
  }

  /** The walk down the first n zones of a chain. `replies(i)` is what the network says about the i-th zone,
      `clock(i)` the time at which it is looked up in the cache. */
  ghost function WalkedTo(c: Crypto, anchors: Keys, cache: KeyCache, start: Ctx, chain: seq<Str>,
                          replies: nat -> Replies, clock: nat -> Time, n: nat): Walked
    requires n <= |chain|
  {
    if n == 0 then Walked(Some(start), cache)
    else
      var before := WalkedTo(c, anchors, cache, start, chain, replies, clock, n - 1);
      if before.ctx.None? then before
      else Descended(c, anchors, before.cache, before.ctx.value, chain[n - 1], replies(n - 1), clock(n - 1))
  }

  /** Whose keys verify a signature: those at the end of the walk to its signer, or the context's own. */
  ghost function Verifier(c: Crypto, anchors: Keys, cache: KeyCache, ctx: Ctx, signer: Str,
                          replies: nat -> Replies, clock: nat -> Time): Walked {
    var chain := Chain(ctx.zone, signer);
    if WalksDown(ctx, signer) then WalkedTo(c, anchors, cache, ctx, chain, replies, clock, |chain|)
    else Walked(Some(ctx), cache)
  }

  /** What the network says in the course of a referral: the delegated zone's servers, and those on the way
      to the signer; and when the cache is looked into. */
  datatype Network = Network(w: Replies, lookup: Time, replies: nat -> Replies, clock: nat -> Time)

  /** The delegated zone's context once its DS records have been accepted: cached keys, none without DS
      records, or those that the DS records vouch for. */
  ghost function Child(c: Crypto, anchors: Keys, cache: KeyCache, m: Message, net: Network): Walked {
    var zone := Delegated(m);
    match CachedKeys(cache, zone, net.lookup)
    case Some(keys) => Walked(Some(Ctx(zone, keys)), cache)
    case None =>
      var rest := AfterLookup(cache, zone, net.lookup);
      if DelegationDs(m) == [] then Walked(Some(Ctx(zone, map[])), rest)
      else
        match ChildKeys(c, anchors, m, net.w)
        case None => Walked(None, rest)
        case Some(keys) =>
          Walked(Some(Ctx(zone, keys)), Stored(rest, zone, keys, FirstAnswer(net.w.keys).value, net.w.cacheTime))
  }

  /** A referral: its DS records are verified only if there are any and the context has keys. */
  ghost function Referred(c: Crypto, anchors: Keys, cache: KeyCache, ctx: Ctx, m: Message, net: Network): Walked {
    if ctx.keys == map[] || DelegationDs(m) == [] then Child(c, anchors, cache, m, net)
    else
      var v := Verifier(c, anchors, cache, ctx, DelegationSigner(m), net.replies, net.clock);
      if v.ctx.Some? && DsSigned(c, v.ctx.value.keys, m, net.w.dsTime) then Child(c, anchors, v.cache, m, net)
      else Walked(None, v.cache)
  }

  ghost predicate DsSigned(c: Crypto, keys: Keys, m: Message, now: Time) {
    AnySignature(c, keys, DelegationDs(m), OfType(m.authority, TYPE_RRSIG), TYPE_DS, m.raw, now)
  }

  lemma {:induction false} FailureStays(c: Crypto, anchors: Keys, cache: KeyCache, start: Ctx, chain: seq<Str>,
                                        replies: nat -> Replies, clock: nat -> Time, i: nat, n: nat)
    requires i <= n <= |chain| && WalkedTo(c, anchors, cache, start, chain, replies, clock, i).ctx.None?
    ensures WalkedTo(c, anchors, cache, start, chain, replies, clock, n)
            == WalkedTo(c, anchors, cache, start, chain, replies, clock, i)
  {
    hide Descended;
    if i < n { FailureStays(c, anchors, cache, start, chain, replies, clock, i, n - 1); }
  }

  /* ----- The validator's key cache and the walk ----- */

  class Validator {
    const anchors: Keys
    var keyCache: KeyCache

    constructor (anchors: Keys)
      ensures this.anchors == anchors && keyCache == map[]
    {
      this.anchors := anchors;
      keyCache := map[];
    }

    method CacheZoneKeys(zone: Str, keys: Keys, ttl0: u32, now: Time)
      modifies this
      ensures keyCache == old(keyCache)[CacheKey(zone) := CachedZone(keys, now + if ttl0 == 0 then 3600 else ttl0)]
    {
      var ttl := ttl0;
      if ttl == 0 {
        ttl := 3600;
      }
      keyCache := keyCache[CacheKey(zone) := CachedZone(keys, now + ttl)];
    }

    /** An expired entry is removed on the way. */
    method LookupZoneKeys(zone: Str, now: Time) returns (r: Option<Keys>)
      modifies this
      ensures r == if CacheKey(zone) in old(keyCache) && now <= old(keyCache)[CacheKey(zone)].expiresAt
                   then Some(old(keyCache)[CacheKey(zone)].keys) else None
      ensures keyCache == if r.None? then old(keyCache) - {CacheKey(zone)} else old(keyCache)
      ensures r == CachedKeys(old(keyCache), zone, now) && keyCache == AfterLookup(old(keyCache), zone, now)
    {
      var k := CacheKey(zone);
      if k !in keyCache {
        return None;
      }
      var cz := keyCache[k];
      if now > cz.expiresAt {
        keyCache := keyCache - {k};
        return None;
      }
      return Some(cz.keys);
    }

    /** secEstablishIntermediateKeys */
    method Establish(c: Crypto, parent: Keys, zone: Str, w: Replies) returns (r: Option<Keys>)
      modifies this
      ensures r == EstablishedKeys(c, anchors, parent, zone, w)
      ensures r.None? ==> keyCache == old(keyCache)
      ensures r.Some? ==> keyCache == Stored(old(keyCache), zone, r.value, FirstAnswer(w.keys).value, w.cacheTime)
    {
      hide AnySignature, Seeds, AllDs, AllKeys, OfType, OfTypeOwner, FirstReply, FirstAnswer, CacheKey;
      var dsResp := AskFirst(w.ds, false);
      if dsResp.None? {
        return None;
      }
      var m := dsResp.value;
      var dsRRs := FilterTypeOwner(m.answers, TYPE_DS, zone);
      var rrsigs := FilterType(m.answers, TYPE_RRSIG);
      if |dsRRs| == 0 {
        dsRRs := FilterTypeOwner(m.authority, TYPE_DS, zone);
        rrsigs := FilterType(m.authority, TYPE_RRSIG);
      }
      assert (dsRRs, rrsigs) == DsRecords(m, zone);
      if |dsRRs| == 0 {
        return None;
      }
      var ok := VerifyAny(c, parent, dsRRs, rrsigs, TYPE_DS, m.raw, w.dsTime);
      if !ok {
        return None;
      }
      var parsedDs := CollectDs(dsRRs);
      var keyResp := AskFirst(w.keys, true);
      if keyResp.None? {
        return None;
      }
      var keyRRs := FilterType(keyResp.value.answers, TYPE_DNSKEY);
      var keySigs := FilterType(keyResp.value.answers, TYPE_RRSIG);
      r := ValidateZoneKeys(c, anchors, zone, keyRRs, keySigs, parsedDs, keyResp.value.raw, w.keysTime);
      if r.None? {
        return None;
      }
      var ttl: u32 := 3600;
      if |keyRRs| > 0 {
        ttl := keyRRs[0].ttl;
      }
      CacheZoneKeys(zone, r.value, ttl, w.cacheTime);
    }

    /** The loop body of secWalkToZone. */
    method Descend(c: Crypto, ctx: Ctx, zone: Str, w: Replies, now: Time) returns (r: Option<Ctx>)
      modifies this
      ensures Walked(r, keyCache) == Descended(c, anchors, old(keyCache), ctx, zone, w, now)
    {
      hide CachedKeys, AfterLookup, EstablishedKeys, Stored, FirstAnswer;
      var keys := LookupZoneKeys(zone, now);
      if keys.Some? {
        KeptByLookup(old(keyCache), zone, now);
        return Some(Ctx(zone, keys.value));
      }
      keys := Establish(c, ctx.keys, zone, w);
      if keys.None? {
        return None;
      }
      return Some(Ctx(zone, keys.value));
    }

    /** secWalkToZone: from the start down the chain of zones, one at a time. */
    method WalkToZone(c: Crypto, start: Ctx, target: Str, replies: nat -> Replies, clock: nat -> Time)
      returns (r: Option<Ctx>)
      modifies this
      ensures var chain := Chain(start.zone, target);
              Walked(r, keyCache) == WalkedTo(c, anchors, old(keyCache), start, chain, replies, clock, |chain|)
    {
      hide Chain, Descended;
      var chain := ZoneChain(start.zone, target);
      var ctx := start;
      for i := 0 to |chain|
        invariant Walked(Some(ctx), keyCache) == WalkedTo(c, anchors, old(keyCache), start, chain, replies, clock, i)
      {
        var next := Descend(c, ctx, chain[i], replies(i), clock(i));
        if next.None? {
          FailureStays(c, anchors, old(keyCache), start, chain, replies, clock, i + 1, |chain|);
          return None;
        }
        ctx := next.value;
      }
      return Some(ctx);
    }

    /** secVerifyWithWalk: a signer strictly below the context is walked to first. */
    method VerifyWithWalk(c: Crypto, ctx: Ctx, rrset: seq<RR>, rrsigs: seq<RR>, covered: u16, raw: Str, now: Time,
                          replies: nat -> Replies, clock: nat -> Time)
      returns (ok: bool)
      modifies this
      ensures var v := Verifier(c, anchors, old(keyCache), ctx, Signer(rrsigs, covered), replies, clock);
              && keyCache == v.cache
              && (ok <==> v.ctx.Some? && AnySignature(c, v.ctx.value.keys, rrset, rrsigs, covered, raw, now))
    {
      hide AnySignature, Signer, WalksDown, Chain, WalkedTo;
      var verifyKeys := ctx.keys;
      var signer := FirstSigner(rrsigs, covered);
      if WalksDown(ctx, signer) {
        var walked := WalkToZone(c, ctx, signer, replies, clock);
        if walked.None? {
          return false;
        }
        verifyKeys := walked.value.keys;
      }
      ok := VerifyAny(c, verifyKeys, rrset, rrsigs, covered, raw, now);
    }

    /** What resolveAtDNSSEC does on a referral: the DS records of the delegated zone are verified only if the
        context has keys; the zone's keys are then taken from the cache, or validated against those DS
        records and cached. */
    method Delegate(c: Crypto, ctx: Ctx, m: Message, net: Network) returns (r: Option<Ctx>)
      modifies this
      ensures Walked(r, keyCache) == Referred(c, anchors, old(keyCache), ctx, m, net)
    {
      hide AnySignature, ZoneKeysValid, CacheKey, CachedKeys, AfterLookup, Signer, AllKeys, AllDs, OfType, OfTypeOwner,
        FirstAnswer, FirstNsOwner, Verifier;
      var childZone := DelegatedZone(m);
      var dsRRs := FilterTypeOwner(m.authority, TYPE_DS, childZone);
      if ctx.keys != map[] && |dsRRs| > 0 {
        var rrsigs := FilterType(m.authority, TYPE_RRSIG);
        var ok := VerifyWithWalk(c, ctx, dsRRs, rrsigs, TYPE_DS, m.raw, net.w.dsTime, net.replies, net.clock);
        if !ok {
          return None;
        }
      }
      ghost var verified := keyCache;
      var cached := LookupZoneKeys(childZone, net.lookup);
      if cached.Some? {
        KeptByLookup(verified, childZone, net.lookup);
        return Some(Ctx(childZone, cached.value));
      }
      if |dsRRs| == 0 {
        return Some(Ctx(childZone, map[]));
      }
      var keyResp := AskFirst(net.w.keys, true);
      if keyResp.None? {
        return None;
      }
      var keyRRs := FilterType(keyResp.value.answers, TYPE_DNSKEY);
      var keySigs := FilterType(keyResp.value.answers, TYPE_RRSIG);
      var parsedDs := CollectDs(dsRRs);
      var keys := ValidateZoneKeys(c, anchors, childZone, keyRRs, keySigs, parsedDs, keyResp.value.raw, net.w.keysTime);
      if keys.None? {
        return None;
      }
      var ttl: u32 := 3600;
      if |keyRRs| > 0 {
        ttl := keyRRs[0].ttl;
      }
      CacheZoneKeys(childZone, keys.value, ttl, net.w.cacheTime);
      return Some(Ctx(childZone, keys.value));
    }
  }

  lemma KeptByLookup(cache: KeyCache, zone: Str, now: Time)
    ensures CachedKeys(cache, zone, now).Some? ==> AfterLookup(cache, zone, now) == cache
  {
  }

  /* ----- Walks keep the trust ----- */

  lemma LookupKeepsTrust(c: Crypto, anchors: Keys, roots: set<Ctx>, cache: KeyCache, zone: Str, now: Time)
    requires TrustedCache(c, anchors, roots, cache)
    ensures TrustedCache(c, anchors, roots, AfterLookup(cache, zone, now))
    ensures CachedKeys(cache, zone, now).Some? ==>
              Trusted(c, anchors, roots, zone, CachedKeys(cache, zone, now).value)
  {
    hide Trusted, CacheKey;
    if CacheKey(zone) in cache {
      CacheKeyNormal(zone);
      TrustedNormal(c, anchors, roots, CacheKey(zone), zone, cache[CacheKey(zone)].keys);
    }
  }

  lemma StoringKeepsTrust(c: Crypto, anchors: Keys, roots: set<Ctx>, cache: KeyCache, zone: Str, keys: Keys,
                          reply: Message, now: Time)
    requires TrustedCache(c, anchors, roots, cache) && Trusted(c, anchors, roots, zone, keys)
    ensures TrustedCache(c, anchors, roots, Stored(cache, zone, keys, reply, now))
  {
    hide Trusted, CacheKey;
    CacheKeyNormal(zone);
    TrustedNormal(c, anchors, roots, zone, CacheKey(zone), keys);
  }

  /** Keys of a zone above, and those below it that come from the cache or are linked to them. */
  ghost predicate Descends(c: Crypto, anchors: Keys, cache: KeyCache, above: Ctx, below: Ctx, now: Time) {
    || CachedKeys(cache, below.zone, now) == Some(below.keys)
    || Linked(c, anchors, above.zone, above.keys, below.zone, below.keys)
  }

  lemma DescentKeepsTrust(c: Crypto, anchors: Keys, roots: set<Ctx>, cache: KeyCache, ctx: Ctx, zone: Str, w: Replies,
                          now: Time)
    requires Trusted(c, anchors, roots, ctx.zone, ctx.keys) && TrustedCache(c, anchors, roots, cache)
    requires Below(zone, ctx.zone)
    ensures var d := Descended(c, anchors, cache, ctx, zone, w, now);
            && TrustedCache(c, anchors, roots, d.cache)
            && (d.ctx.Some? ==>
                  && d.ctx.value.zone == zone && Trusted(c, anchors, roots, zone, d.ctx.value.keys)
                  && Descends(c, anchors, cache, ctx, d.ctx.value, now))
  {
    hide Trusted, TrustedCache, Established, EstablishedKeys, Below, AfterLookup, CachedKeys, Stored;
    LookupKeepsTrust(c, anchors, roots, cache, zone, now);
    var keys := EstablishedKeys(c, anchors, ctx.keys, zone, w);
    if CachedKeys(cache, zone, now).None? && keys.Some? {
      EstablishedByReplies(c, anchors, ctx.keys, zone, w);
      TrustExtends(c, anchors, roots, ctx.zone, ctx.keys, zone, keys.value);
      StoringKeepsTrust(c, anchors, roots, AfterLookup(cache, zone, now), zone, keys.value, FirstAnswer(w.keys).value,
                        w.cacheTime);
    }
  }

  /** However the network answers along a walk: after every zone of the chain the cache holds only trusted keys
      and, unless the walk has failed, the context is trusted keys of that zone, from the cache or linked
      to those of the zone before. */
  lemma {:induction false} WalkKeepsTrust(c: Crypto, anchors: Keys, roots: set<Ctx>, cache: KeyCache, start: Ctx,
                                          target: Str, replies: nat -> Replies, clock: nat -> Time, n: nat)
    requires Trusted(c, anchors, roots, start.zone, start.keys) && TrustedCache(c, anchors, roots, cache)
    requires n <= |Chain(start.zone, target)|
    ensures var chain := Chain(start.zone, target);
            var walked := WalkedTo(c, anchors, cache, start, chain, replies, clock, n);
            && TrustedCache(c, anchors, roots, walked.cache)
            && (walked.ctx.Some? ==>
                  && walked.ctx.value.zone == (if n == 0 then start.zone else chain[n - 1])
                  && Trusted(c, anchors, roots, walked.ctx.value.zone, walked.ctx.value.keys)
                  && (n > 0 ==>
                        var before := WalkedTo(c, anchors, cache, start, chain, replies, clock, n - 1);
                        && before.ctx.Some?
                        && Descends(c, anchors, before.cache, before.ctx.value, walked.ctx.value, clock(n - 1))))
  {
    hide Trusted, TrustedCache, Chain, Below, Descended, Descends;
    if n > 0 {
      var chain := Chain(start.zone, target);
      var before := WalkedTo(c, anchors, cache, start, chain, replies, clock, n - 1);
      WalkKeepsTrust(c, anchors, roots, cache, start, target, replies, clock, n - 1);
      if before.ctx.Some? {
        ChainGoesBelow(start.zone, target, n - 1);
        DescentKeepsTrust(c, anchors, roots, before.cache, before.ctx.value, chain[n - 1], replies(n - 1),
                          clock(n - 1));
      }
    }
  }

  lemma VerifierKeepsTrust(c: Crypto, anchors: Keys, roots: set<Ctx>, cache: KeyCache, ctx: Ctx, signer: Str,
                           replies: nat -> Replies, clock: nat -> Time)
    requires Trusted(c, anchors, roots, ctx.zone, ctx.keys) && TrustedCache(c, anchors, roots, cache)
    ensures var v := Verifier(c, anchors, cache, ctx, signer, replies, clock);
            && TrustedCache(c, anchors, roots, v.cache)
            && (v.ctx.Some? ==>
                  && v.ctx.value.zone == VerifierZone(ctx, signer)
                  && Trusted(c, anchors, roots, v.ctx.value.zone, v.ctx.value.keys))
  {
    hide Trusted, TrustedCache, Chain, WalkedTo, WalksDown;
    if WalksDown(ctx, signer) {
      WalkKeepsTrust(c, anchors, roots, cache, ctx, signer, replies, clock, |Chain(ctx.zone, signer)|);
      EmptyWalk(c, anchors, cache, ctx, replies, clock);
    }
  }

  lemma EmptyWalk(c: Crypto, anchors: Keys, cache: KeyCache, start: Ctx, replies: nat -> Replies, clock: nat -> Time)
    ensures WalkedTo(c, anchors, cache, start, [], replies, clock, 0) == Walked(Some(start), cache)
  {
  }

  /* ----- Referrals that keep the trust ----- */

  /** The context has keys to verify DS records with, and the delegated zone is below the zone whose keys
      verify a signature by this signer. */
  predicate Sound(ctx: Ctx, zone: Str, signer: Str) {
    ctx.keys != map[] && Below(zone, VerifierZone(ctx, signer))
  }

  /** The keys a context has, if any, and all cached ones are trusted. */
  ghost predicate AllTrusted(c: Crypto, anchors: Keys, roots: set<Ctx>, cache: KeyCache, ctx: Ctx) {
    TrustedCache(c, anchors, roots, cache) && (ctx.keys != map[] ==> Trusted(c, anchors, roots, ctx.zone, ctx.keys))
  }

  ghost predicate Accepted(c: Crypto, anchors: Keys, roots: set<Ctx>, m: Message, verifier: Ctx, now: Time) {
    && Trusted(c, anchors, roots, verifier.zone, verifier.keys) && Below(Delegated(m), verifier.zone)
    && DsSigned(c, verifier.keys, m, now)
  }

  lemma ChildKeepsTrust(c: Crypto, anchors: Keys, roots: set<Ctx>, cache: KeyCache, m: Message, net: Network,
                        verifier: Ctx)
    requires TrustedCache(c, anchors, roots, cache) && m.answers == []
    requires DelegationDs(m) == [] || Accepted(c, anchors, roots, m, verifier, net.w.dsTime)
    ensures var r := Child(c, anchors, cache, m, net);
            && TrustedCache(c, anchors, roots, r.cache)
            && (r.ctx.Some? ==> AllTrusted(c, anchors, roots, r.cache, r.ctx.value))
  {
    hide Trusted, TrustedCache, Below, AfterLookup, CachedKeys, Stored, ChildKeys, DsSigned, DelegationDs, Delegated;
    var zone, keys := Delegated(m), ChildKeys(c, anchors, m, net.w);
    LookupKeepsTrust(c, anchors, roots, cache, zone, net.lookup);
    if CachedKeys(cache, zone, net.lookup).None? && DelegationDs(m) != [] && keys.Some? {
      ChildIsLinked(c, anchors, m, net.w, verifier);
      TrustExtends(c, anchors, roots, verifier.zone, verifier.keys, zone, keys.value);
      StoringKeepsTrust(c, anchors, roots, AfterLookup(cache, zone, net.lookup), zone, keys.value,
                        FirstAnswer(net.w.keys).value, net.w.cacheTime);
    }
  }

  lemma ChildIsLinked(c: Crypto, anchors: Keys, m: Message, w: Replies, verifier: Ctx)
    requires m.answers == [] && DelegationDs(m) != [] && ChildKeys(c, anchors, m, w).Some?
    requires DsSigned(c, verifier.keys, m, w.dsTime) && Below(Delegated(m), verifier.zone)
    ensures Linked(c, anchors, verifier.zone, verifier.keys, Delegated(m), ChildKeys(c, anchors, m, w).value)
  {
    hide AnySignature, ZoneKeysValid, Linked, Below, AllKeys, AllDs, OfType, OfTypeOwner, FirstAnswer, FirstNsOwner;
    var k := FirstAnswer(w.keys).value;
    DelegationProves(c, anchors, verifier.keys, m, Delegated(m), DelegationDs(m), w.dsTime, k,
                     AllKeys(c, OfType(k.answers, TYPE_DNSKEY)), w.keysTime);
    IsLinked(c, anchors, verifier.zone, verifier.keys, Delegated(m), AllKeys(c, OfType(k.answers, TYPE_DNSKEY)));
  }

  /** A referral without DS records, or a sound one, keeps all keys trusted, and leads to trusted ones. */
  lemma ReferralKeepsTrust(c: Crypto, anchors: Keys, roots: set<Ctx>, cache: KeyCache, ctx: Ctx, m: Message,
                           net: Network)
    requires m.answers == [] && AllTrusted(c, anchors, roots, cache, ctx)
    requires DelegationDs(m) == [] || Sound(ctx, Delegated(m), DelegationSigner(m))
    ensures var r := Referred(c, anchors, cache, ctx, m, net);
            && TrustedCache(c, anchors, roots, r.cache)
            && (r.ctx.Some? ==> AllTrusted(c, anchors, roots, r.cache, r.ctx.value))
  {
    hide Trusted, TrustedCache, Below, DsSigned, DelegationDs, Delegated, DelegationSigner, Verifier, VerifierZone,
      Child;
    if DelegationDs(m) == [] {
      ChildKeepsTrust(c, anchors, roots, cache, m, net, ctx);
    } else {
      var v := Verifier(c, anchors, cache, ctx, DelegationSigner(m), net.replies, net.clock);
      VerifierKeepsTrust(c, anchors, roots, cache, ctx, DelegationSigner(m), net.replies, net.clock);
      if v.ctx.Some? && DsSigned(c, v.ctx.value.keys, m, net.w.dsTime) {
        ChildKeepsTrust(c, anchors, roots, v.cache, m, net, v.ctx.value);
      }
    }
  }

  /** A referral whose DS records a key has signed, and the zone's keys that they vouch for, make a link. */
  lemma DelegationProves(c: Crypto, anchors: Keys, parent: Keys, m: Message, zone: Str, dsRRs: seq<RR>, dsTime: Time,
                         k: Message, keys: Keys, keysTime: Time)
    requires m.answers == [] && dsRRs == OfTypeOwner(m.authority, TYPE_DS, zone) && dsRRs != []
    requires AnySignature(c, parent, dsRRs, OfType(m.authority, TYPE_RRSIG), TYPE_DS, m.raw, dsTime)
    requires ZoneKeysValid(c, anchors, zone, OfType(k.answers, TYPE_DNSKEY), OfType(k.answers, TYPE_RRSIG),
                           AllDs(dsRRs), k.raw, keysTime)
    requires keys == AllKeys(c, OfType(k.answers, TYPE_DNSKEY))
    ensures Established(c, anchors, parent, zone, keys)
  {
    hide *;
    AuthorityOnly(m, zone);
    ProvesNow(c, anchors, parent, zone, keys, Evidence(m, dsTime, k, keysTime), dsRRs, OfType(m.authority, TYPE_RRSIG));
  }

  lemma ProvesNow(c: Crypto, anchors: Keys, parent: Keys, zone: Str, keys: Keys, e: Evidence,
                  dsRRs: seq<RR>, rrsigs: seq<RR>)
    requires DsRecords(e.ds, zone) == (dsRRs, rrsigs) && dsRRs != []
    requires AnySignature(c, parent, dsRRs, rrsigs, TYPE_DS, e.ds.raw, e.dsTime)
    requires ZoneKeysValid(c, anchors, zone, OfType(e.keys.answers, TYPE_DNSKEY), OfType(e.keys.answers, TYPE_RRSIG),
                           AllDs(dsRRs), e.keys.raw, e.keysTime)
    requires keys == AllKeys(c, OfType(e.keys.answers, TYPE_DNSKEY))
    ensures Established(c, anchors, parent, zone, keys)
  {
    hide AnySignature, ZoneKeysValid, OfType, AllKeys, AllDs, DsRecords;
    assert Proves(c, anchors, parent, zone, keys, e);
  }

  lemma AuthorityOnly(m: Message, zone: Str)
    requires m.answers == []
    ensures DsRecords(m, zone) == (OfTypeOwner(m.authority, TYPE_DS, zone), OfType(m.authority, TYPE_RRSIG))
  {
  }

  lemma IsLinked(c: Crypto, anchors: Keys, above: Str, parent: Keys, zone: Str, keys: Keys)
    requires Below(zone, above) && Established(c, anchors, parent, zone, keys)
    ensures Linked(c, anchors, above, parent, zone, keys)
  {
  }

  lemma EstablishedByReplies(c: Crypto, anchors: Keys, parent: Keys, zone: Str, w: Replies)
    requires EstablishedKeys(c, anchors, parent, zone, w).Some?
    ensures Established(c, anchors, parent, zone, EstablishedKeys(c, anchors, parent, zone, w).value)
  {
    hide Proves;
  }

  /** A walk that succeeds ends in the zone asked for, having gone down one label at a time, whenever
      the chain of zones reaches it. */
  lemma WalkEndsAtTarget(c: Crypto, anchors: Keys, cache: KeyCache, start: Ctx, target: Str,
                         replies: nat -> Replies, clock: nat -> Time, i: nat)
    requires var chain := Chain(start.zone, target);
             i < |chain| && WalkedTo(c, anchors, cache, start, chain, replies, clock, |chain|).ctx.Some?
    requires Reaches(Normal(start.zone), Normal(target))
    ensures var chain := Chain(start.zone, target);
            var last := WalkedTo(c, anchors, cache, start, chain, replies, clock, |chain|).ctx;
            var next := WalkedTo(c, anchors, cache, start, chain, replies, clock, i + 1).ctx;
            var t, above := ZoneLabels(Normal(target)), |ZoneLabels(Normal(start.zone))|;
            && last.value.zone == Normal(target)
            && next.Some? && above + i < |t| && ZoneLabels(next.value.zone) == t[|t| - above - 1 - i..]
  {
    hide *;
    var chain := Chain(start.zone, target);
    ChainEndsAtTarget(start.zone, target);
    ZoneAfter(c, anchors, cache, start, chain, replies, clock, i + 1);
    ZoneAfter(c, anchors, cache, start, chain, replies, clock, |chain|);
    ChainAddsOneLabel(start.zone, target, i);
  }

  lemma {:induction false} ZoneAfter(c: Crypto, anchors: Keys, cache: KeyCache, start: Ctx, chain: seq<Str>,
                                     replies: nat -> Replies, clock: nat -> Time, n: nat)
    requires 0 < n <= |chain|
    requires WalkedTo(c, anchors, cache, start, chain, replies, clock, |chain|).ctx.Some?
    ensures var walked := WalkedTo(c, anchors, cache, start, chain, replies, clock, n);
            walked.ctx.Some? && walked.ctx.value.zone == chain[n - 1]
  {
    hide EstablishedKeys, CachedKeys, AfterLookup, Stored;
    if WalkedTo(c, anchors, cache, start, chain, replies, clock, n).ctx.None? {
      FailureStays(c, anchors, cache, start, chain, replies, clock, n, |chain|);
    }
  }

  /** Along the chain of trust, building the signed data never fails: a link verifies signatures over DS and
      over DNSKEY records only, and over no empty set. */
  lemma LinkDataExists(sig: Rrsig, m: Message, zone: Str)
    ensures DsRecords(m, zone).0 != [] ==> SignedData(sig, DsRecords(m, zone).0, m.raw).Some?
    ensures OfType(m.answers, TYPE_DNSKEY) != [] ==> SignedData(sig, OfType(m.answers, TYPE_DNSKEY), m.raw).Some?
  {
    var ds, keys := DsRecords(m, zone).0, OfType(m.answers, TYPE_DNSKEY);
    assert forall i :: 0 <= i < |ds| ==> ds[i].rtype == TYPE_DS;
    assert forall i :: 0 <= i < |keys| ==> keys[i].rtype == TYPE_DNSKEY;
    hide SignedData, DsRecords, OfType;
    SignatureScope.SignedDataExistsIff(sig, ds, m.raw);
    SignatureScope.SignedDataExistsIff(sig, keys, m.raw);
  }
}
