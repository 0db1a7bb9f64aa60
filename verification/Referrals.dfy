/** When a referral keeps the key cache trustworthy: exactly if it is sound. The other direction takes a
    referral, a network and a signature scheme made to measure. */
module Referrals {
  import opened Wrappers
  import opened Text
  import opened Message
  import opened Canonical
  import opened Domains
  import opened ZoneKeys
  import opened Trust
  import SignatureScope

  /* ----- A key whose signatures verify, and what it signs ----- */

  /** Every key has this tag, every digest matches, and signatures by this key verify, but no others. */
  function SignsAlone(good: DnsKey, tag: u16): Crypto {
    Crypto(_ => tag, (_, _) => Some([]), (k, _, _) => k == good)
  }

  function KeySet(good: DnsKey, tag: u16): Keys {
    map[tag := good]
  }

  function Record(zone: Str, rtype: u16, data: Str): RR {
    RR(zone, rtype, 1, 0, data, 0)
  }

  function KeyRecord(zone: Str, good: DnsKey): RR {
    Record(zone, TYPE_DNSKEY, DnsKeyRdata(good))
  }

  function DsRecord(zone: Str, good: DnsKey, tag: u16): RR {
    Record(zone, TYPE_DS, U16Bytes(tag) + [good.algorithm, 0])
  }

  /** A signature by the key with this tag that is valid at time 0; `wire` is the signer's name. */
  function SigRecord(zone: Str, covered: byte, good: DnsKey, tag: u16, wire: Str): RR {
    Record(zone, TYPE_RRSIG,
           [0, covered, good.algorithm, 0, 0, 0, 0, 0, 255, 255, 255, 255, 0, 0, 0, 0] + U16Bytes(tag) + wire)
  }

  predicate Readable(wire: Str) {
    ReadName(wire).Some?
  }

  /** The signer that a signature with this name names. */
  function SignerNamed(wire: Str): Str
    requires Readable(wire)
  {
    Normal(ReadName(wire).value.0)
  }

  function SigRead(covered: byte, good: DnsKey, tag: u16, wire: Str): Rrsig
    requires Readable(wire)
  {
    var (signer, n) := ReadName(wire).value;
    Rrsig(covered, good.algorithm, 0, 0, 0xFFFF_FFFF, 0, tag, signer, if n <= |wire| then wire[n..] else [])
  }

  lemma SigParses(zone: Str, covered: byte, good: DnsKey, tag: u16, wire: Str)
    requires Readable(wire)
    ensures ParseRrsig(SigRecord(zone, covered, good, tag, wire)) == Some(SigRead(covered, good, tag, wire))
  {
    hide ReadName;
    var d := SigRecord(zone, covered, good, tag, wire).data;
    var n := ReadName(wire).value.1;
    assert d[18..] == wire && U16At(d, 16) == tag;
    assert d[18 + n..] == wire[n..];
  }

  lemma KeyParses(zone: Str, good: DnsKey)
    ensures ParseDnsKey(KeyRecord(zone, good)) == Some(good)
  {
    var d := KeyRecord(zone, good).data;
    assert d[4..] == good.publicKey && U16At(d, 0) == good.flags;
  }

  lemma DsParses(zone: Str, good: DnsKey, tag: u16)
    ensures ParseDs(DsRecord(zone, good, tag)) == Some(Ds(tag, good.algorithm, 0, []))
  {
    var d := DsRecord(zone, good, tag).data;
    assert d[4..] == [] && U16At(d, 0) == tag;
  }

  lemma Verifies(keys: Keys, good: DnsKey, tag: u16, rr: RR, zone: Str, covered: byte, wire: Str)
    requires tag in keys && keys[tag] == good && rr.rtype != TYPE_SOA && Readable(wire)
    ensures AnySignature(SignsAlone(good, tag), keys, [rr], [SigRecord(zone, covered, good, tag, wire)], covered, [], 0)
  {
    SigParses(zone, covered, good, tag, wire);
    SignsIt(keys, good, tag, rr, covered, wire);
    hide SignedData, ParseRrsig, SigRecord, ReadName, Signed;
    assert SignedBy(SignsAlone(good, tag), keys, [rr], [SigRecord(zone, covered, good, tag, wire)][0], covered, [], 0);
  }

  lemma SignsIt(keys: Keys, good: DnsKey, tag: u16, rr: RR, covered: byte, wire: Str)
    requires tag in keys && keys[tag] == good && rr.rtype != TYPE_SOA && Readable(wire)
    ensures Signed(SignsAlone(good, tag), keys, [rr], SigRead(covered, good, tag, wire), [], 0)
  {
    hide SignedData, ReadName;
    SignatureScope.SignedDataExistsIff(SigRead(covered, good, tag, wire), [rr], []);
  }

  lemma OneKey(zone: Str, good: DnsKey, tag: u16)
    ensures AllKeys(SignsAlone(good, tag), [KeyRecord(zone, good)]) == KeySet(good, tag)
    ensures AllDs([DsRecord(zone, good, tag)]) == [Ds(tag, good.algorithm, 0, [])]
  {
    KeyParses(zone, good);
    DsParses(zone, good, tag);
    hide ParseDnsKey, ParseDs, KeyRecord, DsRecord;
    var key, ds := [KeyRecord(zone, good)], [DsRecord(zone, good, tag)];
    assert key[..0] == [] && ds[..0] == [];
    assert AllKeys(SignsAlone(good, tag), []) == map[] && AllDs([]) == [];
  }

  lemma KeyVouched(zone: Str, good: DnsKey, tag: u16)
    ensures Seeds(SignsAlone(good, tag), KeySet(good, tag), zone, KeySet(good, tag), [Ds(tag, good.algorithm, 0, [])])
            == KeySet(good, tag)
  {
    hide WireName, DnsKeyRdata;
    var c, ds := SignsAlone(good, tag), [Ds(tag, good.algorithm, 0, [])];
    assert DsMatches(c, zone, good, ds[0]);
    assert Vouched(c, zone, good, ds);
  }

  lemma KeySetValid(zone: Str, good: DnsKey, tag: u16, wire: Str)
    requires Readable(wire)
    ensures ZoneKeysValid(SignsAlone(good, tag), KeySet(good, tag), zone, [KeyRecord(zone, good)],
                          [SigRecord(zone, 48, good, tag, wire)], AllDs([DsRecord(zone, good, tag)]), [], 0)
  {
    OneKey(zone, good, tag);
    KeyVouched(zone, good, tag);
    Verifies(KeySet(good, tag), good, tag, KeyRecord(zone, good), zone, 48, wire);
    hide AllKeys, AllDs, Seeds, AnySignature, SigRecord, DsRecord;
  }

  /* ----- The referral and the child's reply ----- */

  const NO_HEADER: Header := Header(0, 0, 0, 0, 0, 0)

  /** A referral to a zone, with a DS record and a signature over it. */
  function Referral(zone: Str, good: DnsKey, tag: u16, wire: Str): Message {
    Message(NO_HEADER, [], [],
            [Record(zone + [DOT], TYPE_NS, []), DsRecord(zone, good, tag), SigRecord(zone, 43, good, tag, wire)],
            [], [])
  }

  /** What the zone's servers say about its keys. */
  function KeyReply(zone: Str, good: DnsKey, tag: u16, wire: Str): Message {
    Message(NO_HEADER, [], [KeyRecord(zone, good), SigRecord(zone, 48, good, tag, wire)], [], [], [])
  }

  /** A network that says so; the cache is looked into at time 0 on the way to the signer and at time 1
      for the zone itself. */
  function Nearby(zone: Str, good: DnsKey, tag: u16, wire: Str): Network {
    var w := Replies([], [Some(KeyReply(zone, good, tag, wire))], 0, 0, 0);
    Network(w, 1, _ => w, _ => 0)
  }

  lemma OfTypeSnoc(rrs: seq<RR>, rr: RR, t: u16)
    ensures OfType(rrs + [rr], t) == OfType(rrs, t) + if rr.rtype == t then [rr] else []
  {
    assert (rrs + [rr])[..|rrs|] == rrs;
  }

  lemma OfTypeOwnerSnoc(rrs: seq<RR>, rr: RR, t: u16, zone: Str)
    ensures OfTypeOwner(rrs + [rr], t, zone) == OfTypeOwner(rrs, t, zone) + if Owns(rr, t, zone) then [rr] else []
  {
    assert (rrs + [rr])[..|rrs|] == rrs;
  }

  lemma NothingOfType()
    ensures forall t :: OfType([], t) == []
    ensures forall t, zone :: OfTypeOwner([], t, zone) == []
  {
  }

  lemma DottedNormal(zone: Str)
    ensures Normal(zone + [DOT]) == Lower(zone)
  {
    assert (zone + [DOT])[..|zone|] == zone;
  }

  lemma ThreeRecords(ns: RR, ds: RR, sig: RR, zone: Str)
    requires ns.rtype == TYPE_NS && ds.rtype == TYPE_DS && sig.rtype == TYPE_RRSIG && ds.name == zone
    ensures OfType([ns, ds, sig], TYPE_RRSIG) == [sig] && OfTypeOwner([ns, ds, sig], TYPE_DS, zone) == [ds]
  {
    var one, two := [] + [ns], [] + [ns] + [ds];
    assert [ns, ds, sig] == two + [sig];
    assert !Owns(ns, TYPE_DS, zone) && Owns(ds, TYPE_DS, zone) && !Owns(sig, TYPE_DS, zone);
    assert ns.rtype != TYPE_RRSIG && ds.rtype != TYPE_RRSIG;
    hide *;
    OfTypeSnoc([], ns, TYPE_RRSIG);
    OfTypeSnoc(one, ds, TYPE_RRSIG);
    OfTypeSnoc(two, sig, TYPE_RRSIG);
    OfTypeOwnerSnoc([], ns, TYPE_DS, zone);
    OfTypeOwnerSnoc(one, ds, TYPE_DS, zone);
    OfTypeOwnerSnoc(two, sig, TYPE_DS, zone);
    NothingOfType();
  }

  lemma ReferralRead(zone: Str, good: DnsKey, tag: u16, wire: Str)
    requires Lower(zone) == zone
    ensures var m := Referral(zone, good, tag, wire);
            && Delegated(m) == zone && DelegationDs(m) == [DsRecord(zone, good, tag)]
            && OfType(m.authority, TYPE_RRSIG) == [SigRecord(zone, 43, good, tag, wire)]
            && m.answers == [] && m.raw == []
  {
    DottedNormal(zone);
    assert SigRecord(zone, 43, good, tag, wire).rtype == TYPE_RRSIG;
    hide Normal, SigRecord, OfType, OfTypeOwner;
    ThreeRecords(Record(zone + [DOT], TYPE_NS, []), DsRecord(zone, good, tag), SigRecord(zone, 43, good, tag, wire),
                 zone);
  }

  lemma OnlySigner(rr: RR, covered: u16)
    requires ParseRrsig(rr).Some? && ParseRrsig(rr).value.typeCovered == covered
    ensures Signer([rr], covered) == Normal(ParseRrsig(rr).value.signerName)
  {
    hide ParseRrsig, Normal;
  }

  lemma ReferralSigner(zone: Str, good: DnsKey, tag: u16, wire: Str)
    requires Lower(zone) == zone && Readable(wire)
    ensures DelegationSigner(Referral(zone, good, tag, wire)) == SignerNamed(wire)
  {
    ReferralRead(zone, good, tag, wire);
    SigParses(zone, 43, good, tag, wire);
    hide Referral, SigRecord, OfType, ParseRrsig, ReadName, Signer;
    OnlySigner(SigRecord(zone, 43, good, tag, wire), 43);
  }

  lemma KeyReplyRead(zone: Str, good: DnsKey, tag: u16, wire: Str)
    ensures var reply := KeyReply(zone, good, tag, wire);
            && OfType(reply.answers, TYPE_DNSKEY) == [KeyRecord(zone, good)]
            && OfType(reply.answers, TYPE_RRSIG) == [SigRecord(zone, 48, good, tag, wire)]
            && FirstAnswer(Nearby(zone, good, tag, wire).w.keys) == Some(reply) && reply.raw == []
  {
    var key, sig := KeyRecord(zone, good), SigRecord(zone, 48, good, tag, wire);
    var one := [] + [key];
    assert KeyReply(zone, good, tag, wire).answers == one + [sig];
    OfTypeSnoc([], key, TYPE_DNSKEY);
    OfTypeSnoc(one, sig, TYPE_DNSKEY);
    OfTypeSnoc([], key, TYPE_RRSIG);
    OfTypeSnoc(one, sig, TYPE_RRSIG);
    NothingOfType();
    hide OfType;
  }

  lemma ChildAccepted(zone: Str, good: DnsKey, tag: u16, wire: Str)
    requires Lower(zone) == zone && Readable(wire)
    ensures ChildKeys(SignsAlone(good, tag), KeySet(good, tag), Referral(zone, good, tag, wire),
                      Nearby(zone, good, tag, wire).w)
            == Some(KeySet(good, tag))
  {
    ReferralRead(zone, good, tag, wire);
    KeyReplyRead(zone, good, tag, wire);
    KeySetValid(zone, good, tag, wire);
    OneKey(zone, good, tag);
    assert Nearby(zone, good, tag, wire).w.keysTime == 0;
    hide *;
    ChildKeysFound(SignsAlone(good, tag), KeySet(good, tag), Referral(zone, good, tag, wire),
                   Nearby(zone, good, tag, wire).w, KeyReply(zone, good, tag, wire));
  }

  lemma ChildKeysFound(c: Crypto, anchors: Keys, m: Message, w: Replies, k: Message)
    requires FirstAnswer(w.keys) == Some(k)
    requires ZoneKeysValid(c, anchors, Delegated(m), OfType(k.answers, TYPE_DNSKEY), OfType(k.answers, TYPE_RRSIG),
                           AllDs(DelegationDs(m)), k.raw, w.keysTime)
    ensures ChildKeys(c, anchors, m, w) == Some(AllKeys(c, OfType(k.answers, TYPE_DNSKEY)))
  {
    hide ZoneKeysValid, DelegationDs, OfType, FirstAnswer, AllDs, AllKeys, Delegated;
  }

  lemma DsAccepted(keys: Keys, zone: Str, good: DnsKey, tag: u16, wire: Str)
    requires Lower(zone) == zone && Readable(wire) && tag in keys && keys[tag] == good
    ensures DsSigned(SignsAlone(good, tag), keys, Referral(zone, good, tag, wire), 0)
  {
    ReferralRead(zone, good, tag, wire);
    Verifies(keys, good, tag, DsRecord(zone, good, tag), zone, 43, wire);
    hide Referral, AnySignature, SigRecord, OfType, SignsAlone, DelegationDs;
  }

  /* ----- What comes of it ----- */

  /** Nothing in the cache lives to time 1. */
  predicate Stale(cache: KeyCache) {
    forall k :: k in cache ==> cache[k].expiresAt == 0
  }

  /** Taken at its word, the referral brings the key into the cache. */
  lemma Delivered(cache: KeyCache, ctx: Ctx, verifier: Ctx, zone: Str, good: DnsKey, tag: u16, wire: Str)
    requires Lower(zone) == zone && Readable(wire) && Stale(cache)
    requires ctx.keys != map[] ==>
               && tag in verifier.keys && verifier.keys[tag] == good
               && var net := Nearby(zone, good, tag, wire);
                  Verifier(SignsAlone(good, tag), KeySet(good, tag), cache, ctx, SignerNamed(wire), net.replies,
                           net.clock)
                  == Walked(Some(verifier), cache)
    ensures var after := Referred(SignsAlone(good, tag), KeySet(good, tag), cache, ctx, Referral(zone, good, tag, wire),
                                  Nearby(zone, good, tag, wire)).cache;
            CacheKey(zone) in after && after[CacheKey(zone)].keys == KeySet(good, tag)
  {
    var c, anchors := SignsAlone(good, tag), KeySet(good, tag);
    var m, net := Referral(zone, good, tag, wire), Nearby(zone, good, tag, wire);
    hide *;
    NearbyTimes(zone, good, tag, wire);
    NothingLeft(cache, zone);
    ReferralRead(zone, good, tag, wire);
    ReferralSigner(zone, good, tag, wire);
    if ctx.keys != map[] { DsAccepted(verifier.keys, zone, good, tag, wire); }
    ChildAccepted(zone, good, tag, wire);
    GoesToChild(c, anchors, cache, ctx, m, net, verifier);
    ChildStored(c, anchors, cache, m, net, KeySet(good, tag));
  }

  lemma NearbyTimes(zone: Str, good: DnsKey, tag: u16, wire: Str)
    ensures Nearby(zone, good, tag, wire).lookup == 1 && Nearby(zone, good, tag, wire).w.dsTime == 0
    ensures forall i :: Nearby(zone, good, tag, wire).clock(i) == 0
  {
  }

  lemma NothingLeft(cache: KeyCache, zone: Str)
    requires Stale(cache)
    ensures CachedKeys(cache, zone, 1).None?
  {
    hide CacheKey;
  }

  lemma GoesToChild(c: Crypto, anchors: Keys, cache: KeyCache, ctx: Ctx, m: Message, net: Network, verifier: Ctx)
    requires ctx.keys != map[] ==>
               && Verifier(c, anchors, cache, ctx, DelegationSigner(m), net.replies, net.clock)
                  == Walked(Some(verifier), cache)
               && DsSigned(c, verifier.keys, m, net.w.dsTime)
    ensures Referred(c, anchors, cache, ctx, m, net) == Child(c, anchors, cache, m, net)
  {
    hide Verifier, DsSigned, DelegationSigner, DelegationDs, Child;
  }

  lemma ChildStored(c: Crypto, anchors: Keys, cache: KeyCache, m: Message, net: Network, keys: Keys)
    requires CachedKeys(cache, Delegated(m), net.lookup).None? && DelegationDs(m) != []
    requires ChildKeys(c, anchors, m, net.w) == Some(keys)
    ensures var k, after := CacheKey(Delegated(m)), Child(c, anchors, cache, m, net).cache;
            k in after && after[k].keys == keys
  {
    hide CacheKey, CachedKeys, AfterLookup, ChildKeys, DelegationDs, Delegated, FirstAnswer, OfType;
  }

  /* ----- Who is trusted when only one key signs ----- */

  predicate Holds(keys: Keys, good: DnsKey) {
    exists t :: t in keys && keys[t] == good
  }

  lemma SignedByGood(good: DnsKey, tag: u16, anchors: Keys, parent: Keys, zone: Str, keys: Keys)
    requires Established(SignsAlone(good, tag), anchors, parent, zone, keys)
    ensures Holds(parent, good)
  {
    hide SignedData, DsRecords, ZoneKeysValid, AllKeys, ParseRrsig, OfType;
    var c := SignsAlone(good, tag);
    var e :| Proves(c, anchors, parent, zone, keys, e);
    var (dsRRs, rrsigs) := DsRecords(e.ds, zone);
    var i :| 0 <= i < |rrsigs| && SignedBy(c, parent, dsRRs, rrsigs[i], TYPE_DS, e.ds.raw, e.dsTime);
    var sig := ParseRrsig(rrsigs[i]).value;
    assert c.signs(parent[sig.keyTag], SignedData(sig, dsRRs, e.ds.raw).value, sig.signature);
  }

  /** Roots of trust that hold the key only at or below this zone. */
  predicate RootsBelow(roots: set<Ctx>, good: DnsKey, above: Str) {
    forall root :: root in roots ==> Below(root.zone, above) || !Holds(root.keys, good)
  }

  /** Then no other zone can come to be trusted with it. */
  lemma {:induction false} TrustedOnlyBelow(good: DnsKey, tag: u16, anchors: Keys, roots: set<Ctx>, above: Str,
                                            zone: Str, keys: Keys, links: nat)
    requires RootsBelow(roots, good, above)
    requires TrustedWithin(SignsAlone(good, tag), anchors, roots, zone, keys, links)
    ensures Below(zone, above) || !Holds(keys, good)
    decreases links
  {
    hide Established, Normal, Below, Holds, SignsAlone;
    var c := SignsAlone(good, tag);
    if Ctx(Normal(zone), keys) in roots {
      BelowNormal(zone);
      if Below(Normal(zone), above) { BelowTransitive(zone, Normal(zone), above); }
    } else {
      assert LinkedTo(c, anchors, roots, zone, keys, links - 1);
      var z, k :| TrustedWithin(c, anchors, roots, z, k, links - 1) && Linked(c, anchors, z, k, zone, keys);
      TrustedOnlyBelow(good, tag, anchors, roots, above, z, k, links - 1);
      SignedByGood(good, tag, anchors, k, zone, keys);
      BelowTransitive(zone, z, above);
    }
  }

  lemma CacheKeyBelow(zone: Str, above: Str)
    ensures Below(CacheKey(zone), above) <==> Below(zone, above)
  {
    CacheKeyNormal(zone);
    NormalLabels(CacheKey(zone));
    NormalLabels(zone);
    hide CacheKey, Normal, Labels, LowerAll;
  }

  lemma NotTrusted(good: DnsKey, tag: u16, anchors: Keys, roots: set<Ctx>, above: Str, zone: Str, cache: KeyCache)
    requires roots == {} || (RootsBelow(roots, good, above) && !Below(zone, above))
    requires CacheKey(zone) in cache && cache[CacheKey(zone)].keys == KeySet(good, tag)
    ensures !TrustedCache(SignsAlone(good, tag), anchors, roots, cache)
  {
    hide TrustedWithin, CacheKey, Below, RootsBelow, SignsAlone;
    var c, k, keys := SignsAlone(good, tag), CacheKey(zone), KeySet(good, tag);
    assert tag in keys && keys[tag] == good;
    if Trusted(c, anchors, roots, k, keys) {
      if roots == {} {
        TrustStaysBelowRoots(c, anchors, roots, k, keys);
      } else {
        var n: nat :| TrustedWithin(c, anchors, roots, k, keys, n);
        TrustedOnlyBelow(good, tag, anchors, roots, above, k, keys, n);
        CacheKeyBelow(zone, above);
      }
    }
  }

  /* ----- A cache that leads the walk to its end ----- */

  const OTHER: DnsKey := DnsKey(0, 0, 0, [])

  lemma {:induction false} LongerKey(keys: set<DnsKey>) returns (n: nat)
    ensures forall k :: k in keys ==> |k.publicKey| < n
  {
    if keys == {} {
      n := 0;
    } else {
      var k :| k in keys;
      n := LongerKey(keys - {k});
      n := if n > |k.publicKey| then n else |k.publicKey| + 1;
    }
  }

  lemma NewKey(keys: Keys) returns (good: DnsKey)
    ensures good != OTHER && !Holds(keys, good)
  {
    var n := LongerKey(keys.Values + {OTHER});
    good := DnsKey(0, 0, 0, seq(n, _ => 0));
    assert forall t :: t in keys ==> keys[t] in keys.Values + {OTHER};
  }

  function ChainKeys(chain: seq<Str>): set<Str> {
    set i | 0 <= i < |chain| :: CacheKey(chain[i])
  }

  /** Keys for every zone of the chain; only those of the last one hold the key that signs. */
  function Planted(chain: seq<Str>, good: DnsKey): KeyCache
    requires chain != []
  {
    map k | k in ChainKeys(chain) ::
      CachedZone(if k == CacheKey(chain[|chain| - 1]) then KeySet(good, 0) else KeySet(OTHER, 0), 0)
  }

  function RootsOf(ctx: Ctx, cache: KeyCache): set<Ctx> {
    {Ctx(Normal(ctx.zone), ctx.keys)} + set k | k in cache :: Ctx(Normal(k), cache[k].keys)
  }

  lemma RootsTrusted(c: Crypto, anchors: Keys, ctx: Ctx, cache: KeyCache)
    ensures AllTrusted(c, anchors, RootsOf(ctx, cache), cache, ctx)
  {
    hide Normal, LinkedTo;
    var roots := RootsOf(ctx, cache);
    assert TrustedWithin(c, anchors, roots, ctx.zone, ctx.keys, 0);
    forall k | k in cache ensures Trusted(c, anchors, roots, k, cache[k].keys) {
      assert Ctx(Normal(k), cache[k].keys) in roots;
      assert TrustedWithin(c, anchors, roots, k, cache[k].keys, 0);
    }
  }

  lemma {:induction false} PlantedWalk(c: Crypto, anchors: Keys, ctx: Ctx, chain: seq<Str>, good: DnsKey,
                                       replies: nat -> Replies, clock: nat -> Time, n: nat)
    requires n <= |chain| && chain != [] && forall i :: clock(i) == 0
    ensures var walked := WalkedTo(c, anchors, Planted(chain, good), ctx, chain, replies, clock, n);
            && walked.cache == Planted(chain, good)
            && (n == 0 ==> walked.ctx == Some(ctx))
            && (n > 0 ==> CacheKey(chain[n - 1]) in Planted(chain, good)
                          && walked.ctx == Some(Ctx(chain[n - 1], Planted(chain, good)[CacheKey(chain[n - 1])].keys)))
  {
    hide CacheKey, EstablishedKeys, Stored;
    if n > 0 {
      PlantedWalk(c, anchors, ctx, chain, good, replies, clock, n - 1);
      assert CacheKey(chain[n - 1]) in ChainKeys(chain);
    }
  }

  lemma PlantedRoots(ctx: Ctx, chain: seq<Str>, good: DnsKey)
    requires chain != [] && good != OTHER && !Holds(ctx.keys, good)
    ensures RootsBelow(RootsOf(ctx, Planted(chain, good)), good, chain[|chain| - 1])
  {
    hide Normal, Below, CacheKey;
    var last, cache := chain[|chain| - 1], Planted(chain, good);
    CacheKeyNormal(last);
    BelowNormal(last);
    forall root | root in RootsOf(ctx, cache) ensures Below(root.zone, last) || !Holds(root.keys, good) {
      if root != Ctx(Normal(ctx.zone), ctx.keys) {
        var k :| k in cache && root == Ctx(Normal(k), cache[k].keys);
      }
    }
  }

  /* ----- Sound referrals, exactly ----- */

  ghost predicate IsReferral(m: Message, zone: Str, signer: Str) {
    m.answers == [] && Delegated(m) == zone && DelegationDs(m) != [] && DelegationSigner(m) == signer
  }

  /** If everything was trusted before the referral, everything is after it. */
  ghost predicate KeepsTrust(c: Crypto, anchors: Keys, roots: set<Ctx>, cache: KeyCache, ctx: Ctx, m: Message,
                             net: Network) {
    AllTrusted(c, anchors, roots, cache, ctx) ==>
      TrustedCache(c, anchors, roots, Referred(c, anchors, cache, ctx, m, net).cache)
  }

  lemma Delivers(cache: KeyCache, roots: set<Ctx>, ctx: Ctx, verifier: Ctx, zone: Str, good: DnsKey, tag: u16,
                 wire: Str)
    requires Lower(zone) == zone && Readable(wire) && Stale(cache)
    requires ctx.keys != map[] ==>
               && tag in verifier.keys && verifier.keys[tag] == good
               && var net := Nearby(zone, good, tag, wire);
                  Verifier(SignsAlone(good, tag), KeySet(good, tag), cache, ctx, SignerNamed(wire), net.replies,
                           net.clock)
                  == Walked(Some(verifier), cache)
    requires AllTrusted(SignsAlone(good, tag), KeySet(good, tag), roots, cache, ctx)
    requires roots == {} || (RootsBelow(roots, good, verifier.zone) && !Below(zone, verifier.zone))
    ensures IsReferral(Referral(zone, good, tag, wire), zone, SignerNamed(wire))
    ensures !KeepsTrust(SignsAlone(good, tag), KeySet(good, tag), roots, cache, ctx, Referral(zone, good, tag, wire),
                        Nearby(zone, good, tag, wire))
  {
    hide *;
    Delivered(cache, ctx, verifier, zone, good, tag, wire);
    var c, anchors := SignsAlone(good, tag), KeySet(good, tag);
    var m, net := Referral(zone, good, tag, wire), Nearby(zone, good, tag, wire);
    NotTrusted(good, tag, anchors, roots, verifier.zone, zone, Referred(c, anchors, cache, ctx, m, net).cache);
    ReferralRead(zone, good, tag, wire);
    ReferralSigner(zone, good, tag, wire);
    IsReferralTo(m, zone, SignerNamed(wire), DsRecord(zone, good, tag));
    TrustLost(c, anchors, roots, cache, ctx, m, net);
  }

  lemma IsReferralTo(m: Message, zone: Str, signer: Str, ds: RR)
    requires m.answers == [] && Delegated(m) == zone && DelegationDs(m) == [ds] && DelegationSigner(m) == signer
    ensures IsReferral(m, zone, signer)
  {
    hide Delegated, DelegationDs, DelegationSigner;
  }

  lemma TrustLost(c: Crypto, anchors: Keys, roots: set<Ctx>, cache: KeyCache, ctx: Ctx, m: Message, net: Network)
    requires AllTrusted(c, anchors, roots, cache, ctx)
    requires !TrustedCache(c, anchors, roots, Referred(c, anchors, cache, ctx, m, net).cache)
    ensures !KeepsTrust(c, anchors, roots, cache, ctx, m, net)
  {
    hide AllTrusted, TrustedCache, Referred;
  }

  /** A context without keys believes any DS records. */
  lemma WithoutKeys(ctx: Ctx, zone: Str, wire: Str)
    requires Lower(zone) == zone && Readable(wire) && ctx.keys == map[]
    ensures IsReferral(Referral(zone, OTHER, 0, wire), zone, SignerNamed(wire))
    ensures !KeepsTrust(SignsAlone(OTHER, 0), KeySet(OTHER, 0), {}, map[], ctx, Referral(zone, OTHER, 0, wire),
                        Nearby(zone, OTHER, 0, wire))
  {
    NothingCached(SignsAlone(OTHER, 0), KeySet(OTHER, 0), {}, ctx);
    hide *;
    Delivers(map[], {}, ctx, ctx, zone, OTHER, 0, wire);
  }

  lemma NothingCached(c: Crypto, anchors: Keys, roots: set<Ctx>, ctx: Ctx)
    ensures Stale(map[]) && TrustedCache(c, anchors, roots, map[])
    ensures ctx.keys == map[] ==> AllTrusted(c, anchors, roots, map[], ctx)
  {
    hide Trusted;
  }

  /** Keys of a zone sign for one that is not below it. */
  lemma OutOfZone(ctx: Ctx, zone: Str, wire: Str, tag: u16)
    requires Lower(zone) == zone && Readable(wire) && tag in ctx.keys && !Below(zone, ctx.zone)
    requires !WalksDown(ctx, SignerNamed(wire)) || Chain(ctx.zone, SignerNamed(wire)) == []
    ensures var good := ctx.keys[tag];
            && IsReferral(Referral(zone, good, tag, wire), zone, SignerNamed(wire))
            && !KeepsTrust(SignsAlone(good, tag), KeySet(good, tag), RootsOf(ctx, map[]), map[], ctx,
                           Referral(zone, good, tag, wire), Nearby(zone, good, tag, wire))
  {
    var good := ctx.keys[tag];
    var c, anchors, net := SignsAlone(good, tag), KeySet(good, tag), Nearby(zone, good, tag, wire);
    NothingCached(c, anchors, {}, ctx);
    RootsTrusted(c, anchors, ctx, map[]);
    BelowNormal(ctx.zone);
    StaysPut(c, anchors, map[], ctx, SignerNamed(wire), net.replies, net.clock);
    OwnRoot(ctx, good);
    hide *;
    Delivers(map[], RootsOf(ctx, map[]), ctx, ctx, zone, good, tag, wire);
  }

  lemma OwnRoot(ctx: Ctx, good: DnsKey)
    ensures RootsBelow(RootsOf(ctx, map[]), good, ctx.zone)
  {
    hide Below, Normal, Holds;
    BelowNormal(ctx.zone);
  }

  lemma StaysPut(c: Crypto, anchors: Keys, cache: KeyCache, ctx: Ctx, signer: Str, replies: nat -> Replies,
                 clock: nat -> Time)
    requires !WalksDown(ctx, signer) || Chain(ctx.zone, signer) == []
    ensures Verifier(c, anchors, cache, ctx, signer, replies, clock) == Walked(Some(ctx), cache)
  {
    hide Chain, WalksDown;
    EmptyWalk(c, anchors, cache, ctx, replies, clock);
  }

  /** Keys at the end of a walk sign for a zone that is not below it. */
  lemma OutOfSigner(ctx: Ctx, zone: Str, wire: Str, good: DnsKey)
    requires Lower(zone) == zone && Readable(wire) && good != OTHER && !Holds(ctx.keys, good)
    requires WalksDown(ctx, SignerNamed(wire)) && Chain(ctx.zone, SignerNamed(wire)) != []
    requires !Below(zone, VerifierZone(ctx, SignerNamed(wire)))
    ensures IsReferral(Referral(zone, good, 0, wire), zone, SignerNamed(wire))
    ensures var cache := Planted(Chain(ctx.zone, SignerNamed(wire)), good);
            !KeepsTrust(SignsAlone(good, 0), KeySet(good, 0), RootsOf(ctx, cache), cache, ctx,
                        Referral(zone, good, 0, wire), Nearby(zone, good, 0, wire))
  {
    hide *;
    var signer := SignerNamed(wire);
    var chain := Chain(ctx.zone, signer);
    var cache := Planted(chain, good);
    NearbyTimes(zone, good, 0, wire);
    PlantedLeads(SignsAlone(good, 0), KeySet(good, 0), ctx, signer, good, Nearby(zone, good, 0, wire));
    PlantedLast(chain, good);
    RootsTrusted(SignsAlone(good, 0), KeySet(good, 0), ctx, cache);
    PlantedRoots(ctx, chain, good);
    Delivers(cache, RootsOf(ctx, cache), ctx, Ctx(VerifierZone(ctx, signer), KeySet(good, 0)), zone, good, 0, wire);
  }

  lemma PlantedLeads(c: Crypto, anchors: Keys, ctx: Ctx, signer: Str, good: DnsKey, net: Network)
    requires WalksDown(ctx, signer) && Chain(ctx.zone, signer) != [] && forall i :: net.clock(i) == 0
    ensures var chain := Chain(ctx.zone, signer);
            && VerifierZone(ctx, signer) == chain[|chain| - 1]
            && Verifier(c, anchors, Planted(chain, good), ctx, signer, net.replies, net.clock)
               == Walked(Some(Ctx(VerifierZone(ctx, signer), KeySet(good, 0))), Planted(chain, good))
  {
    hide *;
    var chain := Chain(ctx.zone, signer);
    EndOfWalk(ctx, signer);
    PlantedLast(chain, good);
    PlantedWalk(c, anchors, ctx, chain, good, net.replies, net.clock, |chain|);
    WalksThere(c, anchors, Planted(chain, good), ctx, signer, net.replies, net.clock);
  }

  lemma EndOfWalk(ctx: Ctx, signer: Str)
    requires WalksDown(ctx, signer) && Chain(ctx.zone, signer) != []
    ensures VerifierZone(ctx, signer) == Chain(ctx.zone, signer)[|Chain(ctx.zone, signer)| - 1]
  {
    hide Chain, WalksDown;
  }

  lemma PlantedLast(chain: seq<Str>, good: DnsKey)
    requires chain != []
    ensures Stale(Planted(chain, good))
    ensures var k := CacheKey(chain[|chain| - 1]);
            k in Planted(chain, good) && Planted(chain, good)[k].keys == KeySet(good, 0) && 0 in KeySet(good, 0)
            && KeySet(good, 0)[0] == good
  {
    hide CacheKey;
    assert CacheKey(chain[|chain| - 1]) in ChainKeys(chain);
  }

  lemma WalksThere(c: Crypto, anchors: Keys, cache: KeyCache, ctx: Ctx, signer: Str, replies: nat -> Replies,
                   clock: nat -> Time)
    requires WalksDown(ctx, signer)
    ensures var chain := Chain(ctx.zone, signer);
            Verifier(c, anchors, cache, ctx, signer, replies, clock)
            == WalkedTo(c, anchors, cache, ctx, chain, replies, clock, |chain|)
  {
    hide Chain, WalksDown, WalkedTo;
  }

  /** Every unsound combination has a referral, a network and a cache of trusted keys, so that afterwards the
      cache holds keys that nobody trusts. */
  lemma UnsoundLosesTrust(ctx: Ctx, zone: Str, wire: Str)
    returns (c: Crypto, anchors: Keys, roots: set<Ctx>, cache: KeyCache, m: Message, net: Network)
    requires Lower(zone) == zone && Readable(wire) && !Sound(ctx, zone, SignerNamed(wire))
    ensures IsReferral(m, zone, SignerNamed(wire)) && !KeepsTrust(c, anchors, roots, cache, ctx, m, net)
  {
    hide Below, WalksDown, Chain, SignerNamed, IsReferral, KeepsTrust, Referral, Nearby, Readable;
    var signer := SignerNamed(wire);
    var chain := Chain(ctx.zone, signer);
    if ctx.keys == map[] {
      WithoutKeys(ctx, zone, wire);
      c, anchors, roots, cache := SignsAlone(OTHER, 0), KeySet(OTHER, 0), {}, map[];
      m, net := Referral(zone, OTHER, 0, wire), Nearby(zone, OTHER, 0, wire);
    } else if !WalksDown(ctx, signer) || chain == [] {
      var tag :| tag in ctx.keys;
      OutOfZone(ctx, zone, wire, tag);
      var good := ctx.keys[tag];
      c, anchors, roots, cache := SignsAlone(good, tag), KeySet(good, tag), RootsOf(ctx, map[]), map[];
      m, net := Referral(zone, good, tag, wire), Nearby(zone, good, tag, wire);
    } else {
      var good := NewKey(ctx.keys);
      OutOfSigner(ctx, zone, wire, good);
      cache := Planted(chain, good);
      c, anchors, roots := SignsAlone(good, 0), KeySet(good, 0), RootsOf(ctx, cache);
      m, net := Referral(zone, good, 0, wire), Nearby(zone, good, 0, wire);
    }
  }

  /** For every context, delegated zone and signer: that no referral with DS records can bring untrusted keys
      into a cache of trusted ones, whatever the network, the roots of trust and the signature scheme,
      is the same as being sound. */
  lemma {:induction false} SoundExactly(ctx: Ctx, zone: Str, wire: Str)
    requires Lower(zone) == zone && Readable(wire)
    ensures Sound(ctx, zone, SignerNamed(wire))
            <==> forall c, anchors, roots, cache, m, net :: IsReferral(m, zone, SignerNamed(wire)) ==>
                   KeepsTrust(c, anchors, roots, cache, ctx, m, net)
  {
    hide *;
    if Sound(ctx, zone, SignerNamed(wire)) {
      forall c, anchors, roots, cache, m, net | IsReferral(m, zone, SignerNamed(wire))
        ensures KeepsTrust(c, anchors, roots, cache, ctx, m, net)
      {
        SoundKeepsTrust(c, anchors, roots, cache, ctx, m, net, zone, SignerNamed(wire));
      }
    } else {
      var c, anchors, roots, cache, m, net := UnsoundLosesTrust(ctx, zone, wire);
    }
  }

  lemma SoundKeepsTrust(c: Crypto, anchors: Keys, roots: set<Ctx>, cache: KeyCache, ctx: Ctx, m: Message, net: Network,
                        zone: Str, signer: Str)
    requires Sound(ctx, zone, signer) && IsReferral(m, zone, signer)
    ensures KeepsTrust(c, anchors, roots, cache, ctx, m, net)
  {
    hide AllTrusted, TrustedCache, Referred, Sound, Delegated, DelegationDs, DelegationSigner;
    if AllTrusted(c, anchors, roots, cache, ctx) { ReferralKeepsTrust(c, anchors, roots, cache, ctx, m, net); }
  }
}
