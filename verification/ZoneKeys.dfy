/** Validating a zone's keys: signatures over record sets, DS records, and the one link between a
    parent's keys and a child's. Hashes and signatures are arbitrary functions. */
module ZoneKeys {
  import opened Wrappers
  import opened Text
  import opened Message
  import opened Canonical
  import opened Domains

  const TYPE_DS: u16 := 43
  const TYPE_RRSIG: u16 := 46
  const TYPE_DNSKEY: u16 := 48

  datatype DnsKey = DnsKey(flags: u16, protocol: byte, algorithm: byte, publicKey: Str)
  datatype Ds = Ds(keyTag: u16, algorithm: byte, digestType: byte, digest: Str)
  type Keys = map<u16, DnsKey>

  /** Unix seconds. */
  type Time = int

  /** The key tag, the digest by type (None for an unsupported one), and signature verification. */
  datatype Crypto = Crypto(tag: DnsKey -> u16, digest: (byte, Str) -> Option<Str>, signs: (DnsKey, Str, Str) -> bool)

  /* ----- Records ----- */

  function ParseDnsKey(rr: RR): Option<DnsKey> {
    if rr.rtype != TYPE_DNSKEY || |rr.data| < 4 then None
    else Some(DnsKey(U16At(rr.data, 0), rr.data[2], rr.data[3], rr.data[4..]))
  }

  function ParseDs(rr: RR): Option<Ds> {
    if rr.rtype != TYPE_DS || |rr.data| < 4 then None
    else Some(Ds(U16At(rr.data, 0), rr.data[2], rr.data[3], rr.data[4..]))
  }

  function ParseRrsig(rr: RR): Option<Rrsig> {
    var d := rr.data;
    if rr.rtype != TYPE_RRSIG || |d| < 18 then None
    else
      match ReadName(d[18..])
      case None => None
      case Some((signer, n)) =>
        Some(Rrsig(U16At(d, 0), d[2], d[3], U32At(d, 4), U32At(d, 8), U32At(d, 12), U16At(d, 16), signer,
                   d[18 + n..]))
  }

  function DnsKeyRdata(k: DnsKey): Str {
    U16Bytes(k.flags) + [k.protocol, k.algorithm] + k.publicKey
  }

  /* ----- One digest, one signature ----- */

  /** VerifyDS */
  predicate DsMatches(c: Crypto, zone: Str, key: DnsKey, ds: Ds) {
    && c.tag(key) == ds.keyTag
    && key.algorithm == ds.algorithm
    && c.digest(ds.digestType, WireName(zone) + DnsKeyRdata(key)) == Some(ds.digest)
  }

  /** A key of the set, in the signature's time, verifies the signed data of the records. */
  ghost predicate Signed(c: Crypto, keys: Keys, rrset: seq<RR>, sig: Rrsig, raw: Str, now: Time) {
    && sig.inception <= now % 0x1_0000_0000 <= sig.expiration
    && sig.keyTag in keys && keys[sig.keyTag].algorithm == sig.algorithm
    && SignedData(sig, rrset, raw).Some?
    && c.signs(keys[sig.keyTag], SignedData(sig, rrset, raw).value, sig.signature)
  }

  method VerifyRrsig(c: Crypto, keys: Keys, rrset: seq<RR>, sig: Rrsig, raw: Str, now: Time) returns (ok: bool)
    ensures ok <==> Signed(c, keys, rrset, sig, raw, now)
  {
    var t := now % 0x1_0000_0000;
    if t < sig.inception {
      return false;
    }
    if t > sig.expiration {
      return false;
    }
    if sig.keyTag !in keys {
      return false;
    }
    var key := keys[sig.keyTag];
    if key.algorithm != sig.algorithm {
      return false;
    }
    var signed := BuildSignedData(sig, rrset, raw);
    return signed.Some? && c.signs(key, signed.value, sig.signature);
  }

  /** A record that is a signature of this type over the set. */
  ghost predicate SignedBy(c: Crypto, keys: Keys, rrset: seq<RR>, rr: RR, covered: u16, raw: Str, now: Time) {
    ParseRrsig(rr).Some? && ParseRrsig(rr).value.typeCovered == covered
    && Signed(c, keys, rrset, ParseRrsig(rr).value, raw, now)
  }

  ghost predicate AnySignature(c: Crypto, keys: Keys, rrset: seq<RR>, rrsigs: seq<RR>, covered: u16, raw: Str,
                               now: Time) {
    exists i :: 0 <= i < |rrsigs| && SignedBy(c, keys, rrset, rrsigs[i], covered, raw, now)
  }

  /** VerifyAnyRRSIG: the loop as written. */
  method VerifyAny(c: Crypto, keys: Keys, rrset: seq<RR>, rrsigs: seq<RR>, covered: u16, raw: Str, now: Time)
    returns (ok: bool)
    ensures ok <==> AnySignature(c, keys, rrset, rrsigs, covered, raw, now)
  {
    hide Signed, ParseRrsig;
    for i := 0 to |rrsigs|
      invariant forall j :: 0 <= j < i ==> !SignedBy(c, keys, rrset, rrsigs[j], covered, raw, now)
    {
      var sig := ParseRrsig(rrsigs[i]);
      if sig.None? {
        continue;
      }
      if sig.value.typeCovered != covered {
        continue;
      }
      var good := VerifyRrsig(c, keys, rrset, sig.value, raw, now);
      if good {
        return true;
      }
    }
    return false;
  }

  /* ----- A zone's keys ----- */

  /** All parsable keys by tag; of keys with one tag the last counts. */
  function AllKeys(c: Crypto, rrs: seq<RR>): Keys {
    if rrs == [] then map[]
    else
      var front, k := AllKeys(c, rrs[..|rrs| - 1]), ParseDnsKey(rrs[|rrs| - 1]);
      if k.Some? then front[c.tag(k.value) := k.value] else front
  }

  lemma {:induction false} KeysAreTagged(c: Crypto, rrs: seq<RR>)
    ensures forall t :: t in AllKeys(c, rrs) ==> c.tag(AllKeys(c, rrs)[t]) == t
  {
    if rrs != [] { KeysAreTagged(c, rrs[..|rrs| - 1]); }
  }

  predicate Vouched(c: Crypto, zone: Str, key: DnsKey, parentDs: seq<Ds>) {
    exists i :: 0 <= i < |parentDs| && DsMatches(c, zone, key, parentDs[i])
  }

  predicate IsRoot(zone: Str) {
    zone == [DOT] || zone == []
  }

  /** The keys a zone's own key set must be signed with: those a DS record vouches for, or, for the
      root, those with an anchor's tag. */
  function Seeds(c: Crypto, anchors: Keys, zone: Str, all: Keys, parentDs: seq<Ds>): Keys {
    map t | t in all && (if IsRoot(zone) then t in anchors else Vouched(c, zone, all[t], parentDs)) :: all[t]
  }

  ghost predicate ZoneKeysValid(c: Crypto, anchors: Keys, zone: Str, keyRRs: seq<RR>, rrsigs: seq<RR>,
                                parentDs: seq<Ds>, raw: Str, now: Time) {
    && Seeds(c, anchors, zone, AllKeys(c, keyRRs), parentDs) != map[]
    && AnySignature(c, Seeds(c, anchors, zone, AllKeys(c, keyRRs), parentDs), keyRRs, rrsigs, TYPE_DNSKEY, raw, now)
  }

  method CollectKeys(c: Crypto, rrs: seq<RR>) returns (all: Keys)
    ensures all == AllKeys(c, rrs)
  {
    all := map[];
    for i := 0 to |rrs|
      invariant all == AllKeys(c, rrs[..i])
    {
      assert rrs[..i + 1][..i] == rrs[..i];
      var k := ParseDnsKey(rrs[i]);
      if k.Some? {
        all := all[c.tag(k.value) := k.value];
      }
    }
    assert rrs[..|rrs|] == rrs;
  }

  method SeedsFromDs(c: Crypto, zone: Str, all: Keys, parentDs: seq<Ds>) returns (seeds: Keys)
    requires !IsRoot(zone) && forall t :: t in all ==> c.tag(all[t]) == t
    ensures seeds == Seeds(c, map[], zone, all, parentDs)
  {
    hide DsMatches;
    seeds := map[];
    for i := 0 to |parentDs|
      invariant forall t :: t in seeds <==> t in all && Vouched(c, zone, all[t], parentDs[..i])
      invariant forall t :: t in seeds ==> seeds[t] == all[t]
    {
      var ds := parentDs[i];
      VouchedNext(c, zone, all, parentDs, i);
      if ds.keyTag in all && DsMatches(c, zone, all[ds.keyTag], ds) {
        seeds := seeds[ds.keyTag := all[ds.keyTag]];
      }
    }
    assert parentDs[..|parentDs|] == parentDs;
  }

  lemma VouchedNext(c: Crypto, zone: Str, all: Keys, parentDs: seq<Ds>, i: nat)
    requires i < |parentDs| && forall t :: t in all ==> c.tag(all[t]) == t
    ensures forall t :: t in all ==>
              (Vouched(c, zone, all[t], parentDs[..i + 1])
               <==> || Vouched(c, zone, all[t], parentDs[..i])
                    || (t == parentDs[i].keyTag && DsMatches(c, zone, all[t], parentDs[i])))
  {
    var more := parentDs[..i + 1];
    forall t | t in all
      ensures Vouched(c, zone, all[t], more)
              <==> || Vouched(c, zone, all[t], parentDs[..i])
                   || (t == parentDs[i].keyTag && DsMatches(c, zone, all[t], parentDs[i]))
    {
      assert more[i] == parentDs[i];
      if Vouched(c, zone, all[t], parentDs[..i]) {
        var j :| 0 <= j < i && DsMatches(c, zone, all[t], parentDs[..i][j]);
        assert DsMatches(c, zone, all[t], more[j]);
      }
    }
  }

  /** The root branch: for every anchor, in any order, the key of its tag. */
  method SeedsFromAnchors(c: Crypto, anchors: Keys, zone: Str, all: Keys) returns (seeds: Keys)
    requires IsRoot(zone) && forall t :: t in all ==> c.tag(all[t]) == t
    ensures seeds == Seeds(c, anchors, zone, all, [])
  {
    seeds := map[];
    var todo := anchors.Keys;
    while todo != {}
      invariant todo <= anchors.Keys
      invariant seeds == map t | t in all && t in anchors && t !in todo :: all[t]
      decreases todo
    {
      var tag :| tag in todo;
      if tag in all {
        seeds := seeds[tag := anchors[tag]];
      }
      var keys := all.Keys;
      ghost var before := seeds;
      while keys != {}
        invariant keys <= all.Keys
        invariant seeds == if tag in all && tag !in keys then before[tag := all[tag]] else before
        decreases keys
      {
        var k :| k in keys;
        if c.tag(all[k]) == tag {
          seeds := seeds[tag := all[k]];
        }
        keys := keys - {k};
      }
      todo := todo - {tag};
    }
  }

  /** ValidateZoneDNSKEY: on success every key of the set is trusted, not only the seeds. */
  method ValidateZoneKeys(c: Crypto, anchors: Keys, zone: Str, keyRRs: seq<RR>, rrsigs: seq<RR>,
                          parentDs: seq<Ds>, raw: Str, now: Time) returns (r: Option<Keys>)
    ensures r.Some? <==> ZoneKeysValid(c, anchors, zone, keyRRs, rrsigs, parentDs, raw, now)
    ensures r.Some? ==> r.value == AllKeys(c, keyRRs)
  {
    hide AnySignature, Vouched;
    if |keyRRs| == 0 {
      return None;
    }
    var all := CollectKeys(c, keyRRs);
    KeysAreTagged(c, keyRRs);
    var seeds: Keys;
    if IsRoot(zone) {
      seeds := SeedsFromAnchors(c, anchors, zone, all);
    } else {
      if |parentDs| == 0 {
        NoDsNoSeeds(c, anchors, zone, all);
        return None;
      }
      seeds := SeedsFromDs(c, zone, all, parentDs);
    }
    assert seeds == Seeds(c, anchors, zone, all, parentDs);
    if seeds == map[] {
      return None;
    }
    var ok := VerifyAny(c, seeds, keyRRs, rrsigs, TYPE_DNSKEY, raw, now);
    return if ok then Some(all) else None;
  }

  lemma NoDsNoSeeds(c: Crypto, anchors: Keys, zone: Str, all: Keys)
    requires !IsRoot(zone)
    ensures Seeds(c, anchors, zone, all, []) == map[]
  {
  }

  /* ----- Responses ----- */

  function OfType(rrs: seq<RR>, t: u16): (r: seq<RR>)
    ensures forall i :: 0 <= i < |r| ==> r[i] in rrs && r[i].rtype == t
  {
    if rrs == [] then []
    else
      var last := rrs[|rrs| - 1];
      OfType(rrs[..|rrs| - 1], t) + if last.rtype == t then [last] else []
  }

  predicate Owns(rr: RR, t: u16, zone: Str) {
    rr.rtype == t && Normal(rr.name) == Normal(zone)
  }

  function OfTypeOwner(rrs: seq<RR>, t: u16, zone: Str): (r: seq<RR>)
    ensures forall i :: 0 <= i < |r| ==> r[i] in rrs && Owns(r[i], t, zone)
  {
    if rrs == [] then []
    else
      var last := rrs[|rrs| - 1];
      OfTypeOwner(rrs[..|rrs| - 1], t, zone) + if Owns(last, t, zone) then [last] else []
  }

  method FilterType(rrs: seq<RR>, t: u16) returns (out: seq<RR>)
    ensures out == OfType(rrs, t)
  {
    out := [];
    for i := 0 to |rrs|
      invariant out == OfType(rrs[..i], t)
    {
      assert rrs[..i + 1][..i] == rrs[..i];
      if rrs[i].rtype == t {
        out := out + [rrs[i]];
      }
    }
    assert rrs[..|rrs|] == rrs;
  }

  method FilterTypeOwner(rrs: seq<RR>, t: u16, zone: Str) returns (out: seq<RR>)
    ensures out == OfTypeOwner(rrs, t, zone)
  {
    hide Normal;
    var wanted := Normal(zone);
    out := [];
    for i := 0 to |rrs|
      invariant out == OfTypeOwner(rrs[..i], t, zone)
    {
      assert rrs[..i + 1][..i] == rrs[..i];
      if rrs[i].rtype == t && Normal(rrs[i].name) == wanted {
        out := out + [rrs[i]];
      }
    }
    assert rrs[..|rrs|] == rrs;
  }

  /** The DS records for a zone and the signatures next to them: from the answers if there are any
      there, from the authority section otherwise. */
  function DsRecords(m: Message, zone: Str): (seq<RR>, seq<RR>) {
    var inAnswers := OfTypeOwner(m.answers, TYPE_DS, zone);
    if inAnswers != [] then (inAnswers, OfType(m.answers, TYPE_RRSIG))
    else (OfTypeOwner(m.authority, TYPE_DS, zone), OfType(m.authority, TYPE_RRSIG))
  }

  function AllDs(rrs: seq<RR>): seq<Ds> {
    if rrs == [] then []
    else
      var d := ParseDs(rrs[|rrs| - 1]);
      AllDs(rrs[..|rrs| - 1]) + if d.Some? then [d.value] else []
  }

  method CollectDs(rrs: seq<RR>) returns (out: seq<Ds>)
    ensures out == AllDs(rrs)
  {
    out := [];
    for i := 0 to |rrs|
      invariant out == AllDs(rrs[..i])
    {
      assert rrs[..i + 1][..i] == rrs[..i];
      var d := ParseDs(rrs[i]);
      if d.Some? {
        out := out + [d.value];
      }
    }
    assert rrs[..|rrs|] == rrs;
  }

  /* ----- One link of the chain ----- */

  /** The two responses a link is built on, and the clock readings. */
  datatype Evidence = Evidence(ds: Message, dsTime: Time, keys: Message, keysTime: Time)

  ghost predicate Proves(c: Crypto, anchors: Keys, parent: Keys, zone: Str, keys: Keys, e: Evidence) {
    var (dsRRs, rrsigs) := DsRecords(e.ds, zone);
    && dsRRs != []
    && AnySignature(c, parent, dsRRs, rrsigs, TYPE_DS, e.ds.raw, e.dsTime)
    && ZoneKeysValid(c, anchors, zone, OfType(e.keys.answers, TYPE_DNSKEY), OfType(e.keys.answers, TYPE_RRSIG),
                     AllDs(dsRRs), e.keys.raw, e.keysTime)
    && keys == AllKeys(c, OfType(e.keys.answers, TYPE_DNSKEY))
  }

  ghost predicate Established(c: Crypto, anchors: Keys, parent: Keys, zone: Str, keys: Keys) {
    exists e :: Proves(c, anchors, parent, zone, keys, e)
  }

  lemma {:induction false} DsFromRecord(rrs: seq<RR>, i: nat) returns (k: nat)
    requires i < |AllDs(rrs)|
    ensures k < |rrs| && ParseDs(rrs[k]) == Some(AllDs(rrs)[i])
  {
    var front := rrs[..|rrs| - 1];
    if i < |AllDs(front)| {
      k := DsFromRecord(front, i);
    } else {
      k := |rrs| - 1;
    }
  }

  /** What a link below the root means: a key of the parent signed a DS set of this zone; one of those
      DS records matches, by tag, algorithm and digest, a key of the zone; and that very key signed the
      zone's key set. */
  lemma {:induction false} LinkMeans(c: Crypto, anchors: Keys, parent: Keys, zone: Str, keys: Keys, e: Evidence)
    returns (dsSig: Rrsig, dsRR: RR, keySig: Rrsig)
    requires Proves(c, anchors, parent, zone, keys, e) && !IsRoot(zone)
    ensures dsRR in DsRecords(e.ds, zone).0 && Normal(dsRR.name) == Normal(zone) && ParseDs(dsRR).Some?
    ensures dsSig.typeCovered == TYPE_DS && Signed(c, parent, DsRecords(e.ds, zone).0, dsSig, e.ds.raw, e.dsTime)
    ensures keySig.keyTag in keys && DsMatches(c, zone, keys[keySig.keyTag], ParseDs(dsRR).value)
    ensures keySig.typeCovered == TYPE_DNSKEY
            && Signed(c, keys, OfType(e.keys.answers, TYPE_DNSKEY), keySig, e.keys.raw, e.keysTime)
  {
    var (dsRRs, dsSigs) := DsRecords(e.ds, zone);
    var keyRRs, keySigs := OfType(e.keys.answers, TYPE_DNSKEY), OfType(e.keys.answers, TYPE_RRSIG);
    var seeds := Seeds(c, anchors, zone, keys, AllDs(dsRRs));
    hide DsMatches, ParseRrsig, ParseDs, SignedData, AllKeys, OfType, Normal;
    var i :| 0 <= i < |dsSigs| && SignedBy(c, parent, dsRRs, dsSigs[i], TYPE_DS, e.ds.raw, e.dsTime);
    dsSig := ParseRrsig(dsSigs[i]).value;
    var j :| 0 <= j < |keySigs| && SignedBy(c, seeds, keyRRs, keySigs[j], TYPE_DNSKEY, e.keys.raw, e.keysTime);
    keySig := ParseRrsig(keySigs[j]).value;
    var key := keys[keySig.keyTag];
    var n :| 0 <= n < |AllDs(dsRRs)| && DsMatches(c, zone, key, AllDs(dsRRs)[n]);
    var k := DsFromRecord(dsRRs, n);
    dsRR := dsRRs[k];
  }
}
