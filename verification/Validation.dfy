/** What DNSSEC validation accepts, exactly: which records count, which keys a zone gets, when a link is made, whose
    keys verify a signature, and what a referral leads to. */
module Validation {
  import opened Wrappers
  import opened Text
  import opened Message
  import opened Canonical
  import opened Domains
  import opened ZoneKeys
  import opened Trust
  import opened WireLayout
  import SignedLayout

  /* ----- Which records count ----- */

  lemma {:induction false} TypeExactly(rrs: seq<RR>, t: u16, rr: RR)
    ensures rr in OfType(rrs, t) <==> rr in rrs && rr.rtype == t
  {
    if rrs != [] {
      TypeExactly(rrs[..|rrs| - 1], t, rr);
      assert rrs == rrs[..|rrs| - 1] + [rrs[|rrs| - 1]];
    }
  }

  /** Names of zones are compared without case, and without one trailing dot. */
  lemma {:induction false} OwnedExactly(rrs: seq<RR>, t: u16, zone: Str, rr: RR)
    ensures rr in OfTypeOwner(rrs, t, zone)
            <==> rr in rrs && rr.rtype == t && SameName(TrimDot(rr.name), TrimDot(zone))
  {
    hide Lower, TrimDot;
    if rrs != [] {
      OwnedExactly(rrs[..|rrs| - 1], t, zone, rr);
      assert rrs == rrs[..|rrs| - 1] + [rrs[|rrs| - 1]];
    }
  }

  /** DS records count from the answers if there are any of the zone there, and otherwise from the authority
      section; and so do the signatures next to them. */
  lemma DsRecordsExactly(m: Message, zone: Str, rr: RR)
    ensures var section := if exists x :: x in m.answers && x.rtype == 43 && SameName(TrimDot(x.name), TrimDot(zone))
                           then m.answers else m.authority;
            && (rr in DsRecords(m, zone).0
                <==> rr in section && rr.rtype == 43 && SameName(TrimDot(rr.name), TrimDot(zone)))
            && (rr in DsRecords(m, zone).1 <==> rr in section && rr.rtype == 46)
  {
    var inAnswers := OfTypeOwner(m.answers, 43, zone);
    OwnedExactly(m.answers, 43, zone, rr);
    OwnedExactly(m.authority, 43, zone, rr);
    TypeExactly(m.answers, 46, rr);
    TypeExactly(m.authority, 46, rr);
    if x :| x in m.answers && x.rtype == 43 && SameName(TrimDot(x.name), TrimDot(zone)) {
      OwnedExactly(m.answers, 43, zone, x);
    }
    if inAnswers != [] {
      assert inAnswers[0] in inAnswers;
      OwnedExactly(m.answers, 43, zone, inAnswers[0]);
    }
    hide OfType, OfTypeOwner, SameName, TrimDot;
  }

  /* ----- Which keys a zone gets ----- */

  /** A key set holds a tag exactly if one of the records does, and then the key of the last of them. */
  lemma {:induction false} KeysExactly(c: Crypto, rrs: seq<RR>, t: u16)
    ensures t in AllKeys(c, rrs)
            <==> exists i :: 0 <= i < |rrs| && ParseDnsKey(rrs[i]).Some? && c.tag(ParseDnsKey(rrs[i]).value) == t
    ensures t in AllKeys(c, rrs) ==>
              exists i :: 0 <= i < |rrs| && ParseDnsKey(rrs[i]) == Some(AllKeys(c, rrs)[t])
                && c.tag(AllKeys(c, rrs)[t]) == t && NoneLater(c, rrs, i, t)
  {
    hide ParseDnsKey;
    if rrs != [] {
      var front, last := rrs[..|rrs| - 1], rrs[|rrs| - 1];
      KeysExactly(c, front, t);
      assert forall i :: 0 <= i < |front| ==> rrs[i] == front[i];
      if t in AllKeys(c, front) {
        var i :| 0 <= i < |front| && ParseDnsKey(front[i]).Some? && c.tag(ParseDnsKey(front[i]).value) == t;
        assert ParseDnsKey(rrs[i]).Some? && c.tag(ParseDnsKey(rrs[i]).value) == t;
        var j :| 0 <= j < |front| && ParseDnsKey(front[j]) == Some(AllKeys(c, front)[t]) && NoneLater(c, front, j, t);
        assert ParseDnsKey(rrs[j]) == Some(AllKeys(c, front)[t]);
        if ParseDnsKey(last).None? || c.tag(ParseDnsKey(last).value) != t { assert NoneLater(c, rrs, j, t); }
      }
      assert NoneLater(c, rrs, |rrs| - 1, t);
    }
  }

  /** No record behind this one has a key of this tag. */
  predicate NoneLater(c: Crypto, rrs: seq<RR>, i: int, t: u16) {
    forall j :: i < j < |rrs| && 0 <= j && ParseDnsKey(rrs[j]).Some? ==> c.tag(ParseDnsKey(rrs[j]).value) != t
  }

  lemma {:induction false} DsExactly(rrs: seq<RR>, ds: Ds)
    ensures ds in AllDs(rrs) <==> exists i :: 0 <= i < |rrs| && ParseDs(rrs[i]) == Some(ds)
  {
    hide ParseDs;
    if rrs != [] {
      var front := rrs[..|rrs| - 1];
      DsExactly(front, ds);
      assert forall i :: 0 <= i < |front| ==> rrs[i] == front[i];
      if ds in AllDs(front) {
        var i :| 0 <= i < |front| && ParseDs(front[i]) == Some(ds);
        assert ParseDs(rrs[i]) == Some(ds);
      }
    }
  }

  lemma AnyExactly(c: Crypto, keys: Keys, rrset: seq<RR>, rrsigs: seq<RR>, covered: u16, raw: Str, now: Time)
    ensures AnySignature(c, keys, rrset, rrsigs, covered, raw, now)
            <==> exists i :: 0 <= i < |rrsigs| && SignedBy(c, keys, rrset, rrsigs[i], covered, raw, now)
  {
    hide SignedBy;
  }

  /** A key that validation may start from: for the root one with an anchor's tag, otherwise one that a DS record
      matches. */
  ghost predicate StartsTrust(c: Crypto, anchors: Keys, zone: Str, keys: Keys, ds: seq<Ds>, t: u16) {
    && t in keys
    && if zone == [] || zone == ['.' as byte] then t in anchors
       else exists j :: 0 <= j < |ds| && DsMatches(c, zone, keys[t], ds[j])
  }

  ghost predicate SignsKeySet(c: Crypto, anchors: Keys, zone: Str, all: Keys, ds: seq<Ds>, keyRRs: seq<RR>, rr: RR,
                              raw: Str, now: Time) {
    |rr.data| >= 18 && SignedBy(c, all, keyRRs, rr, 48, raw, now)
    && StartsTrust(c, anchors, zone, all, ds, Two(rr.data, 16))
  }

  /** A zone's keys are valid exactly when one of the keys that validation may start from has signed the key set. */
  lemma ValidExactly(c: Crypto, anchors: Keys, zone: Str, keyRRs: seq<RR>, rrsigs: seq<RR>, ds: seq<Ds>, raw: Str,
                     now: Time)
    ensures ZoneKeysValid(c, anchors, zone, keyRRs, rrsigs, ds, raw, now)
            <==> exists i :: 0 <= i < |rrsigs|
                   && SignsKeySet(c, anchors, zone, AllKeys(c, keyRRs), ds, keyRRs, rrsigs[i], raw, now)
  {
    hide *;
    var all := AllKeys(c, keyRRs);
    ValidMeans(c, anchors, zone, keyRRs, rrsigs, ds, raw, now);
    AnyExactly(c, Seeds(c, anchors, zone, all, ds), keyRRs, rrsigs, 48, raw, now);
    forall i | 0 <= i < |rrsigs|
      ensures SignedBy(c, Seeds(c, anchors, zone, all, ds), keyRRs, rrsigs[i], 48, raw, now)
              <==> SignsKeySet(c, anchors, zone, all, ds, keyRRs, rrsigs[i], raw, now)
      ensures SignsKeySet(c, anchors, zone, all, ds, keyRRs, rrsigs[i], raw, now) ==>
                Seeds(c, anchors, zone, all, ds) != map[]
    {
      SeedSigned(c, anchors, zone, all, ds, keyRRs, rrsigs[i], raw, now);
      SetSigned(c, anchors, zone, all, ds, keyRRs, rrsigs[i], raw, now);
    }
  }

  lemma ValidMeans(c: Crypto, anchors: Keys, zone: Str, keyRRs: seq<RR>, rrsigs: seq<RR>, ds: seq<Ds>, raw: Str,
                   now: Time)
    ensures var seeds := Seeds(c, anchors, zone, AllKeys(c, keyRRs), ds);
            ZoneKeysValid(c, anchors, zone, keyRRs, rrsigs, ds, raw, now)
            <==> seeds != map[] && AnySignature(c, seeds, keyRRs, rrsigs, 48, raw, now)
  {
    hide Seeds, AnySignature;
  }

  lemma SetSigned(c: Crypto, anchors: Keys, zone: Str, all: Keys, ds: seq<Ds>, keyRRs: seq<RR>, rr: RR, raw: Str,
                  now: Time)
    ensures SignsKeySet(c, anchors, zone, all, ds, keyRRs, rr, raw, now)
            <==> |rr.data| >= 18 && SignedBy(c, all, keyRRs, rr, 48, raw, now)
                 && StartsTrust(c, anchors, zone, all, ds, Two(rr.data, 16))
    ensures SignsKeySet(c, anchors, zone, all, ds, keyRRs, rr, raw, now) ==> Seeds(c, anchors, zone, all, ds) != map[]
  {
    hide Seeds, SignedBy, StartsTrust;
    if SignsKeySet(c, anchors, zone, all, ds, keyRRs, rr, raw, now) {
      SeedsHold(c, anchors, zone, all, ds, Two(rr.data, 16));
    }
  }

  lemma SeedsHold(c: Crypto, anchors: Keys, zone: Str, all: Keys, ds: seq<Ds>, t: u16)
    requires StartsTrust(c, anchors, zone, all, ds, t)
    ensures Seeds(c, anchors, zone, all, ds) != map[]
  {
    SeedExactly(c, anchors, zone, all, ds, t);
    hide Seeds;
  }

  lemma SeedExactly(c: Crypto, anchors: Keys, zone: Str, all: Keys, ds: seq<Ds>, t: u16)
    ensures t in Seeds(c, anchors, zone, all, ds) <==> StartsTrust(c, anchors, zone, all, ds, t)
    ensures t in Seeds(c, anchors, zone, all, ds) ==> t in all && Seeds(c, anchors, zone, all, ds)[t] == all[t]
  {
    hide DsMatches;
  }

  lemma SeedSigned(c: Crypto, anchors: Keys, zone: Str, all: Keys, ds: seq<Ds>, rrset: seq<RR>, rr: RR, raw: Str,
                   now: Time)
    ensures var seeds := Seeds(c, anchors, zone, all, ds);
            SignedBy(c, seeds, rrset, rr, 48, raw, now)
            <==> |rr.data| >= 18 && SignedBy(c, all, rrset, rr, 48, raw, now)
                 && StartsTrust(c, anchors, zone, all, ds, Two(rr.data, 16))
  {
    var seeds := Seeds(c, anchors, zone, all, ds);
    SignedLayout.SignedByExactly(c, seeds, rrset, rr, 48, raw, now);
    SignedLayout.SignedByExactly(c, all, rrset, rr, 48, raw, now);
    if |rr.data| >= 18 { SeedExactly(c, anchors, zone, all, ds, Two(rr.data, 16)); }
    hide Seeds, SignedBy, StartsTrust, SignedData, ReadName, ParseRrsig;
  }

  /* ----- When a link is made ----- */

  /** The first server that replies counts, and the first with any records. */
  lemma {:induction false} FirstExactly(replies: seq<Option<Message>>, k: nat)
    ensures FirstReply(replies).None? <==> forall i :: 0 <= i < |replies| ==> replies[i].None?
    ensures k < |replies| && replies[k].Some? && (forall i :: 0 <= i < k ==> replies[i].None?) ==>
              FirstReply(replies) == replies[k]
    ensures FirstAnswer(replies).None? <==> forall i :: 0 <= i < |replies| ==> !HasAnswers(replies[i])
    ensures k < |replies| && HasAnswers(replies[k]) && (forall i :: 0 <= i < k ==> !HasAnswers(replies[i])) ==>
              FirstAnswer(replies) == replies[k]
  {
    if replies != [] {
      var rest := replies[1..];
      FirstExactly(rest, if k == 0 then 0 else k - 1);
      assert forall i :: 0 <= i < |rest| ==> rest[i] == replies[i + 1];
    }
  }

  predicate HasAnswers(reply: Option<Message>) {
    reply.Some? && |reply.value.answers| > 0
  }

  /** Keys are established exactly when the parent's keys have signed the DS records of the first reply, one by one
      record set, and the keys in the first answer are valid by them; and then all of these keys are. */
  lemma EstablishedExactly(c: Crypto, anchors: Keys, parent: Keys, zone: Str, w: Replies)
    ensures EstablishedKeys(c, anchors, parent, zone, w).Some?
            <==> && FirstReply(w.ds).Some? && FirstAnswer(w.keys).Some?
                 && var ds, k := FirstReply(w.ds).value, FirstAnswer(w.keys).value;
                    var (dsRRs, rrsigs) := DsRecords(ds, zone);
                    && dsRRs != []
                    && AnySignature(c, parent, dsRRs, rrsigs, 43, ds.raw, w.dsTime)
                    && ZoneKeysValid(c, anchors, zone, OfType(k.answers, 48), OfType(k.answers, 46), AllDs(dsRRs),
                                     k.raw, w.keysTime)
    ensures EstablishedKeys(c, anchors, parent, zone, w).Some? ==>
              EstablishedKeys(c, anchors, parent, zone, w).value
              == AllKeys(c, OfType(FirstAnswer(w.keys).value.answers, 48))
  {
    hide AnySignature, ZoneKeysValid, AllKeys, AllDs, DsRecords, OfType, FirstReply, FirstAnswer;
  }

  /** Keys are cached under the name in lower case, with one dot behind it. */
  lemma CachedUnder(zone: Str)
    ensures CacheKey(zone) == Lower(TrimDot(zone)) + ['.' as byte]
  {
    assert zone != [] ==> zone[|zone| - 1..] == [zone[|zone| - 1]];
    assert zone != [] && zone[|zone| - 1] == DOT ==> zone == TrimDot(zone) + [DOT];
    assert Fqdn(zone) == TrimDot(zone) + [DOT];
  }

  /** Keys are kept for as long as the first key record says, an hour for zero. */
  lemma KeptFor(cache: KeyCache, zone: Str, keys: Keys, reply: Message, now: Time, later: Time)
    ensures var rrs := OfType(reply.answers, 48);
            var ttl := if rrs != [] && rrs[0].ttl > 0 then rrs[0].ttl else 3600;
            CachedKeys(Stored(cache, zone, keys, reply, now), zone, later)
            == if later - now <= ttl then Some(keys) else None
  {
    hide CacheKey, OfType;
  }

  /* ----- Whose keys verify a signature ----- */

  /** The signer of the first signature of the type that can be read. */
  lemma {:induction false} SignerExactly(rrsigs: seq<RR>, covered: u16, k: nat)
    ensures (forall i :: 0 <= i < |rrsigs| ==> !Covers(rrsigs[i], covered)) ==> Signer(rrsigs, covered) == []
    ensures k < |rrsigs| && Covers(rrsigs[k], covered) && (forall i :: 0 <= i < k ==> !Covers(rrsigs[i], covered)) ==>
              Signer(rrsigs, covered) == Lower(TrimDot(ParseRrsig(rrsigs[k]).value.signerName))
  {
    hide ParseRrsig, TrimDot, Lower;
    if rrsigs != [] {
      var rest := rrsigs[1..];
      SignerExactly(rest, covered, if k == 0 then 0 else k - 1);
      assert forall i :: 0 <= i < |rest| ==> rest[i] == rrsigs[i + 1];
    }
  }

  predicate Covers(rr: RR, covered: u16) {
    ParseRrsig(rr).Some? && ParseRrsig(rr).value.typeCovered == covered
  }

  /** Verification walks to a signer exactly if it lies strictly below the context's zone. */
  lemma WalksExactly(ctx: Ctx, signer: Str)
    ensures var s, z := Normal(signer), Normal(Normal(ctx.zone));
            WalksDown(ctx, signer)
            <==> signer != [] && signer != Normal(ctx.zone) && LabelSuffix(ZoneLabels(z), ZoneLabels(s)) && s != z
  {
    DescendantIffLabels(signer, Normal(ctx.zone));
    hide Normal, IsDescendant, LabelSuffix, ZoneLabels;
  }

  /** The keys that verify then belong to the signer, wherever the chain of zones reaches it; without a walk they are
      the context's own. */
  lemma VerifierIsSigner(ctx: Ctx, signer: Str)
    ensures !WalksDown(ctx, signer) ==> VerifierZone(ctx, signer) == ctx.zone
    ensures WalksDown(ctx, signer) && Reaches(Normal(ctx.zone), Normal(signer)) ==>
              VerifierZone(ctx, signer) == Normal(signer)
  {
    ChainEndsAtTarget(ctx.zone, signer);
    hide Normal, Chain, WalksDown, Reaches, IsDescendant;
    if Reaches(Normal(ctx.zone), Normal(signer)) { ReachesDescends(Normal(ctx.zone), Normal(signer)); }
  }

  lemma ReachesDescends(p: Str, t: Str)
    requires Reaches(p, t)
    ensures IsDescendant(t, p)
  {
    hide IsDescendant;
  }

  /* ----- What a referral leads to ----- */

  /** The zone a referral delegates is the owner of its first NS record. */
  lemma {:induction false} DelegatesExactly(m: Message, k: nat)
    ensures k < |m.authority| && m.authority[k].rtype == 2 && (forall i :: 0 <= i < k ==> m.authority[i].rtype != 2) ==>
              Delegated(m) == Lower(TrimDot(m.authority[k].name))
  {
    if k < |m.authority| && m.authority[k].rtype == 2 && forall i :: 0 <= i < k ==> m.authority[i].rtype != 2 {
      FirstOwner(m.authority, k);
    }
  }

  lemma {:induction false} FirstOwner(rrs: seq<RR>, k: nat)
    requires k < |rrs| && rrs[k].rtype == 2 && forall i :: 0 <= i < k ==> rrs[i].rtype != 2
    ensures FirstNsOwner(rrs) == Lower(TrimDot(rrs[k].name))
  {
    hide TrimDot, Lower;
    if k > 0 { FirstOwner(rrs[1..], k - 1); }
  }

  /** A zone whose keys are cached gets them; one without DS records gets none; any other one gets the keys its servers
      present, if its DS records vouch for them. What it gets is cached, and a referral that fails stores nothing. */
  lemma ChildExactly(c: Crypto, anchors: Keys, cache: KeyCache, m: Message, net: Network)
    ensures var zone, r := Delegated(m), Child(c, anchors, cache, m, net);
            var cached, presented := CachedKeys(cache, zone, net.lookup), FirstAnswer(net.w.keys);
            && (cached.Some? ==> r == Walked(Some(Ctx(zone, cached.value)), cache))
            && (cached.None? && DelegationDs(m) == [] ==> r.ctx == Some(Ctx(zone, map[])))
            && (cached.None? && DelegationDs(m) != [] ==>
                  (r.ctx.Some?
                   <==> && presented.Some?
                        && ZoneKeysValid(c, anchors, zone, OfType(presented.value.answers, 48),
                                         OfType(presented.value.answers, 46), AllDs(DelegationDs(m)),
                                         presented.value.raw, net.w.keysTime)))
            && (cached.None? && DelegationDs(m) != [] && r.ctx.Some? ==>
                  && r.ctx == Some(Ctx(zone, AllKeys(c, OfType(presented.value.answers, 48))))
                  && CacheKey(zone) in r.cache && r.cache[CacheKey(zone)].keys == r.ctx.value.keys)
            && (r.ctx.None? || DelegationDs(m) == [] ==>
                  forall k :: k in r.cache ==> k in cache && r.cache[k] == cache[k])
  {
    hide CacheKey, CachedKeys, ZoneKeysValid, AllKeys, AllDs, OfType, FirstAnswer, DelegationDs, Delegated;
  }

  /** DS records that nobody has to verify are believed; those of a context with keys have to be signed by the keys that
      verify the first signature's signer. */
  lemma ReferredExactly(c: Crypto, anchors: Keys, cache: KeyCache, ctx: Ctx, m: Message, net: Network)
    ensures var v := Verifier(c, anchors, cache, ctx, DelegationSigner(m), net.replies, net.clock);
            Referred(c, anchors, cache, ctx, m, net)
            == if ctx.keys == map[] || DelegationDs(m) == [] then Child(c, anchors, cache, m, net)
               else if v.ctx.Some? && AnySignature(c, v.ctx.value.keys, DelegationDs(m), OfType(m.authority, 46), 43,
                                                   m.raw, net.w.dsTime)
               then Child(c, anchors, v.cache, m, net)
               else Walked(None, v.cache)
  {
    hide Verifier, Child, DelegationDs, DelegationSigner, AnySignature, OfType;
  }
}
