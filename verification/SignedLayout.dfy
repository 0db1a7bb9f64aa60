/** The formats of RFC 4034 in plain arithmetic on bytes: DNSSEC records, what exactly a signature or a digest
    covers, and in which order (sections 2.1, 3.1, 5.1, 6.2 and 6.3). */
module SignedLayout {
  import opened Wrappers
  import opened Text
  import opened NameWalk
  import opened Compression
  import opened Message
  import opened Canonical
  import opened SignatureScope
  import opened ZoneKeys
  import opened WireLayout

  /* ----- Canonical order (section 6.3) ----- */

  /** The first is a prefix of the second, or has the smaller byte where they first differ. */
  ghost predicate Precedes(a: Str, b: Str) {
    exists k: nat :: SplitsAt(a, b, k)
  }

  predicate SplitsAt(a: Str, b: Str, k: nat) {
    && k <= |a| && k <= |b| && a[..k] == b[..k]
    && (k == |a| || (k < |b| && a[k] < b[k]))
  }

  lemma {:induction false} OrderIsBytewise(a: Str, b: Str)
    requires LexLe(a, b)
    ensures Precedes(a, b)
  {
    if a == [] || a[0] < b[0] {
      assert SplitsAt(a, b, 0);
    } else {
      OrderIsBytewise(a[1..], b[1..]);
      var k: nat :| SplitsAt(a[1..], b[1..], k);
      SplitsLater(a, b, k);
    }
  }

  lemma SplitsLater(a: Str, b: Str, k: nat)
    requires a != [] && b != [] && a[0] == b[0] && SplitsAt(a[1..], b[1..], k)
    ensures SplitsAt(a, b, k + 1)
  {
    assert a[..k + 1] == [a[0]] + a[1..][..k] && b[..k + 1] == [b[0]] + b[1..][..k];
  }

  /* ----- One record of the signed data (section 3.1.8.1) ----- */

  /** Owner, type, class IN, original TTL, length, rdata. */
  predicate RecordBytes(bytes: Str, owner: Str, rtype: u16, ttl: u32, rdata: Str) {
    var n := |owner|;
    && |bytes| == n + 10 + |rdata| && bytes[..n] == owner && bytes[n + 10..] == rdata
    && Two(bytes, n) == rtype && bytes[n + 2] == 0 && bytes[n + 3] == 1
    && Four(bytes, n + 4) == ttl && Two(bytes, n + 8) == |rdata| % 65536
  }

  lemma RecordIsLaidOut(owner: Str, rtype: u16, ttl: u32, rdata: Str)
    ensures RecordBytes(FullRecord(owner, rtype, ttl, rdata), owner, rtype, ttl, rdata)
  {
    var rr := RR([], rtype, CLASS_IN, ttl, [], 0);
    var fixed := FixedBytes(rr, |rdata|);
    FixedParts(rr, |rdata|);
    assert fixed[2] == 0 && fixed[3] == 1;
    hide FixedBytes;
    var full := owner + fixed + rdata;
    assert forall i :: 0 <= i < 10 ==> full[|owner| + i] == fixed[i];
    assert full[|owner| + 10..] == rdata && full[..|owner|] == owner;
  }

  /** The RRSIG rdata up to the signature: eighteen bytes of fixed fields, and the signer. */
  predicate RrsigBytes(bytes: Str, sig: Rrsig) {
    && |bytes| == 18 + |WireName(sig.signerName)|
    && Two(bytes, 0) == sig.typeCovered && bytes[2] == sig.algorithm && bytes[3] == sig.labels
    && Four(bytes, 4) == sig.origTTL && Four(bytes, 8) == sig.expiration && Four(bytes, 12) == sig.inception
    && Two(bytes, 16) == sig.keyTag && bytes[18..] == WireName(sig.signerName)
  }

  lemma HeaderIsLaidOut(sig: Rrsig)
    ensures RrsigBytes(SigHeader(sig), sig)
  {
    var f := HeaderFields(sig);
    FieldsLaidOut(sig);
    hide WireName, HeaderFields;
    var full := f + WireName(sig.signerName);
    assert forall i :: 0 <= i < 18 ==> full[i] == f[i];
    assert full[18..] == WireName(sig.signerName);
  }

  lemma FieldsLaidOut(sig: Rrsig)
    ensures var f := HeaderFields(sig);
            && Two(f, 0) == sig.typeCovered && f[2] == sig.algorithm && f[3] == sig.labels
            && Four(f, 4) == sig.origTTL && Four(f, 8) == sig.expiration && Four(f, 12) == sig.inception
            && Two(f, 16) == sig.keyTag
  {
    LongBytes(sig.origTTL);
    LongBytes(sig.expiration);
    LongBytes(sig.inception);
    WordBytes(sig.typeCovered);
    WordBytes(sig.keyTag);
    var a, b, c := U32Bytes(sig.origTTL), U32Bytes(sig.expiration), U32Bytes(sig.inception);
    var t, k := U16Bytes(sig.typeCovered), U16Bytes(sig.keyTag);
    var f := HeaderFields(sig);
    assert f == t + [sig.algorithm, sig.labels] + a + b + c + k;
    hide U32Bytes, U16Bytes, HeaderFields;
  }

  /* ----- The whole of the signed data ----- */

  function Flat(parts: seq<Str>): Str {
    if parts == [] then [] else Flat(parts[..|parts| - 1]) + parts[|parts| - 1]
  }

  ghost predicate Ascending(rdatas: seq<Str>) {
    forall i, j :: 0 <= i < j < |rdatas| ==> Precedes(rdatas[i], rdatas[j])
  }

  predicate AllLaidOut(parts: seq<Str>, owner: Str, rtype: u16, ttl: u32, rdatas: seq<Str>) {
    |parts| == |rdatas| && forall i :: 0 <= i < |parts| ==> RecordBytes(parts[i], owner, rtype, ttl, rdatas[i])
  }

  /** What a signature over a record set covers is the RRSIG's fields and signer, and then one record for each
      canonical rdata, in ascending order. */
  lemma SignedDataLayout(sig: Rrsig, rrset: seq<RR>, raw: Str)
    returns (head: Str, parts: seq<Str>, rdatas: seq<Str>)
    requires OneSet(rrset) && SignedData(sig, rrset, raw).Some?
    ensures SignedData(sig, rrset, raw) == Some(head + Flat(parts))
    ensures RrsigBytes(head, sig) && Ascending(rdatas)
    ensures AllLaidOut(parts, WireName(SignedOwner(rrset[0].name, sig.labels)), rrset[0].rtype, sig.origTTL, rdatas)
    ensures multiset(Wrapped(rdatas)) == multiset(Canons(rrset, raw))
  {
    hide CanonRdata, WireName, SignedOwner, RrsigBytes, AllLaidOut, SigHeader, Sorted, FullRecord, Precedes;
    var owner := WireName(SignedOwner(rrset[0].name, sig.labels));
    var items := Items(owner, sig.origTTL, rrset, raw).value;
    var sorted := Sorted(items);
    ItemsAreMapped(owner, sig.origTTL, rrset, raw, rrset[0].rtype);
    head, parts, rdatas := SigHeader(sig), Fulls(sorted), Rdatas(sorted);
    HeaderIsLaidOut(sig);
    FlatFulls(sorted);
    SortedPieces(items, owner, rrset[0].rtype, sig.origTTL, Canons(rrset, raw));
  }

  ghost function Wrapped(rdatas: seq<Str>): seq<Option<Str>> {
    Mapped(Wrap, rdatas)
  }

  const Wrap: Str -> Option<Str> := (r: Str) => Some(r)

  function Fulls(items: seq<Item>): seq<Str> {
    seq(|items|, i requires 0 <= i < |items| => items[i].full)
  }

  function Rdatas(items: seq<Item>): seq<Str> {
    seq(|items|, i requires 0 <= i < |items| => items[i].rdata)
  }

  lemma {:induction false} FlatFulls(items: seq<Item>)
    ensures Flat(Fulls(items)) == Concat(items)
  {
    if items != [] {
      var front := items[..|items| - 1];
      FlatFulls(front);
      assert Fulls(items)[..|items| - 1] == Fulls(front);
    }
  }

  lemma SortedPieces(items: seq<Item>, owner: Str, rtype: u16, ttl: u32, canons: seq<Option<Str>>)
    requires None !in canons && items == Mapped(ItemFor(owner, rtype, ttl), canons)
    ensures var sorted := Sorted(items);
            && Ascending(Rdatas(sorted)) && AllLaidOut(Fulls(sorted), owner, rtype, ttl, Rdatas(sorted))
            && multiset(Wrapped(Rdatas(sorted))) == multiset(canons)
  {
    var sorted := Sorted(items);
    SortedKeepsItems(items);
    MappedUniform(owner, rtype, ttl, canons);
    SortedUniform(items, owner, rtype, ttl);
    CanonsOfItems(items, owner, rtype, ttl, canons);
    hide Sorted, ItemFor, Mapped, FullRecord, LexLe, Precedes, RecordBytes;
    forall i, j | 0 <= i < j < |sorted| ensures Precedes(Rdatas(sorted)[i], Rdatas(sorted)[j]) {
      OrderIsBytewise(sorted[i].rdata, sorted[j].rdata);
    }
    forall i | 0 <= i < |sorted| ensures RecordBytes(Fulls(sorted)[i], owner, rtype, ttl, Rdatas(sorted)[i]) {
      RecordIsLaidOut(owner, rtype, ttl, sorted[i].rdata);
    }
    MappedPermutes(RdataOf, sorted, items);
    WrappedRdatas(sorted);
  }

  lemma CanonsOfItems(items: seq<Item>, owner: Str, rtype: u16, ttl: u32, canons: seq<Option<Str>>)
    requires None !in canons && items == Mapped(ItemFor(owner, rtype, ttl), canons)
    ensures Mapped(RdataOf, items) == canons
  {
    hide FullRecord;
  }

  lemma WrappedRdatas(items: seq<Item>)
    ensures Wrapped(Rdatas(items)) == Mapped(RdataOf, items)
  {
  }

  /* ----- Canonical rdata (section 6.2) ----- */

  /** Numbers are kept as they are, names are written in wire form: one for NS, CNAME and PTR, one behind the
      preference of an MX or the three numbers of an SRV, two before the numbers of an SOA. */
  lemma CanonicalForm(rr: RR, raw: Str, name: Str, end: nat, second: Str, end': nat)
    ensures rr.rtype in {2, 5, 12} && Parsed(raw, rr.offset) == Ok((name, end)) ==>
              CanonRdata(rr, raw) == Some(WireName(name))
    ensures rr.rtype == 15 && |rr.data| >= 2 && Parsed(raw, rr.offset + 2) == Ok((name, end)) ==>
              CanonRdata(rr, raw) == Some([rr.data[0], rr.data[1]] + WireName(name))
    ensures rr.rtype == 33 && |rr.data| >= 6 && Parsed(raw, rr.offset + 6) == Ok((name, end)) ==>
              CanonRdata(rr, raw) == Some(rr.data[..6] + WireName(name))
    ensures rr.rtype == 6 && Parsed(raw, rr.offset) == Ok((name, end)) && Parsed(raw, end) == Ok((second, end'))
              && 0 <= end' - rr.offset <= |rr.data| ==>
              CanonRdata(rr, raw) == Some(WireName(name) + WireName(second) + rr.data[end' - rr.offset..])
    ensures rr.rtype !in {2, 5, 6, 12, 15, 33} ==> CanonRdata(rr, raw) == Some(rr.data)
  {
    hide Parsed, WireName;
    assert |rr.data| >= 2 ==> rr.data[..2] == [rr.data[0], rr.data[1]];
  }

  /** Names in wire form hold no capital letters. */
  lemma WireNameIsLower(name: Str, i: nat)
    requires Short(name) && i < |WireName(name)|
    ensures !('A' as int <= WireName(name)[i] <= 'Z' as int)
  {
    ShortIsPlain(name);
    WireNameIs(name);
    var ls := LowerAll(Labels(name));
    LowerTwice(Labels(name));
    hide Labels, Short, LowerAll;
    LabelsAreLower(ls, i);
  }

  lemma {:induction false} LabelsAreLower(ls: seq<Str>, i: nat)
    requires Plain(ls) && LowerAll(ls) == ls && i < |WireLabels(ls)|
    ensures !('A' as int <= WireLabels(ls)[i] <= 'Z' as int)
  {
    if ls != [] && i > |ls[0]| {
      assert forall j :: 0 <= j < |ls[1..]| ==> LowerAll(ls[1..])[j] == LowerAll(ls)[j + 1];
      LabelsAreLower(ls[1..], i - 1 - |ls[0]|);
    } else if ls != [] && i > 0 {
      assert Lower(ls[0]) == LowerAll(ls)[0] == ls[0];
      assert WireLabels(ls)[i] == ls[0][i - 1] == LowerByte(ls[0][i - 1]);
    }
  }

  /* ----- DNSSEC records ----- */

  /** Section 3.1. */
  lemma RrsigLayout(rr: RR)
    ensures ParseRrsig(rr).Some? <==> rr.rtype == 46 && |rr.data| >= 18 && ReadName(rr.data[18..]).Some?
    ensures ParseRrsig(rr).Some? ==>
              var sig, d := ParseRrsig(rr).value, rr.data;
              && sig.typeCovered == Two(d, 0) && sig.algorithm == d[2] && sig.labels == d[3]
              && sig.origTTL == Four(d, 4) && sig.expiration == Four(d, 8) && sig.inception == Four(d, 12)
              && sig.keyTag == Two(d, 16) && sig.signerName == ReadName(d[18..]).value.0
              && sig.signature == d[18 + ReadName(d[18..]).value.1..]
  {
    hide ReadName;
  }

  /** Sections 2.1 and 5.1. */
  lemma KeyLayout(rr: RR)
    ensures ParseDnsKey(rr).Some? <==> rr.rtype == 48 && |rr.data| >= 4
    ensures ParseDs(rr).Some? <==> rr.rtype == 43 && |rr.data| >= 4
    ensures ParseDnsKey(rr).Some? ==>
              ParseDnsKey(rr) == Some(DnsKey(Two(rr.data, 0), rr.data[2], rr.data[3], rr.data[4..]))
    ensures ParseDs(rr).Some? ==> ParseDs(rr) == Some(Ds(Two(rr.data, 0), rr.data[2], rr.data[3], rr.data[4..]))
  {
  }

  /** A DS record matches a key with its tag and algorithm, if its digest is that of the zone's name followed by
      the key's rdata (section 5.1.4). */
  lemma DsMatchesExactly(c: Crypto, zone: Str, rr: RR, ds: Ds)
    requires ParseDnsKey(rr).Some?
    ensures var key := ParseDnsKey(rr).value;
            DsMatches(c, zone, key, ds)
            <==> c.tag(key) == ds.keyTag && rr.data[3] == ds.algorithm
                 && c.digest(ds.digestType, WireName(zone) + rr.data) == Some(ds.digest)
  {
    hide WireName;
    var key := ParseDnsKey(rr).value;
    assert DnsKeyRdata(key) == rr.data;
  }

  /** Exactly what makes a signature record count: its type, the type it covers, its period, a key of its tag
      and algorithm, and that key's signature over the signed data. */
  lemma SignedByExactly(c: Crypto, keys: Keys, rrset: seq<RR>, rr: RR, covered: u16, raw: Str, now: Time)
    ensures SignedBy(c, keys, rrset, rr, covered, raw, now)
            <==> && rr.rtype == 46 && |rr.data| >= 18 && ReadName(rr.data[18..]).Some?
                 && Two(rr.data, 0) == covered
                 && Four(rr.data, 12) <= now % 4294967296 <= Four(rr.data, 8)
                 && Two(rr.data, 16) in keys && keys[Two(rr.data, 16)].algorithm == rr.data[2]
                 && SignedData(ParseRrsig(rr).value, rrset, raw).Some?
                 && c.signs(keys[Two(rr.data, 16)], SignedData(ParseRrsig(rr).value, rrset, raw).value,
                            rr.data[18 + ReadName(rr.data[18..]).value.1..])
  {
    RrsigLayout(rr);
    hide ReadName, SignedData, ParseRrsig;
  }
}
