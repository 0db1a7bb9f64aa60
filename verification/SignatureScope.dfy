/** What a DNSSEC signature depends on: not on the order of the records nor on how a packet lays them
    out, and on everything else; and the owner name that it is made for. */
module SignatureScope {
  import opened Wrappers
  import opened Text
  import opened NameWalk
  import opened Compression
  import opened Message
  import opened RoundTrip
  import opened Canonical
  import Records

  /* ----- Order and layout do not matter ----- */

  function ItemOf(owner: Str, rtype: u16, ttl: u32, rdata: Str): Item {
    Item(rdata, FullRecord(owner, rtype, ttl, rdata))
  }

  /** Items of one set differ only in their rdata. */
  ghost predicate Uniform(items: seq<Item>, owner: Str, rtype: u16, ttl: u32) {
    forall i :: 0 <= i < |items| ==> items[i] == ItemOf(owner, rtype, ttl, items[i].rdata)
  }

  lemma LeastFirst(s: seq<Item>, t: seq<Item>, owner: Str, rtype: u16, ttl: u32)
    requires s != [] && t != [] && Ordered(s) && Ordered(t) && multiset(s) == multiset(t)
    requires Uniform(s, owner, rtype, ttl) && Uniform(t, owner, rtype, ttl)
    ensures s[0] == t[0]
  {
    hide LexLe, ItemOf, Insert;
    var k := Find(s, t, 0);
    var j := Find(t, s, 0);
    LexOrder(s[0].rdata, t[0].rdata, []);
    LexOrder(s[0].rdata, s[0].rdata, []);
    assert LexLe(s[0].rdata, t[0].rdata) && LexLe(t[0].rdata, s[0].rdata);
  }

  /** However equal elements are ordered, there is only one way to sort the items of a set. */
  lemma {:induction false} OneSorting(s: seq<Item>, t: seq<Item>, owner: Str, rtype: u16, ttl: u32)
    requires Ordered(s) && Ordered(t) && multiset(s) == multiset(t)
    requires Uniform(s, owner, rtype, ttl) && Uniform(t, owner, rtype, ttl)
    ensures s == t
  {
    SameSize(s, t);
    if s != [] {
      LeastFirst(s, t, owner, rtype, ttl);
      WithoutFirst(s);
      WithoutFirst(t);
      TailOrdered(s, owner, rtype, ttl);
      TailOrdered(t, owner, rtype, ttl);
      hide *;
      OneSorting(s[1..], t[1..], owner, rtype, ttl);
    }
  }

  lemma TailOrdered(s: seq<Item>, owner: Str, rtype: u16, ttl: u32)
    requires s != [] && Ordered(s) && Uniform(s, owner, rtype, ttl)
    ensures Ordered(s[1..]) && Uniform(s[1..], owner, rtype, ttl)
  {
    hide ItemOf, LexLe;
  }

  lemma WithoutFirst<T>(s: seq<T>)
    requires s != []
    ensures s == [s[0]] + s[1..] && multiset(s[1..]) == multiset(s) - multiset{s[0]}
  {
    assert s == [s[0]] + s[1..];
  }

  lemma SameSize<T>(s: seq<T>, t: seq<T>)
    requires multiset(s) == multiset(t)
    ensures |s| == |t|
  {
    assert |s| == |multiset(s)| == |multiset(t)| == |t|;
  }

  lemma RemoveAt<T>(s: seq<T>, j: nat)
    requires j < |s|
    ensures multiset(s[..j] + s[j + 1..]) == multiset(s) - multiset{s[j]}
  {
    assert s == s[..j] + [s[j]] + s[j + 1..];
  }

  /** Where an element of t occurs in a permutation of it. */
  lemma Find<T>(s: seq<T>, t: seq<T>, i: nat) returns (k: nat)
    requires multiset(s) == multiset(t) && i < |t|
    ensures k < |s| && s[k] == t[i]
  {
    assert t[i] in multiset(t);
    assert t[i] in multiset(s);
    k :| 0 <= k < |s| && s[k] == t[i];
  }

  ghost function Mapped<A, B>(f: A -> B, s: seq<A>): (r: seq<B>)
    ensures |r| == |s| && forall i :: 0 <= i < |s| ==> r[i] == f(s[i])
  {
    seq(|s|, i requires 0 <= i < |s| => f(s[i]))
  }

  lemma MappedRemoved<A, B>(f: A -> B, s: seq<A>, j: nat)
    requires j < |s|
    ensures Mapped(f, s[..j] + s[j + 1..]) == Mapped(f, s)[..j] + Mapped(f, s)[j + 1..]
    ensures Mapped(f, s)[j] == f(s[j])
  {
  }

  lemma MappedTail<A, B>(f: A -> B, s: seq<A>)
    requires s != []
    ensures Mapped(f, s) != [] && Mapped(f, s)[0] == f(s[0]) && Mapped(f, s)[1..] == Mapped(f, s[1..])
  {
  }

  lemma {:induction false} MappedPermutes<A, B>(f: A -> B, a: seq<A>, b: seq<A>)
    requires multiset(a) == multiset(b)
    ensures multiset(Mapped(f, a)) == multiset(Mapped(f, b))
  {
    hide *;
    SameSize(a, b);
    if a == [] {
      assert b == [];
    } else {
      var j := Find(b, a, 0);
      RemoveAt(b, j);
      WithoutFirst(a);
      MappedPermutes(f, a[1..], b[..j] + b[j + 1..]);
      MappedRemoved(f, b, j);
      MappedTail(f, a);
      SameBag(Mapped(f, a), Mapped(f, b), j);
    }
  }

  lemma SameBag<T>(s: seq<T>, t: seq<T>, j: nat)
    requires s != [] && j < |t| && s[0] == t[j] && multiset(s[1..]) == multiset(t[..j] + t[j + 1..])
    ensures multiset(s) == multiset(t)
  {
    assert s == [s[0]] + s[1..];
    assert t == t[..j] + [t[j]] + t[j + 1..];
  }

  ghost function Canons(rrset: seq<RR>, raw: Str): seq<Option<Str>> {
    Mapped((rr: RR) => CanonRdata(rr, raw), rrset)
  }

  ghost function ItemFor(owner: Str, rtype: u16, ttl: u32): Option<Str> -> Item {
    (c: Option<Str>) => ItemOf(owner, rtype, ttl, if c.Some? then c.value else [])
  }

  lemma {:induction false} ItemsAreMapped(owner: Str, ttl: u32, rrset: seq<RR>, raw: Str, rtype: u16)
    requires forall i :: 0 <= i < |rrset| ==> rrset[i].rtype == rtype
    ensures Items(owner, ttl, rrset, raw) ==
            if None in Canons(rrset, raw) then None
            else Some(Mapped(ItemFor(owner, rtype, ttl), Canons(rrset, raw)))
  {
    hide CanonRdata, FullRecord;
    if rrset != [] {
      var front, last := rrset[..|rrset| - 1], rrset[|rrset| - 1];
      ItemsAreMapped(owner, ttl, front, raw, rtype);
      var f, c, cs := ItemFor(owner, rtype, ttl), CanonRdata(last, raw), Canons(front, raw);
      assert Canons(rrset, raw) == cs + [c];
      assert Mapped(f, cs + [c]) == Mapped(f, cs) + [f(c)];
    }
  }

  /** Records of one set: one type, one owner up to case. */
  predicate OneSet(rrset: seq<RR>) {
    && rrset != []
    && forall i :: 0 <= i < |rrset| ==> rrset[i].rtype == rrset[0].rtype && SameName(rrset[i].name, rrset[0].name)
  }

  /** The signed data is a function of the owner, the type, and which canonical rdata occur how often. */
  lemma SignedDataDependsOnContents(sig: Rrsig, a: seq<RR>, rawA: Str, b: seq<RR>, rawB: Str)
    requires OneSet(a) && OneSet(b) && a[0].rtype == b[0].rtype && SameName(a[0].name, b[0].name)
    requires multiset(Canons(a, rawA)) == multiset(Canons(b, rawB))
    ensures SignedData(sig, a, rawA) == SignedData(sig, b, rawB)
  {
    hide CanonRdata, FullRecord, WireName, SignedOwner, Items, Sorted, Concat, Canons, Mapped, ItemFor, SigHeader,
      SameName;
    var owner, rtype, ttl := WireName(SignedOwner(a[0].name, sig.labels)), a[0].rtype, sig.origTTL;
    SameNameSameOwner(a[0].name, b[0].name, sig.labels);
    SameItems(owner, rtype, ttl, a, rawA, b, rawB);
  }

  lemma SameItems(owner: Str, rtype: u16, ttl: u32, a: seq<RR>, rawA: Str, b: seq<RR>, rawB: Str)
    requires forall i :: 0 <= i < |a| ==> a[i].rtype == rtype
    requires forall i :: 0 <= i < |b| ==> b[i].rtype == rtype
    requires multiset(Canons(a, rawA)) == multiset(Canons(b, rawB))
    ensures var ia, ib := Items(owner, ttl, a, rawA), Items(owner, ttl, b, rawB);
            ia.Some? == ib.Some? && (ia.Some? ==> Sorted(ia.value) == Sorted(ib.value))
  {
    hide *;
    var ca, cb := Canons(a, rawA), Canons(b, rawB);
    ItemsAreMapped(owner, ttl, a, rawA, rtype);
    ItemsAreMapped(owner, ttl, b, rawB, rtype);
    SameMembers(ca, cb);
    SameSorted(owner, rtype, ttl, ca, cb);
  }

  lemma SameNameSameOwner(x: Str, y: Str, labels: byte)
    requires SameName(x, y)
    ensures SignedOwner(x, labels) == SignedOwner(y, labels)
  {
    hide LabelCount, SplitN, Lower;
  }

  lemma SameMembers<T>(s: seq<T>, t: seq<T>)
    requires multiset(s) == multiset(t)
    ensures forall x :: x in s <==> x in t
  {
    assert forall x :: x in s <==> x in multiset(s);
    assert forall x :: x in t <==> x in multiset(t);
  }

  lemma SameSorted(owner: Str, rtype: u16, ttl: u32, ca: seq<Option<Str>>, cb: seq<Option<Str>>)
    requires multiset(ca) == multiset(cb)
    ensures Sorted(Mapped(ItemFor(owner, rtype, ttl), ca)) == Sorted(Mapped(ItemFor(owner, rtype, ttl), cb))
  {
    var f := ItemFor(owner, rtype, ttl);
    MappedUniform(owner, rtype, ttl, ca);
    MappedUniform(owner, rtype, ttl, cb);
    SortedKeepsItems(Mapped(f, ca));
    SortedKeepsItems(Mapped(f, cb));
    hide *;
    MappedPermutes(f, ca, cb);
    SortedUniform(Mapped(f, ca), owner, rtype, ttl);
    SortedUniform(Mapped(f, cb), owner, rtype, ttl);
    OneSorting(Sorted(Mapped(f, ca)), Sorted(Mapped(f, cb)), owner, rtype, ttl);
  }

  lemma MappedUniform(owner: Str, rtype: u16, ttl: u32, cs: seq<Option<Str>>)
    ensures Uniform(Mapped(ItemFor(owner, rtype, ttl), cs), owner, rtype, ttl)
  {
    hide FullRecord;
  }

  lemma SortedUniform(items: seq<Item>, owner: Str, rtype: u16, ttl: u32)
    requires Uniform(items, owner, rtype, ttl)
    ensures Uniform(Sorted(items), owner, rtype, ttl)
  {
    hide ItemOf;
    var r := Sorted(items);
    forall i | 0 <= i < |r| ensures r[i] == ItemOf(owner, rtype, ttl, r[i].rdata) {
      var k := Find(items, r, i);
    }
  }

  /** Any other way of sorting, in particular an unstable one, gives the same bytes. */
  lemma {:induction false} SortingDoesNotMatter(sig: Rrsig, rrset: seq<RR>, raw: Str, items: seq<Item>,
                                                sorted: seq<Item>)
    requires OneSet(rrset)
    requires Items(WireName(SignedOwner(rrset[0].name, sig.labels)), sig.origTTL, rrset, raw) == Some(items)
    requires Ordered(sorted) && multiset(sorted) == multiset(items)
    ensures SignedData(sig, rrset, raw) == Some(SigHeader(sig) + Concat(sorted))
  {
    hide CanonRdata, FullRecord, WireName, SignedOwner;
    var owner := WireName(SignedOwner(rrset[0].name, sig.labels));
    ItemsAreMapped(owner, sig.origTTL, rrset, raw, rrset[0].rtype);
    SortedUniform(items, owner, rrset[0].rtype, sig.origTTL);
    forall i | 0 <= i < |sorted| ensures sorted[i] == ItemOf(owner, rrset[0].rtype, sig.origTTL, sorted[i].rdata) {
      var k := Find(items, sorted, i);
    }
    OneSorting(sorted, Sorted(items), owner, rrset[0].rtype, sig.origTTL);
  }

  /** The order in which the records arrived does not matter. */
  lemma {:induction false} OrderDoesNotMatter(sig: Rrsig, a: seq<RR>, b: seq<RR>, raw: Str)
    requires OneSet(a) && multiset(a) == multiset(b)
    ensures SignedData(sig, a, raw) == SignedData(sig, b, raw)
  {
    SameSize(a, b);
    forall i | 0 <= i < |b| ensures b[i].rtype == a[0].rtype && SameName(b[i].name, a[0].name) {
      var k := Find(a, b, i);
    }
    MappedPermutes((rr: RR) => CanonRdata(rr, raw), a, b);
    SignedDataDependsOnContents(sig, a, raw, b, raw);
  }

  /* ----- What canonical rdata depends on ----- */

  /** Two names with the same labels up to case. */
  predicate SameLabels(x: Str, y: Str) {
    LowerAll(Labels(x)) == LowerAll(Labels(y))
  }

  ghost predicate NamesAgree(rawA: Str, atA: nat, rawB: Str, atB: nat) {
    && Parsed(rawA, atA).Ok? && Parsed(rawB, atB).Ok?
    && SameLabels(Parsed(rawA, atA).value.0, Parsed(rawB, atB).value.0)
  }

  /** Two records in two packets whose rdata says the same, however its names are compressed. */
  ghost predicate SameContent(a: RR, rawA: Str, b: RR, rawB: Str) {
    && a.rtype == b.rtype
    && if a.rtype == TYPE_NS || a.rtype == TYPE_CNAME || a.rtype == TYPE_PTR then
         NamesAgree(rawA, a.offset, rawB, b.offset)
       else if a.rtype == TYPE_MX then
         && |a.data| >= 2 && |b.data| >= 2 && a.data[..2] == b.data[..2]
         && NamesAgree(rawA, a.offset + 2, rawB, b.offset + 2)
       else if a.rtype == TYPE_SRV then
         && |a.data| >= 6 && |b.data| >= 6 && a.data[..6] == b.data[..6]
         && NamesAgree(rawA, a.offset + 6, rawB, b.offset + 6)
       else if a.rtype == TYPE_SOA then
         && NamesAgree(rawA, a.offset, rawB, b.offset)
         && NamesAgree(rawA, Parsed(rawA, a.offset).value.1, rawB, Parsed(rawB, b.offset).value.1)
         && SoaNumbers(a, rawA).Some? && SoaNumbers(a, rawA) == SoaNumbers(b, rawB)
       else a.data == b.data
  }

  /** What follows the two names of an SOA. */
  ghost function SoaNumbers(rr: RR, raw: Str): Option<Str>
    requires Parsed(raw, rr.offset).Ok? && Parsed(raw, Parsed(raw, rr.offset).value.1).Ok?
  {
    var end := Parsed(raw, Parsed(raw, rr.offset).value.1).value.1;
    if end < rr.offset || end - rr.offset > |rr.data| then None else Some(rr.data[end - rr.offset..])
  }

  /** Compression inside the packet does not matter: pairwise equal contents give equal bytes. */
  lemma LayoutDoesNotMatter(sig: Rrsig, a: seq<RR>, rawA: Str, b: seq<RR>, rawB: Str)
    requires OneSet(a) && OneSet(b) && |a| == |b| && SameName(a[0].name, b[0].name)
    requires forall i :: 0 <= i < |a| ==> SameContent(a[i], rawA, b[i], rawB)
    ensures SignedData(sig, a, rawA) == SignedData(sig, b, rawB)
  {
    hide SignedData;
    forall i | 0 <= i < |a| ensures CanonRdata(a[i], rawA) == CanonRdata(b[i], rawB) {
      hide Parsed, Labels;
      assert SameContent(a[i], rawA, b[i], rawB);
    }
    hide CanonRdata, SameContent;
    assert Canons(a, rawA) == Canons(b, rawB);
    assert a[0].rtype == b[0].rtype by { assert SameContent(a[0], rawA, b[0], rawB); SameType(a[0], rawA, b[0], rawB); }
    SignedDataDependsOnContents(sig, a, rawA, b, rawB);
  }

  lemma SameType(a: RR, rawA: Str, b: RR, rawB: Str)
    requires SameContent(a, rawA, b, rawB)
    ensures a.rtype == b.rtype
  {
    hide Parsed;
  }

  /* ----- Nothing is left unsigned ----- */

  lemma LowerTwice(ls: seq<Str>)
    ensures LowerAll(LowerAll(ls)) == LowerAll(ls)
  {
    forall i | 0 <= i < |ls| ensures Lower(Lower(ls[i])) == Lower(ls[i]) {
    }
  }

  /** A wire name delimits itself. */
  lemma WireReads(x: Str, rest: Str)
    requires Short(x)
    ensures ReadLabels(WireName(x) + rest, 0) == Some((LowerAll(Labels(x)), |WireName(x)|))
  {
    hide *;
    var lx := LowerAll(Labels(x));
    ShortIsPlain(x);
    LowerTwice(Labels(x));
    WireNameIs(x);
    NothingInFront(WireLabels(lx), rest);
    WireReadsIff([], lx, rest);
  }

  lemma WireNameIs(x: Str)
    ensures WireName(x) == WireLabels(LowerAll(Labels(x)))
  {
  }

  lemma NothingInFront(a: Str, b: Str)
    ensures [] + a + b == a + b
  {
  }

  lemma ShortIsPlain(x: Str)
    requires Short(x)
    ensures Plain(LowerAll(Labels(x))) && forall i :: 0 <= i < |LowerAll(Labels(x))| ==> LowerAll(Labels(x))[i] != []
  {
    hide Split;
  }

  lemma WirePrefix(x: Str, restX: Str, y: Str, restY: Str)
    requires Short(x) && Short(y) && WireName(x) + restX == WireName(y) + restY
    ensures SameLabels(x, y) && WireName(x) == WireName(y) && restX == restY
  {
    hide Short, WireName, Labels, LowerAll, ReadLabels;
    WireReads(x, restX);
    WireReads(y, restY);
    SamePrefix(WireName(x), restX, WireName(y), restY);
  }

  lemma SamePrefix(a: Str, restA: Str, b: Str, restB: Str)
    requires a + restA == b + restB && |a| == |b|
    ensures a == b && restA == restB
  {
    assert (a + restA)[..|a|] == a && (b + restB)[..|a|] == b;
    assert (a + restA)[|a|..] == restA && (b + restB)[|a|..] == restB;
  }

  lemma FixedPrefix(r: RR, n: nat, restR: Str, q: RR, m: nat, restQ: Str)
    requires FixedBytes(r, n) + restR == FixedBytes(q, m) + restQ && n < 0x1_0000 && m < 0x1_0000
    ensures r.rtype == q.rtype && r.rclass == q.rclass && r.ttl == q.ttl && n == m && restR == restQ
  {
    SamePrefix(FixedBytes(r, n), restR, FixedBytes(q, m), restQ);
    var f := FixedBytes(r, n);
    assert f == FixedBytes(q, m);
    assert U16At(f, 0) == r.rtype && U16At(f, 0) == q.rtype;
    assert U16At(f, 2) == r.rclass && U16At(f, 2) == q.rclass;
    assert U16At(f, 4) == r.ttl / 0x1_0000 && U16At(f, 4) == q.ttl / 0x1_0000;
    assert U16At(f, 6) == r.ttl % 0x1_0000 && U16At(f, 6) == q.ttl % 0x1_0000;
    assert U16At(f, 8) == n && U16At(f, 8) == m;
  }

  lemma FullRecordParts(owner: Str, t: u16, ttl: u32, d: Str, rest: Str)
    ensures FullRecord(owner, t, ttl, d) + rest
            == owner + (FixedBytes(RR([], t, CLASS_IN, ttl, [], 0), |d|) + (d + rest))
  {
    hide FixedBytes;
  }

  lemma RecordPrefix(x: Str, t: u16, ttl: u32, d: Str, rest: Str, x': Str, t': u16, ttl': u32, d': Str, rest': Str)
    requires Short(x) && Short(x') && |d| < 0x1_0000 && |d'| < 0x1_0000
    requires FullRecord(WireName(x), t, ttl, d) + rest == FullRecord(WireName(x'), t', ttl', d') + rest'
    ensures SameLabels(x, x') && t == t' && ttl == ttl' && d == d' && rest == rest'
  {
    hide *;
    var r, r' := RR([], t, CLASS_IN, ttl, [], 0), RR([], t', CLASS_IN, ttl', [], 0);
    FullRecordParts(WireName(x), t, ttl, d, rest);
    FullRecordParts(WireName(x'), t', ttl', d', rest');
    WirePrefix(x, FixedBytes(r, |d|) + (d + rest), x', FixedBytes(r', |d'|) + (d' + rest'));
    FixedPrefix(r, |d|, d + rest, r', |d'|, d' + rest');
    SamePrefix(d, rest, d', rest');
  }

  lemma {:induction false} ConcatFirst(items: seq<Item>)
    requires items != []
    ensures Concat(items) == items[0].full + Concat(items[1..])
  {
    if |items| > 1 {
      var front := items[..|items| - 1];
      ConcatFirst(front);
      assert items[1..][..|items| - 2] == front[1..];
    }
  }

  ghost predicate Fitting(items: seq<Item>) {
    forall i :: 0 <= i < |items| ==> |items[i].rdata| < 0x1_0000
  }

  /** The records of a set can be read back from their concatenation. */
  lemma {:induction false} RecordsReadBack(a: seq<Item>, b: seq<Item>, x: Str, t: u16, ttl: u32, x': Str, t': u16,
                                           ttl': u32)
    requires Short(x) && Short(x') && Fitting(a) && Fitting(b) && Concat(a) == Concat(b)
    requires Uniform(a, WireName(x), t, ttl) && Uniform(b, WireName(x'), t', ttl')
    ensures |a| == |b| && forall i :: 0 <= i < |a| ==> a[i].rdata == b[i].rdata
    ensures a != [] ==> SameLabels(x, x') && t == t' && ttl == ttl'
  {
    if a != [] {
      ConcatFirst(a);
      FirstRecord(a, WireName(x), t, ttl);
    }
    if b != [] {
      ConcatFirst(b);
      FirstRecord(b, WireName(x'), t', ttl');
    }
    NoRecordsNoBytes(a, WireName(x), t, ttl);
    NoRecordsNoBytes(b, WireName(x'), t', ttl');
    hide *;
    if a != [] && b != [] {
      RecordPrefix(x, t, ttl, a[0].rdata, Concat(a[1..]), x', t', ttl', b[0].rdata, Concat(b[1..]));
      RecordsReadBack(a[1..], b[1..], x, t, ttl, x', t', ttl');
      assert forall i :: 1 <= i < |a| ==> a[i] == a[1..][i - 1] && b[i] == b[1..][i - 1];
    }
  }

  lemma FirstRecord(items: seq<Item>, owner: Str, t: u16, ttl: u32)
    requires items != [] && Uniform(items, owner, t, ttl) && Fitting(items)
    ensures items[0].full == FullRecord(owner, t, ttl, items[0].rdata) && |items[0].rdata| < 0x1_0000
    ensures Uniform(items[1..], owner, t, ttl) && Fitting(items[1..])
  {
    hide FullRecord;
  }

  lemma NoRecordsNoBytes(items: seq<Item>, owner: Str, t: u16, ttl: u32)
    requires Uniform(items, owner, t, ttl)
    ensures items == [] <==> Concat(items) == []
  {
    if items != [] {
      ConcatFirst(items);
      assert items[0] == ItemOf(owner, t, ttl, items[0].rdata);
    }
  }

  lemma HeaderPrefix(s: Rrsig, restS: Str, t: Rrsig, restT: Str)
    requires Short(s.signerName) && Short(t.signerName) && SigHeader(s) + restS == SigHeader(t) + restT
    ensures s.(signerName := [], signature := []) == t.(signerName := [], signature := [])
    ensures SameLabels(s.signerName, t.signerName) && restS == restT
  {
    var f, g := HeaderFields(s), HeaderFields(t);
    hide Short, SameLabels, WireName;
    assert SigHeader(s) + restS == f + (WireName(s.signerName) + restS);
    assert SigHeader(t) + restT == g + (WireName(t.signerName) + restT);
    SamePrefix(f, WireName(s.signerName) + restS, g, WireName(t.signerName) + restT);
    WirePrefix(s.signerName, restS, t.signerName, restT);
    FieldsReadBack(s, t);
  }

  lemma FieldsReadBack(s: Rrsig, t: Rrsig)
    requires HeaderFields(s) == HeaderFields(t)
    ensures s.(signerName := [], signature := []) == t.(signerName := [], signature := [])
  {
    var f := HeaderFields(s);
    FieldsAt(s);
    FieldsAt(t);
  }

  lemma FieldsAt(s: Rrsig)
    ensures var f := HeaderFields(s);
            && U16At(f, 0) == s.typeCovered && f[2] == s.algorithm && f[3] == s.labels
            && U32At(f, 4) == s.origTTL && U32At(f, 8) == s.expiration && U32At(f, 12) == s.inception
            && U16At(f, 16) == s.keyTag
  {
  }

  ghost predicate AllFit(rrset: seq<RR>, raw: Str) {
    forall i :: 0 <= i < |rrset| ==> CanonRdata(rrset[i], raw).Some? && |CanonRdata(rrset[i], raw).value| < 0x1_0000
  }

  lemma ItemsFit(owner: Str, ttl: u32, rrset: seq<RR>, raw: Str) returns (items: seq<Item>)
    requires OneSet(rrset) && AllFit(rrset, raw)
    ensures Items(owner, ttl, rrset, raw) == Some(items)
    ensures items == Mapped(ItemFor(owner, rrset[0].rtype, ttl), Canons(rrset, raw))
    ensures Canons(rrset, raw) == Mapped(RdataOf, items)
    ensures Uniform(Sorted(items), owner, rrset[0].rtype, ttl) && Fitting(Sorted(items))
  {
    hide CanonRdata, FullRecord, SameName;
    ItemsAreMapped(owner, ttl, rrset, raw, rrset[0].rtype);
    items := Mapped(ItemFor(owner, rrset[0].rtype, ttl), Canons(rrset, raw));
    SortedUniform(items, owner, rrset[0].rtype, ttl);
    var r := Sorted(items);
    hide Sorted;
    forall i | 0 <= i < |r| ensures |r[i].rdata| < 0x1_0000 {
      var k := Find(items, r, i);
    }
    assert Canons(rrset, raw) == Mapped(RdataOf, items);
  }

  const RdataOf: Item -> Option<Str> := (x: Item) => Some(x.rdata)

  lemma SameRdatas(a: seq<Item>, b: seq<Item>)
    requires |Sorted(a)| == |Sorted(b)|
    requires forall i :: 0 <= i < |Sorted(a)| ==> Sorted(a)[i].rdata == Sorted(b)[i].rdata
    ensures multiset(Mapped(RdataOf, a)) == multiset(Mapped(RdataOf, b))
  {
    SortedKeepsItems(a);
    SortedKeepsItems(b);
    var sa, sb := Sorted(a), Sorted(b);
    hide Sorted, Ordered;
    MappedPermutes(RdataOf, a, sa);
    MappedPermutes(RdataOf, b, sb);
    assert Mapped(RdataOf, sa) == Mapped(RdataOf, sb);
  }

  lemma SameLabelsSameWire(x: Str, y: Str)
    requires SameLabels(x, y)
    ensures WireName(x) == WireName(y)
  {
  }

  /** The fields and names of a signature that go into the signed data. */
  ghost predicate SameSignature(s: Rrsig, ownerA: Str, t: Rrsig, ownerB: Str) {
    && s.(signerName := [], signature := []) == t.(signerName := [], signature := [])
    && SameLabels(s.signerName, t.signerName)
    && SameLabels(SignedOwner(ownerA, s.labels), SignedOwner(ownerB, t.labels))
  }

  lemma SameSignatureSameFrame(s: Rrsig, ownerA: Str, t: Rrsig, ownerB: Str)
    requires SameSignature(s, ownerA, t, ownerB)
    ensures SigHeader(s) == SigHeader(t) && s.origTTL == t.origTTL
    ensures WireName(SignedOwner(ownerA, s.labels)) == WireName(SignedOwner(ownerB, t.labels))
  {
    hide SignedOwner;
  }

  /** Everything a signature should cover is covered, and nothing else: two sets have the same signed
      data exactly when the RRSIG fields agree, signer and owner agree up to case, and the sets have the
      same type and the same canonical rdata, each as often. */
  lemma SignedDataIff(s: Rrsig, a: seq<RR>, rawA: Str, t: Rrsig, b: seq<RR>, rawB: Str)
    requires OneSet(a) && OneSet(b) && AllFit(a, rawA) && AllFit(b, rawB)
    requires Short(s.signerName) && Short(t.signerName)
    requires Short(SignedOwner(a[0].name, s.labels)) && Short(SignedOwner(b[0].name, t.labels))
    ensures SignedData(s, a, rawA) == SignedData(t, b, rawB) <==>
              && SameSignature(s, a[0].name, t, b[0].name)
              && a[0].rtype == b[0].rtype
              && multiset(Canons(a, rawA)) == multiset(Canons(b, rawB))
  {
    var x, y := SignedOwner(a[0].name, s.labels), SignedOwner(b[0].name, t.labels);
    var ia := ItemsFit(WireName(x), s.origTTL, a, rawA);
    var ib := ItemsFit(WireName(y), t.origTTL, b, rawB);
    var ca, cb := Canons(a, rawA), Canons(b, rawB);
    assert SignedData(s, a, rawA) == Some(SigHeader(s) + Concat(Sorted(ia)));
    assert SignedData(t, b, rawB) == Some(SigHeader(t) + Concat(Sorted(ib)));
    assert ia != [] && Canons(a, rawA) == Mapped(RdataOf, ia) && Canons(b, rawB) == Mapped(RdataOf, ib);
    hide *;
    SameSignatureDef(s, a[0].name, t, b[0].name);
    if SigHeader(s) + Concat(Sorted(ia)) == SigHeader(t) + Concat(Sorted(ib)) {
      SamePartsOf(s, x, a[0].rtype, ia, t, y, b[0].rtype, ib);
    }
    if SameSignature(s, a[0].name, t, b[0].name) && a[0].rtype == b[0].rtype && multiset(ca) == multiset(cb) {
      SameSignatureSameFrame(s, a[0].name, t, b[0].name);
      SameItemsSorted(WireName(x), a[0].rtype, s.origTTL, ca, cb);
    }
  }

  /** What can be read off the bytes. */
  lemma SamePartsOf(s: Rrsig, x: Str, ta: u16, ia: seq<Item>, t: Rrsig, y: Str, tb: u16, ib: seq<Item>)
    requires Short(s.signerName) && Short(t.signerName) && Short(x) && Short(y) && ia != []
    requires Uniform(Sorted(ia), WireName(x), ta, s.origTTL) && Fitting(Sorted(ia))
    requires Uniform(Sorted(ib), WireName(y), tb, t.origTTL) && Fitting(Sorted(ib))
    requires SigHeader(s) + Concat(Sorted(ia)) == SigHeader(t) + Concat(Sorted(ib))
    ensures s.(signerName := [], signature := []) == t.(signerName := [], signature := [])
    ensures SameLabels(s.signerName, t.signerName) && SameLabels(x, y) && ta == tb
    ensures multiset(Mapped(RdataOf, ia)) == multiset(Mapped(RdataOf, ib))
  {
    hide *;
    SizeOfSorted(ia);
    HeaderPrefix(s, Concat(Sorted(ia)), t, Concat(Sorted(ib)));
    RecordsReadBack(Sorted(ia), Sorted(ib), x, ta, s.origTTL, y, tb, t.origTTL);
    SameRdatas(ia, ib);
  }

  /** The same canonical rdata make the same sorted items. */
  lemma SameItemsSorted(owner: Str, rtype: u16, ttl: u32, ca: seq<Option<Str>>, cb: seq<Option<Str>>)
    requires multiset(ca) == multiset(cb)
    ensures var f := ItemFor(owner, rtype, ttl); Sorted(Mapped(f, ca)) == Sorted(Mapped(f, cb))
  {
    hide *;
    var f := ItemFor(owner, rtype, ttl);
    MappedUniform(owner, rtype, ttl, ca);
    MappedUniform(owner, rtype, ttl, cb);
    SortedUniform(Mapped(f, ca), owner, rtype, ttl);
    SortedUniform(Mapped(f, cb), owner, rtype, ttl);
    MappedPermutes(f, ca, cb);
    SortedKeepsItems(Mapped(f, ca));
    SortedKeepsItems(Mapped(f, cb));
    OneSorting(Sorted(Mapped(f, ca)), Sorted(Mapped(f, cb)), owner, rtype, ttl);
  }

  lemma SortedKeepsItems(items: seq<Item>)
    ensures Ordered(Sorted(items)) && multiset(Sorted(items)) == multiset(items)
  {
  }

  lemma SizeOfSorted(items: seq<Item>)
    ensures |Sorted(items)| == |items|
  {
    SameSize(Sorted(items), items);
  }

  lemma SameSignatureDef(s: Rrsig, ownerA: Str, t: Rrsig, ownerB: Str)
    ensures SameSignature(s, ownerA, t, ownerB) <==>
              && s.(signerName := [], signature := []) == t.(signerName := [], signature := [])
              && SameLabels(s.signerName, t.signerName)
              && SameLabels(SignedOwner(ownerA, s.labels), SignedOwner(ownerB, t.labels))
  {
    hide SameLabels, SignedOwner;
  }

  /* ----- The signed owner name (RFC 4035, section 5.3.2) ----- */

  /** The labels of the name that a signature over so many labels is made for: the owner's own when all
      are signed, those of the wildcard over its last ones when fewer are, and none at all, the
      signature being unfit for use, when more labels are signed than the owner has. */
  function CoveredOwner(ls: seq<Str>, signed: nat): Option<seq<Str>> {
    if signed > |ls| then None
    else if signed < |ls| then Some([[STAR]] + ls[|ls| - signed..])
    else Some(ls)
  }

  lemma DottedLower(name: Str)
    requires Dotted(name) && name != []
    ensures Split(Lower(name)) == LowerAll(Split(name)) == LowerAll(Labels(name))
    ensures LabelCount(Lower(name)) == |Split(name)| && NonEmpty(Split(Lower(name))) == Split(Lower(name))
  {
    LowerSplit(name);
    NonEmptyId(Split(name));
    NonEmptyId(LowerAll(Split(name)));
    NoLastDot(Lower(name));
    hide Split, NonEmpty;
  }

  /** A name that ends with a dot has an empty last label. */
  lemma LastPieceAfterDot(n: Str)
    requires n != [] && n[|n| - 1] == DOT
    ensures Split(n)[|Split(n)| - 1] == []
  {
    hide Split;
    assert n == n[..|n| - 1] + [DOT] + [];
    SplitConcat(n[..|n| - 1], []);
    SplitDotless([]);
  }

  lemma NoLastDot(n: Str)
    requires n != [] && Split(n)[|Split(n)| - 1] != []
    ensures TrimDot(n) == n
  {
    hide Split;
    if n[|n| - 1] == DOT { LastPieceAfterDot(n); }
  }

  lemma StarLabels(rest: seq<Str>)
    requires rest != [] && AllDotless(rest) && NonEmpty(rest) == rest
    ensures Labels([STAR, DOT] + Join(rest)) == [[STAR]] + rest
  {
    SplitJoin(rest);
    SplitHead([STAR], Join(rest));
    NonEmptyConcat([[STAR]], rest);
    StarAlone(Join(rest));
    hide NonEmpty, Join, Split;
  }

  lemma StarAlone(tail: Str)
    ensures NonEmpty([[STAR]]) == [[STAR]] && [STAR, DOT] + tail == [STAR] + [DOT] + tail
  {
  }

  lemma LastPart(owner: Str, n: nat)
    requires n >= 1
    ensures var parts, pieces := SplitN(owner, n), Split(owner);
            parts[|parts| - 1] == Join(pieces[(if |pieces| <= n then |pieces| else n) - 1..])
  {
    var pieces := Split(owner);
    hide Split;
    JoinLast(pieces);
    hide Join;
  }

  lemma JoinLast(pieces: seq<Str>)
    requires pieces != []
    ensures Join(pieces[|pieces| - 1..]) == pieces[|pieces| - 1]
  {
    assert pieces[|pieces| - 1..] == [pieces[|pieces| - 1]];
  }

  /** The owner that goes into the signed data is the right one exactly when no more labels are signed
      than the owner has, and at least one unless the owner is the root. More are never rejected, and for
      none, the wildcard right below the root, the code keeps the name's last label, too. */
  lemma {:induction false} SignedOwnerIff(name: Str, labels: byte)
    requires Dotted(name)
    ensures var count := |Labels(name)|;
            Some(Labels(SignedOwner(name, labels))) == CoveredOwner(LowerAll(Labels(name)), labels as nat)
            <==> labels as nat <= count && (labels >= 1 || count == 0)
  {
    var ls := LowerAll(Labels(name));
    hide *;
    KeptLabels(labels);
    if name == [] {
      RootOwner(labels);
    } else if labels as nat < |ls| {
      FewerSigned(name, labels);
    } else {
      AllSigned(name, labels);
    }
    ExpandedIff(Labels(SignedOwner(name, labels)), ls, labels as nat, Kept(labels));
  }

  lemma ExpandedIff(got: seq<Str>, ls: seq<Str>, signed: nat, kept: nat)
    requires kept == if signed == 0 then 1 else signed
    requires got == if signed < |ls| then [[STAR]] + ls[|ls| - kept..] else ls
    ensures Some(got) == CoveredOwner(ls, signed) <==> signed <= |ls| && (signed >= 1 || |ls| == 0)
  {
    CoveredOwnerCases(ls, signed);
    hide CoveredOwner;
  }

  lemma CoveredOwnerCases(ls: seq<Str>, signed: nat)
    ensures signed > |ls| ==> CoveredOwner(ls, signed) == None
    ensures signed == |ls| ==> CoveredOwner(ls, signed) == Some(ls)
    ensures signed < |ls| ==> CoveredOwner(ls, signed) == Some([[STAR]] + ls[|ls| - signed..])
    ensures 0 == signed < |ls| ==> CoveredOwner(ls, signed) != Some([[STAR]] + ls[|ls| - 1..])
  {
    if 0 == signed < |ls| { assert |[[STAR]] + ls[|ls|..]| != |[[STAR]] + ls[|ls| - 1..]|; }
  }

  /** How many labels the code keeps behind the asterisk. */
  function Kept(labels: byte): nat {
    if labels == 0 then 1 else labels as nat
  }

  lemma FewerSigned(name: Str, labels: byte)
    requires Dotted(name) && name != [] && labels as nat < |LowerAll(Labels(name))|
    ensures var ls := LowerAll(Labels(name));
            Labels(SignedOwner(name, labels)) == [[STAR]] + ls[|ls| - Kept(labels)..]
  {
    hide *;
    DottedLower(name);
    KeptLabels(labels);
    var pieces := Split(Lower(name));
    NonEmptySuffix(pieces, |pieces| - Kept(labels));
    ExpandedOwner(name, labels, pieces, Kept(labels));
  }

  lemma RootOwner(labels: byte)
    ensures Labels([]) == [] && LowerAll(Labels([])) == [] && SignedOwner([], labels) == []
  {
    SplitDotless([]);
  }

  lemma AllSigned(name: Str, labels: byte)
    requires Dotted(name) && name != [] && labels as nat >= |LowerAll(Labels(name))|
    ensures Labels(SignedOwner(name, labels)) == LowerAll(Labels(name))
  {
    DottedLower(name);
    LowerLabels(name);
    hide Split, Lower, LowerAll, NonEmpty, LabelCount, SplitN, Dotted;
  }

  /** Two signatures that the code should not use as it does: over none of the labels of "a.b", and over
      five of them. */
  lemma SignedOwnerMisses()
    ensures var name: Str := [97, DOT, 98];
            && Labels(SignedOwner(name, 0)) == [[STAR], [98]]
            && CoveredOwner(LowerAll(Labels(name)), 0) == Some([[STAR]])
            && Labels(SignedOwner(name, 5)) == [[97], [98]] && CoveredOwner(LowerAll(Labels(name)), 5) == None
  {
    var name: Str := [97, DOT, 98];
    ExampleLabels();
    var ls := LowerAll(Labels(name));
    hide *;
    FewerSigned(name, 0);
    AllSigned(name, 5);
    CoveredOwnerCases(ls, 0);
    CoveredOwnerCases(ls, 5);
    KeptLabels(0);
    assert ls[1..] == [[98]] && [[STAR]] + ls[1..] == [[STAR], [98]];
    assert ls[2..] == [] && [[STAR]] + ls[2..] == [[STAR]];
  }

  lemma KeptLabels(labels: byte)
    ensures labels == 0 ==> Kept(labels) == 1
    ensures labels > 0 ==> Kept(labels) == labels as nat
  {
  }

  lemma ExampleLabels()
    ensures Dotted([97, DOT, 98]) && LowerAll(Labels([97, DOT, 98])) == [[97], [98]]
  {
    SplitDotless([98]);
    SplitHead([97], [98]);
    var pieces: seq<Str> := [[97], [98]];
    assert [97] + [DOT] + [98] == [97, DOT, 98];
    NonEmptyId(pieces);
    assert Lower([97]) == [97] && Lower([98]) == [98];
    assert LowerAll(pieces) == pieces;
  }

  lemma NonEmptySuffix(ls: seq<Str>, n: nat)
    requires n <= |ls| && NonEmpty(ls) == ls
    ensures NonEmpty(ls[n..]) == ls[n..]
  {
    NonEmptyId(ls[n..]);
  }

  lemma ExpandedOwner(name: Str, labels: byte, pieces: seq<Str>, keep: nat)
    requires pieces == Split(Lower(name)) && |pieces| == LabelCount(Lower(name)) && labels as nat < |pieces|
    requires keep == Kept(labels)
    requires NonEmpty(pieces[|pieces| - keep..]) == pieces[|pieces| - keep..]
    ensures Labels(SignedOwner(name, labels)) == [[STAR]] + pieces[|pieces| - keep..]
  {
    OwnerString(name, labels, pieces, keep);
    var rest := pieces[|pieces| - keep..];
    assert rest != [] && AllDotless(rest);
    hide *;
    StarLabels(rest);
  }

  lemma OwnerString(name: Str, labels: byte, pieces: seq<Str>, keep: nat)
    requires pieces == Split(Lower(name)) && |pieces| == LabelCount(Lower(name)) && labels as nat < |pieces|
    requires keep == Kept(labels)
    ensures SignedOwner(name, labels) == [STAR, DOT] + Join(pieces[|pieces| - keep..])
  {
    hide Split, Join, SplitN, Lower, LabelCount;
    LastPart(Lower(name), |pieces| - labels as nat + 1);
  }

  /* ----- Repacking ----- */

  /** A record parsed from its packet, with a readable name where its type has one. */
  ghost predicate FromPacket(rr: RR, raw: Str) {
    && rr.offset >= 12 && rr.rtype != TYPE_SOA && rr.rtype != TYPE_SRV
    && (HasName(rr.rtype) ==> Parsed(raw, rr.offset + NameOffset(rr.rtype)).Ok? && |rr.data| >= NameOffset(rr.rtype))
  }

  lemma SameNameSameLabels(x: Str, name: Str)
    requires SameName(x, Canon(name))
    ensures SameLabels(x, name)
  {
    LowerLabels(x);
    LowerLabels(Canon(name));
    LabelsOfCanon(name);
  }

  lemma RepackedRdata(rr: RR, raw: Str, got: RR, packet: Str)
    requires FromPacket(rr, raw) && SameRR(rr, raw, got, packet)
    ensures CanonRdata(rr, raw) == CanonRdata(got, packet)
  {
    hide Parsed, SameName, Canon, WireName;
    if HasName(rr.rtype) {
      var off := rr.offset + NameOffset(rr.rtype);
      assert RdataName(rr, raw) == Some(Parsed(raw, off).value.0) by { Records.ParsedInside(raw, off); }
      assert MxPreference(rr) == rr.data[..NameOffset(rr.rtype)] == got.data[..NameOffset(rr.rtype)];
      Records.ParsedInside(raw, off);
      SameNameSameLabels(Parsed(packet, got.offset + NameOffset(rr.rtype)).value.0, Parsed(raw, off).value.0);
      SameLabelsSameWire(Parsed(packet, got.offset + NameOffset(rr.rtype)).value.0, Parsed(raw, off).value.0);
    } else {
      assert [] + rr.data == rr.data;
    }
  }

  function Picked(rrs: seq<RR>, picks: seq<nat>): seq<RR>
    requires forall j :: 0 <= j < |picks| ==> picks[j] < |rrs|
  {
    seq(|picks|, j requires 0 <= j < |picks| => rrs[picks[j]])
  }

  /** Packing and parsing a message keeps every signature over its answers verifiable: the signed data
      of any record set among them is the same before and after, although offsets, compression and
      case change. */
  lemma {:induction false} RepackingKeepsSignedData(m: Message, sig: Rrsig, picks: seq<nat>)
    requires PackableMessage(m)
    requires forall j :: 0 <= j < |picks| ==> picks[j] < |m.answers|
    requires forall j :: 0 <= j < |picks| ==>
               FromPacket(m.answers[picks[j]], m.raw) && Canon(m.answers[picks[j]].name) == m.answers[picks[j]].name
    requires OneSet(Picked(m.answers, picks))
    ensures var r := ParsedMessage(PackedMessage(m).bytes);
            && r.Ok? && |r.value.answers| == |m.answers|
            && SignedData(sig, Picked(m.answers, picks), m.raw)
               == SignedData(sig, Picked(r.value.answers, picks), r.value.raw)
  {
    PackThenParse(m);
    hide PackableMessage, ParsedMessage, PackedMessage, SameRR, SameMessage, SignedData, Canon, FromPacket, OneSet;
    var got := ParsedMessage(PackedMessage(m).bytes).value;
    SameAnswers(m, got);
    SameRRsKeepSignedData(m.answers, m.raw, got.answers, got.raw, sig, picks);
  }

  lemma SameAnswers(m: Message, got: Message)
    requires SameMessage(m, got)
    ensures SameRRs(m.answers, m.raw, got.answers, |m.answers|, got.raw)
  {
    hide SameRR, SameQuestion;
  }

  lemma SameRRsKeepSignedData(rrs: seq<RR>, raw: Str, got: seq<RR>, packet: Str, sig: Rrsig, picks: seq<nat>)
    requires SameRRs(rrs, raw, got, |rrs|, packet)
    requires forall j :: 0 <= j < |picks| ==> picks[j] < |rrs|
    requires forall j :: 0 <= j < |picks| ==>
               FromPacket(rrs[picks[j]], raw) && Canon(rrs[picks[j]].name) == rrs[picks[j]].name
    requires OneSet(Picked(rrs, picks))
    ensures SignedData(sig, Picked(rrs, picks), raw) == SignedData(sig, Picked(got, picks), packet)
  {
    var a, b := Picked(rrs, picks), Picked(got, picks);
    forall j | 0 <= j < |picks|
      ensures b[j].rtype == a[j].rtype && SameName(b[j].name, a[j].name)
      ensures CanonRdata(a[j], raw) == CanonRdata(b[j], packet)
    {
      assert SameRR(rrs[picks[j]], raw, got[picks[j]], packet);
      RepackedRdata(a[j], raw, b[j], packet);
    }
    hide SameRR, CanonRdata, SignedData, Canon;
    assert Canons(a, raw) == Canons(b, packet);
    SignedDataDependsOnContents(sig, a, raw, b, packet);
  }

  /* ----- When there is signed data at all ----- */

  /** The names of an SOA take up no more than its rdata. */
  ghost predicate SoaFits(rr: RR, raw: Str) {
    var p := Parsed(raw, rr.offset);
    p.Ok? && Parsed(raw, p.value.1).Ok? ==> Parsed(raw, p.value.1).value.1 - rr.offset <= |rr.data|
  }

  /** The code can slice the numbers off an SOA's rdata exactly when its two names, read in the packet,
      end inside the rdata; for every other type there is always a canonical form. */
  lemma CanonRdataIff(rr: RR, raw: Str)
    ensures CanonRdata(rr, raw).Some? <==> rr.rtype == TYPE_SOA ==> SoaFits(rr, raw)
  {
    hide Parsed, WireName;
    var p := Parsed(raw, rr.offset);
    if rr.rtype == TYPE_SOA && p.Ok? && Parsed(raw, p.value.1).Ok? {
      Records.ParsedInside(raw, rr.offset);
      Records.ParsedInside(raw, p.value.1);
    }
  }

  lemma {:induction false} ItemsIff(owner: Str, ttl: u32, rrset: seq<RR>, raw: Str)
    ensures Items(owner, ttl, rrset, raw).Some? <==> forall i :: 0 <= i < |rrset| ==> CanonRdata(rrset[i], raw).Some?
  {
    hide CanonRdata, FullRecord;
    if rrset != [] {
      var front := rrset[..|rrset| - 1];
      ItemsIff(owner, ttl, front, raw);
      assert forall i :: 0 <= i < |front| ==> rrset[i] == front[i];
    }
  }

  /** Building the signed data goes through exactly for sets with a record in which every SOA's names end
      inside its rdata; otherwise the code indexes or slices out of range. */
  lemma {:induction false} SignedDataExistsIff(sig: Rrsig, rrset: seq<RR>, raw: Str)
    ensures SignedData(sig, rrset, raw).Some?
            <==> rrset != [] && forall i :: 0 <= i < |rrset| && rrset[i].rtype == TYPE_SOA ==> SoaFits(rrset[i], raw)
  {
    hide CanonRdata, WireName, SoaFits, SignedOwner, Concat, Sorted, SigHeader;
    if rrset != [] {
      ItemsIff(WireName(SignedOwner(rrset[0].name, sig.labels)), sig.origTTL, rrset, raw);
      forall i | 0 <= i < |rrset|
        ensures CanonRdata(rrset[i], raw).Some? <==> rrset[i].rtype == TYPE_SOA ==> SoaFits(rrset[i], raw)
      {
        CanonRdataIff(rrset[i], raw);
      }
      hide Items;
    }
  }
}
