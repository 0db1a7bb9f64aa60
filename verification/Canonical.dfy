/** The bytes a DNSSEC signature covers (RFC 4034, sections 3.1.8.1, 6.2 and 6.3): canonical names,
    canonical rdata, and the signed data of a whole record set. */
module Canonical {
  import opened Wrappers
  import opened Text
  import opened NameWalk
  import opened Message

  const CLASS_IN: u16 := 1
  const STAR: byte := 42

  datatype Rrsig = Rrsig(typeCovered: u16, algorithm: byte, labels: byte, origTTL: u32, expiration: u32,
                         inception: u32, keyTag: u16, signerName: Str, signature: Str)

  /* ----- Names in wire form ----- */

  function WireLabels(ls: seq<Str>): Str {
    if ls == [] then [0] else [(|ls[0]| % 256) as byte] + ls[0] + WireLabels(ls[1..])
  }

  /** What WireName computes: the lower-cased labels, each behind its length byte. */
  function WireName(name: Str): Str {
    WireLabels(LowerAll(Labels(name)))
  }

  lemma TrimDotLabels(s: Str)
    ensures Labels(TrimDot(s)) == Labels(s)
  {
    if s != [] && s[|s| - 1] == DOT {
      var a := s[..|s| - 1];
      SplitConcat(a, []);
      assert a + [DOT] + [] == s;
      SplitDotless([]);
      NonEmptyConcat(Split(a), [[]]);
    }
  }

  lemma {:induction false} WireLabelsSnoc(ls: seq<Str>, l: Str, buf: Str)
    requires WireLabels(ls) == buf + [0]
    ensures WireLabels(ls + [l]) == buf + [(|l| % 256) as byte] + l + [0]
  {
    if ls != [] {
      var head, rest := [(|ls[0]| % 256) as byte] + ls[0], WireLabels(ls[1..]);
      WireLabelsEnd(ls[1..]);
      var b := rest[..|rest| - 1];
      assert WireLabels(ls) == head + rest;
      assert (ls + [l])[1..] == ls[1..] + [l] && (ls + [l])[0] == ls[0];
      assert WireLabels(ls + [l]) == head + WireLabels(ls[1..] + [l]);
      hide *;
      CutLast(buf, head, b, rest);
      WireLabelsSnoc(ls[1..], l, b);
      Regroup5(head, b, [(|l| % 256) as byte], l, [0]);
    }
  }

  lemma CutLast(buf: Str, head: Str, b: Str, rest: Str)
    requires head + rest == buf + [0] && rest != [] && b == rest[..|rest| - 1]
    ensures rest[|rest| - 1] == 0 ==> rest == b + [0]
    ensures buf == head + b
  {
    assert buf == (buf + [0])[..|buf|];
    assert head + b == (head + rest)[..|buf|];
  }

  lemma Regroup5(a: Str, b: Str, c: Str, d: Str, e: Str)
    ensures a + (b + c + d + e) == (a + b) + c + d + e
  {
  }

  lemma {:induction false} WireLabelsEnd(ls: seq<Str>)
    ensures WireLabels(ls) != [] && WireLabels(ls)[|WireLabels(ls)| - 1] == 0
  {
    if ls != [] { WireLabelsEnd(ls[1..]); }
  }

  /** WireName: the loop as written, over all pieces, skipping the empty ones. */
  method WireNameLoop(name0: Str) returns (buf: Str)
    ensures buf == WireName(name0)
  {
    hide *;
    var name := Lower(TrimDot(name0));
    WireNamePieces(name0);
    if name == [] {
      return [0];
    }
    var pieces := Split(name);
    buf := [];
    WirePiecesStart(pieces);
    for i := 0 to |pieces|
      invariant WirePieces(pieces, i, buf)
    {
      WirePiecesNext(pieces, i, buf);
      if |pieces[i]| == 0 {
        continue;
      }
      buf := buf + [(|pieces[i]| % 256) as byte] + pieces[i];
    }
    WirePiecesEnd(pieces, buf);
    buf := buf + [0];
  }

  /** The first n pieces are written, but for the final zero byte. */
  predicate WirePieces(pieces: seq<Str>, n: nat, buf: Str) {
    n <= |pieces| && buf + [0] == WireLabels(NonEmpty(pieces[..n]))
  }

  lemma WireNamePieces(name: Str)
    ensures WireName(name) == WireLabels(NonEmpty(Split(Lower(TrimDot(name)))))
    ensures Lower(TrimDot(name)) == [] ==> WireName(name) == [0]
  {
    TrimDotLabels(name);
    LowerLabels(TrimDot(name));
    if Lower(TrimDot(name)) == [] { SplitDotless([]); }
  }

  lemma WirePiecesStart(pieces: seq<Str>)
    ensures WirePieces(pieces, 0, [])
  {
    assert [] + [0] == [0];
  }

  lemma WirePiecesNext(pieces: seq<Str>, i: nat, buf: Str)
    requires i < |pieces| && WirePieces(pieces, i, buf)
    ensures WirePieces(pieces, i + 1, if pieces[i] == [] then buf else buf + [(|pieces[i]| % 256) as byte] + pieces[i])
  {
    NonEmptyNext(pieces, i);
    hide NonEmpty, WireLabels;
    if pieces[i] != [] { WireLabelsSnoc(NonEmpty(pieces[..i]), pieces[i], buf); }
  }

  lemma WirePiecesEnd(pieces: seq<Str>, buf: Str)
    requires WirePieces(pieces, |pieces|, buf)
    ensures buf + [0] == WireLabels(NonEmpty(pieces))
  {
    assert pieces[..|pieces|] == pieces;
  }

  lemma NonEmptyNext(pieces: seq<Str>, i: nat)
    requires i < |pieces|
    ensures NonEmpty(pieces[..i + 1])
            == if pieces[i] == [] then NonEmpty(pieces[..i]) else NonEmpty(pieces[..i]) + [pieces[i]]
  {
    assert pieces[..i + 1] == pieces[..i] + [pieces[i]];
    NonEmptyConcat(pieces[..i], [pieces[i]]);
    assert NonEmpty([pieces[i]]) == if pieces[i] == [] then [] else [pieces[i]];
    assert NonEmpty(pieces[..i]) + [] == NonEmpty(pieces[..i]);
  }

  /** The labels read back by the signer-name parser, and how many bytes it used. */
  function ReadLabels(data: Str, i: nat): (r: Option<(seq<Str>, nat)>)
    requires i <= |data|
    ensures r.Some? ==> i < r.value.1 <= |data|
    decreases |data| - i
  {
    match HopAt(data, i)
    case End => Some(([], i + 1))
    case Label(text, next) =>
      (match ReadLabels(data, next)
       case Some((rest, end)) => Some(([Lower(text)] + rest, end))
       case None => None)
    case _ => None
  }

  lemma ReadAhead(head: Str, l: Str, tail: Str)
    requires 1 <= |l| <= 63
    ensures HopAt(head + [(|l| % 256) as byte] + l + tail, |head|) == Label(l, |head| + 1 + |l|)
  {
    var data := head + [(|l| % 256) as byte] + l + tail;
    assert data[|head| + 1..|head| + 1 + |l|] == l;
  }

  function ReadName(data: Str): (r: Option<(Str, nat)>)
    ensures r.Some? ==> r.value.1 <= |data|
  {
    match ReadLabels(data, 0)
    case Some((ls, end)) => Some((if ls == [] then [DOT] else Join(ls), end))
    case None => None
  }

  /** With `labels` read and `i` reached, the rest of the data decides the outcome. */
  predicate StillToRead(data: Str, i: nat, labels: seq<Str>) {
    && i <= |data|
    && ReadLabels(data, 0) == match ReadLabels(data, i)
                              case Some((rest, end)) => Some((labels + rest, end))
                              case None => None
  }

  lemma ReadStep(data: Str, i: nat, labels: seq<Str>)
    requires StillToRead(data, i, labels)
    ensures HopAt(data, i).End? ==> ReadLabels(data, 0) == Some((labels, i + 1))
    ensures HopAt(data, i).Label? ==> StillToRead(data, HopAt(data, i).next, labels + [Lower(HopAt(data, i).text)])
    ensures HopAt(data, i).Pointer? || HopAt(data, i).Bad? ==> ReadLabels(data, 0) == None
  {
    assert labels + [] == labels;
    if HopAt(data, i).Label? && ReadLabels(data, HopAt(data, i).next).Some? {
      var text, rest := HopAt(data, i).text, ReadLabels(data, HopAt(data, i).next).value.0;
      assert labels + ([Lower(text)] + rest) == (labels + [Lower(text)]) + rest;
    }
  }

  /** parseUncompressedName: the loop as written; it returns the position behind the name. */
  method ReadNameLoop(data: Str) returns (r: Option<(Str, nat)>)
    ensures r == ReadName(data)
  {
    var labels: seq<Str> := [];
    var i: nat := 0;
    assert forall ls: seq<Str> :: [] + ls == ls;
    while true
      invariant StillToRead(data, i, labels)
      decreases |data| - i
    {
      ReadStep(data, i, labels);
      hide ReadLabels, StillToRead;
      if i >= |data| {
        return None;
      }
      var l := data[i] as int;
      if l == 0 {
        return Some((if |labels| == 0 then [DOT] else Join(labels), i + 1));
      }
      if l >= 64 {
        return None;
      }
      if i + 1 + l > |data| {
        return None;
      }
      labels := labels + [Lower(data[i + 1..i + 1 + l])];
      i := i + 1 + l;
    }
  }

  lemma ReadLong(data: Str, i: nat, ls: seq<Str>)
    requires i < |data| && ls != [] && |ls[0]| > 63
    ensures !Plain(ls)
    ensures ReadLabels(data, i).Some? ==> ReadLabels(data, i).value.0 != LowerAll(ls)
  {
    var r := ReadLabels(data, i);
    if r.Some? && r.value.0 != [] { assert |r.value.0[0]| != |LowerAll(ls)[0]|; }
  }

  /** Reading back a name written in wire form gives exactly its labels, lower-cased, if and only if
      no label is longer than 63 bytes. */
  lemma {:induction false} WireReadsIff(head: Str, ls: seq<Str>, tail: Str)
    requires forall i :: 0 <= i < |ls| ==> ls[i] != []
    ensures ReadLabels(head + WireLabels(ls) + tail, |head|) == Some((LowerAll(ls), |head| + |WireLabels(ls)|))
            <==> Plain(ls)
    decreases |ls|
  {
    var data := head + WireLabels(ls) + tail;
    hide *;
    if ls == [] {
      ReadRoot(head, tail);
    } else {
      var l, rest := ls[0], ls[1..];
      var next := head + [(|l| % 256) as byte] + l;
      WireCons(head, ls, tail);
      if |l| <= 63 {
        ReadAhead(head, l, WireLabels(rest) + tail);
        ReadOn(data, |head|);
        WireReadsIff(next, rest, tail);
        PlainCons(ls);
        ConsEqual(Lower(l), ReadLabels(data, |next|), LowerAll(rest), |head| + |WireLabels(ls)|);
      } else {
        ReadLong(data, |head|, ls);
      }
    }
  }

  lemma ReadRoot(head: Str, tail: Str)
    ensures ReadLabels(head + WireLabels([]) + tail, |head|) == Some((LowerAll([]), |head| + |WireLabels([])|))
    ensures Plain([])
  {
    assert (head + WireLabels([]) + tail)[|head|] == 0;
  }

  lemma WireCons(head: Str, ls: seq<Str>, tail: Str)
    requires ls != []
    ensures var l, rest := ls[0], ls[1..];
            var next := head + [(|l| % 256) as byte] + l;
            && head + WireLabels(ls) + tail == next + (WireLabels(rest) + tail) == next + WireLabels(rest) + tail
            && |next| == |head| + 1 + |l|
            && |next| + |WireLabels(rest)| == |head| + |WireLabels(ls)|
            && LowerAll(ls) == [Lower(l)] + LowerAll(rest)
  {
    var l, rest := ls[0], ls[1..];
    var b, w := [(|l| % 256) as byte], WireLabels(rest);
    assert WireLabels(ls) == b + l + w;
    assert LowerAll(ls) == [Lower(l)] + LowerAll(rest);
    hide *;
    Regroup4(head, b, l, w, tail);
  }

  lemma Regroup4(a: Str, b: Str, c: Str, d: Str, e: Str)
    ensures a + (b + c + d) + e == a + b + c + (d + e) == a + b + c + d + e
  {
  }

  lemma ReadOn(data: Str, at: nat)
    requires at < |data| && HopAt(data, at).Label?
    ensures ReadLabels(data, at) == match ReadLabels(data, HopAt(data, at).next)
                                    case Some((ls, end)) => Some(([Lower(HopAt(data, at).text)] + ls, end))
                                    case None => None
  {
  }

  lemma PlainCons(ls: seq<Str>)
    requires ls != [] && 1 <= |ls[0]| <= 63
    ensures Plain(ls) <==> Plain(ls[1..])
  {
    assert forall i :: 1 <= i < |ls| ==> ls[i] == ls[1..][i - 1];
  }

  lemma ConsEqual(l: Str, r: Option<(seq<Str>, nat)>, want: seq<Str>, used: nat)
    ensures (match r case Some((ls, end)) => Some(([l] + ls, end)) case None => None) == Some(([l] + want, used))
            <==> r == Some((want, used))
  {
    if r.Some? { assert ([l] + r.value.0)[1..] == r.value.0 && ([l] + want)[1..] == want; }
  }

  /* ----- Canonical rdata ----- */

  /** canonRdata; None where slicing an SOA's numbers out of its rdata goes out of range. */
  ghost function CanonRdata(rr: RR, raw: Str): Option<Str> {
    if rr.rtype == TYPE_NS || rr.rtype == TYPE_CNAME || rr.rtype == TYPE_PTR then
      var p := Parsed(raw, rr.offset);
      Some(if p.Err? then rr.data else WireName(p.value.0))
    else if rr.rtype == TYPE_MX then
      var p := Parsed(raw, rr.offset + 2);
      Some(if |rr.data| < 2 || p.Err? then rr.data else rr.data[..2] + WireName(p.value.0))
    else if rr.rtype == TYPE_SOA then
      var p := Parsed(raw, rr.offset);
      if p.Err? then Some(rr.data)
      else
        var q := Parsed(raw, p.value.1);
        if q.Err? then Some(rr.data)
        else if q.value.1 < rr.offset || q.value.1 - rr.offset > |rr.data| then None
        else Some(WireName(p.value.0) + WireName(q.value.0) + rr.data[q.value.1 - rr.offset..])
    else if rr.rtype == TYPE_SRV then
      var p := Parsed(raw, rr.offset + 6);
      Some(if |rr.data| < 6 || p.Err? then rr.data else rr.data[..6] + WireName(p.value.0))
    else Some(rr.data)
  }

  method CanonicalRdata(rr: RR, raw: Str) returns (r: Option<Str>)
    ensures r == CanonRdata(rr, raw)
  {
    hide Parsed, WireName;
    if rr.rtype == TYPE_NS || rr.rtype == TYPE_CNAME || rr.rtype == TYPE_PTR {
      var name := ParseName(raw, rr.offset);
      if name.Err? {
        return Some(rr.data);
      }
      var wire := WireNameLoop(name.value.0);
      return Some(wire);
    } else if rr.rtype == TYPE_MX {
      if |rr.data| < 2 {
        return Some(rr.data);
      }
      var name := ParseName(raw, rr.offset + 2);
      if name.Err? {
        return Some(rr.data);
      }
      var wire := WireNameLoop(name.value.0);
      return Some(rr.data[..2] + wire);
    } else if rr.rtype == TYPE_SOA {
      var mname := ParseName(raw, rr.offset);
      if mname.Err? {
        return Some(rr.data);
      }
      var rname := ParseName(raw, mname.value.1);
      if rname.Err? {
        return Some(rr.data);
      }
      var skip := rname.value.1 - rr.offset;
      if skip < 0 || skip > |rr.data| {
        return None;
      }
      var m := WireNameLoop(mname.value.0);
      var n := WireNameLoop(rname.value.0);
      return Some(m + n + rr.data[skip..]);
    } else if rr.rtype == TYPE_SRV {
      if |rr.data| < 6 {
        return Some(rr.data);
      }
      var name := ParseName(raw, rr.offset + 6);
      if name.Err? {
        return Some(rr.data);
      }
      var wire := WireNameLoop(name.value.0);
      return Some(rr.data[..6] + wire);
    }
    return Some(rr.data);
  }

  /* ----- The signed data ----- */

  /** The 18 fixed bytes of the RRSIG rdata. */
  function HeaderFields(sig: Rrsig): (r: Str)
    ensures |r| == 18
  {
    U16Bytes(sig.typeCovered) + [sig.algorithm, sig.labels] + U32Bytes(sig.origTTL) + U32Bytes(sig.expiration)
    + U32Bytes(sig.inception) + U16Bytes(sig.keyTag)
  }

  function SigHeader(sig: Rrsig): Str {
    HeaderFields(sig) + WireName(sig.signerName)
  }

  /** strings.SplitN(s, ".", n) for n > 0. */
  function SplitN(s: Str, n: nat): (r: seq<Str>)
    requires n > 0
    ensures r != []
  {
    var pieces := Split(s);
    if |pieces| <= n then pieces else pieces[..n - 1] + [Join(pieces[n - 1..])]
  }

  function LabelCount(name: Str): nat {
    if TrimDot(name) == [] then 0 else |Split(TrimDot(name))|
  }

  /** The owner name as signed: a wildcard when the signature covers fewer labels. */
  function SignedOwner(name: Str, labels: byte): Str {
    var owner := Lower(name);
    if labels as int < LabelCount(owner) then
      var parts := SplitN(owner, LabelCount(owner) - labels as int + 1);
      [STAR, DOT] + parts[|parts| - 1]
    else owner
  }

  datatype Item = Item(rdata: Str, full: Str)

  /** A whole record: owner, type, class IN, original TTL, length modulo 2^16, rdata. */
  function FullRecord(owner: Str, rtype: u16, ttl: u32, rdata: Str): Str {
    owner + FixedBytes(RR([], rtype, CLASS_IN, ttl, [], 0), |rdata|) + rdata
  }

  /** Items in the order of the set; None when one of them has no canonical rdata. */
  ghost function Items(owner: Str, ttl: u32, rrset: seq<RR>, raw: Str): Option<seq<Item>> {
    if rrset == [] then Some([])
    else
      var front, last := rrset[..|rrset| - 1], rrset[|rrset| - 1];
      match Items(owner, ttl, front, raw)
      case None => None
      case Some(items) =>
        match CanonRdata(last, raw)
        case None => None
        case Some(rdata) => Some(items + [Item(rdata, FullRecord(owner, last.rtype, ttl, rdata))])
  }

  /** bytes.Compare(a, b) <= 0 */
  predicate LexLe(a: Str, b: Str) {
    a == [] || (b != [] && (a[0] < b[0] || (a[0] == b[0] && LexLe(a[1..], b[1..]))))
  }

  predicate Ordered(items: seq<Item>) {
    forall i, j :: 0 <= i < j < |items| ==> LexLe(items[i].rdata, items[j].rdata)
  }

  lemma {:induction false} LexOrder(a: Str, b: Str, c: Str)
    ensures LexLe(a, b) || LexLe(b, a)
    ensures LexLe(a, b) && LexLe(b, a) ==> a == b
    ensures LexLe(a, b) && LexLe(b, c) ==> LexLe(a, c)
  {
    if a != [] && b != [] {
      LexOrder(a[1..], b[1..], if c == [] then [] else c[1..]);
      assert a == [a[0]] + a[1..] && b == [b[0]] + b[1..];
    }
  }

  function Insert(x: Item, items: seq<Item>): (r: seq<Item>)
    requires Ordered(items)
    ensures Ordered(r) && multiset(r) == multiset(items) + multiset{x}
  {
    if items == [] then [x]
    else if LexLe(items[|items| - 1].rdata, x.rdata) then
      InsertLast(items, x);
      items + [x]
    else
      var front, last := items[..|items| - 1], items[|items| - 1];
      assert items == front + [last];
      var r := Insert(x, front);
      InsertBefore(front, last, x, r);
      r + [last]
  }

  lemma InsertLast(items: seq<Item>, x: Item)
    requires items != [] && Ordered(items) && LexLe(items[|items| - 1].rdata, x.rdata)
    ensures Ordered(items + [x])
  {
    forall i | 0 <= i < |items| ensures LexLe(items[i].rdata, x.rdata) {
      if i < |items| - 1 { LexOrder(items[i].rdata, items[|items| - 1].rdata, x.rdata); }
    }
  }

  lemma InsertBefore(front: seq<Item>, last: Item, x: Item, r: seq<Item>)
    requires Ordered(front + [last]) && Ordered(r) && multiset(r) == multiset(front) + multiset{x}
    requires !LexLe(last.rdata, x.rdata)
    ensures Ordered(r + [last])
  {
    LexOrder(x.rdata, last.rdata, []);
    var all := front + [last];
    forall i | 0 <= i < |r| ensures LexLe(r[i].rdata, last.rdata) {
      assert r[i] in multiset(r);
      if r[i] != x {
        assert r[i] in multiset(front);
        var k :| 0 <= k < |front| && front[k] == r[i];
        assert all[k] == r[i] && all[|front|] == last;
      }
    }
  }

  function Sorted(items: seq<Item>): (r: seq<Item>)
    ensures Ordered(r) && multiset(r) == multiset(items)
  {
    if items == [] then []
    else
      assert items == items[..|items| - 1] + [items[|items| - 1]];
      Insert(items[|items| - 1], Sorted(items[..|items| - 1]))
  }

  function Concat(items: seq<Item>): Str {
    if items == [] then [] else Concat(items[..|items| - 1]) + items[|items| - 1].full
  }

  /** What buildSignedData computes; None for an empty set, whose first record it would read. */
  ghost function SignedData(sig: Rrsig, rrset: seq<RR>, raw: Str): Option<Str> {
    if rrset == [] then None
    else
      match Items(WireName(SignedOwner(rrset[0].name, sig.labels)), sig.origTTL, rrset, raw)
      case None => None
      case Some(items) => Some(SigHeader(sig) + Concat(Sorted(items)))
  }

  method BuildSignedData(sig: Rrsig, rrset: seq<RR>, raw: Str) returns (r: Option<Str>)
    ensures r == SignedData(sig, rrset, raw)
  {
    hide WireName, Items, Sorted, Concat, SigHeader, SplitN, LabelCount;
    if |rrset| == 0 {
      return None;
    }
    var hdr := BuildHeader(sig);
    var ownerName := Lower(rrset[0].name);
    var ownerLabels := LabelCount(ownerName);
    if sig.labels as int < ownerLabels {
      var parts := SplitN(ownerName, ownerLabels - sig.labels as int + 1);
      ownerName := [STAR, DOT] + parts[|parts| - 1];
    }
    var ownerWire := WireNameLoop(ownerName);
    var items := BuildItems(ownerWire, sig.origTTL, rrset, raw);
    if items.None? {
      return None;
    }
    var sorted := SortItems(items.value);
    var records := AppendAll(sorted);
    return Some(hdr + records);
  }

  method SortItems(items: seq<Item>) returns (sorted: seq<Item>)
    ensures sorted == Sorted(items)
  {
    sorted := [];
    for i := 0 to |items|
      invariant sorted == Sorted(items[..i])
    {
      assert items[..i + 1][..i] == items[..i];
      sorted := Insert(items[i], sorted);
    }
    assert items[..|items|] == items;
  }

  method AppendAll(items: seq<Item>) returns (buf: Str)
    ensures buf == Concat(items)
  {
    buf := [];
    for i := 0 to |items|
      invariant buf == Concat(items[..i])
    {
      assert items[..i + 1][..i] == items[..i];
      buf := buf + items[i].full;
    }
    assert items[..|items|] == items;
  }

  /** The header: written field by field into a zeroed buffer, two of the fields twice. */
  method BuildHeader(sig: Rrsig) returns (hdr: Str)
    ensures hdr == SigHeader(sig)
  {
    var signer := WireNameLoop(sig.signerName);
    hide WireName;
    hdr := [0, 0, 0, 0, 0, 0, 0, 0, 0, 0, 0, 0, 0, 0, 0, 0, 0, 0];
    hdr := PutU16(hdr, 0, sig.typeCovered);
    hdr := hdr[2 := sig.algorithm];
    hdr := hdr[3 := sig.labels];
    hdr := PutU32(hdr, 4, sig.origTTL);
    hdr := PutU32(hdr, 8, sig.expiration);
    hdr := PutU32(hdr, 12, sig.expiration);
    hdr := PutU32(hdr, 8, sig.expiration);
    hdr := PutU32(hdr, 12, sig.inception);
    hdr := PutU16(hdr, 16, sig.keyTag);
    hdr := hdr + signer;
  }

  method BuildItems(ownerWire: Str, ttl: u32, rrset: seq<RR>, raw: Str) returns (r: Option<seq<Item>>)
    ensures r == Items(ownerWire, ttl, rrset, raw)
  {
    hide CanonRdata, FixedBytes;
    var items: seq<Item> := [];
    for i := 0 to |rrset|
      invariant Items(ownerWire, ttl, rrset[..i], raw) == Some(items)
    {
      assert rrset[..i + 1][..i] == rrset[..i];
      var rdata := CanonicalRdata(rrset[i], raw);
      if rdata.None? {
        NoItems(ownerWire, ttl, rrset, raw, i + 1);
        return None;
      }
      var off := |ownerWire|;
      var full := ownerWire + [0, 0, 0, 0, 0, 0, 0, 0, 0, 0] + rdata.value;
      PatchFixed(ownerWire, rdata.value, RR([], rrset[i].rtype, CLASS_IN, ttl, [], 0));
      full := PutU16(full, off, rrset[i].rtype);
      full := PutU16(full, off + 2, CLASS_IN);
      full := PutU32(full, off + 4, ttl);
      full := PutU16(full, off + 8, |rdata.value| % 0x1_0000);
      items := items + [Item(rdata.value, full)];
    }
    assert rrset[..|rrset|] == rrset;
    return Some(items);
  }

  lemma {:induction false} NoItems(owner: Str, ttl: u32, rrset: seq<RR>, raw: Str, i: nat)
    requires i <= |rrset| && Items(owner, ttl, rrset[..i], raw).None?
    ensures Items(owner, ttl, rrset, raw).None?
    decreases |rrset| - i
  {
    hide CanonRdata, FullRecord;
    if i == |rrset| {
      assert rrset[..i] == rrset;
    } else {
      assert rrset[..i + 1][..i] == rrset[..i];
      NoItems(owner, ttl, rrset, raw, i + 1);
    }
  }
}
