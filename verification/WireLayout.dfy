/** The formats of RFC 1035, section 4.1, in plain arithmetic on bytes: what parsing takes from which byte of a
    packet, and what packing puts there. */
module WireLayout {
  import opened Wrappers
  import opened Text
  import opened NameWalk
  import opened Compression
  import opened Message
  import RoundTrip

  /** Big-endian integers of two and of four bytes (section 2.3.2). */
  function Two(buf: Str, at: nat): int
    requires at + 2 <= |buf|
  {
    buf[at] as int * 256 + buf[at + 1] as int
  }

  function Four(buf: Str, at: nat): int
    requires at + 4 <= |buf|
  {
    buf[at] as int * 16777216 + buf[at + 1] as int * 65536 + buf[at + 2] as int * 256 + buf[at + 3] as int
  }

  /* ----- What parsing takes from where ----- */

  /** Section 4.1.1: six fields of two bytes each, and as many entries in each section as the header says. */
  lemma MessageLayout(buf: Str)
    requires ParsedMessage(buf).Ok?
    ensures var m := ParsedMessage(buf).value;
            && |buf| >= 12 && m.raw == buf
            && m.header.id == Two(buf, 0)
            && m.header.flags == Two(buf, 2)
            && |m.questions| == Two(buf, 4)
            && |m.answers| == Two(buf, 6)
            && |m.authority| == Two(buf, 8)
            && |m.additional| == Two(buf, 10)
  {
    var h := ParsedHeader(buf);
    HeaderLayout(buf);
    QuestionCount(buf, 12, h.qd);
    var q := ParsedQuestions(buf, 12, h.qd).value.1;
    RecordCount(buf, q, h.an);
    var an := ParsedRRs(buf, q, h.an).value.1;
    RecordCount(buf, an, h.ns);
    RecordCount(buf, ParsedRRs(buf, an, h.ns).value.1, h.ar);
    hide ParsedRRs, ParsedQuestions, ParsedHeader;
  }

  lemma HeaderLayout(buf: Str)
    requires |buf| >= 12
    ensures var h := ParsedHeader(buf);
            && h.id == Two(buf, 0) && h.flags == Two(buf, 2)
            && h.qd == Two(buf, 4) && h.an == Two(buf, 6)
            && h.ns == Two(buf, 8) && h.ar == Two(buf, 10)
  {
  }

  lemma {:induction false} QuestionCount(buf: Str, offset: nat, count: nat)
    requires ParsedQuestions(buf, offset, count).Ok?
    ensures |ParsedQuestions(buf, offset, count).value.0| == count
  {
    hide ParsedQuestion;
    if count > 0 { QuestionCount(buf, offset, count - 1); }
  }

  lemma {:induction false} RecordCount(buf: Str, offset: nat, count: nat)
    requires ParsedRRs(buf, offset, count).Ok?
    ensures |ParsedRRs(buf, offset, count).value.0| == count
  {
    hide ParsedRR;
    if count > 0 { RecordCount(buf, offset, count - 1); }
  }

  /** Section 4.1.2: a question is a name, two bytes of type and two of class. */
  lemma QuestionLayout(buf: Str, offset: nat, name: Str, n: nat)
    requires Parsed(buf, offset) == Ok((name, n))
    ensures ParsedQuestion(buf, offset).Ok? <==> n + 4 <= |buf|
    ensures ParsedQuestion(buf, offset).Ok? ==>
              var (q, next) := ParsedQuestion(buf, offset).value;
              && q.name == name && next == n + 4
              && q.qtype == Two(buf, n) && q.qclass == Two(buf, n + 2)
  {
    hide Parsed;
  }

  /** Section 4.1.3: a record is a name, type, class, a TTL of four bytes, a length, and that many bytes. */
  lemma RecordLayout(buf: Str, offset: nat, name: Str, n: nat)
    requires Parsed(buf, offset) == Ok((name, n))
    ensures ParsedRR(buf, offset).Ok?
            <==> n + 10 <= |buf| && n + 10 + Two(buf, n + 8) <= |buf|
    ensures ParsedRR(buf, offset).Ok? ==>
              var (rr, next) := ParsedRR(buf, offset).value;
              && rr.name == name && rr.offset == n + 10 && next == n + 10 + |rr.data|
              && rr.rtype == Two(buf, n) && rr.rclass == Two(buf, n + 2)
              && rr.ttl == Four(buf, n + 4)
              && |rr.data| == Two(buf, n + 8)
              && forall i :: 0 <= i < |rr.data| ==> rr.data[i] == buf[n + 10 + i]
  {
    hide Parsed;
  }

  /** The records of a section lie one behind the other. */
  lemma {:induction false} SectionLayout(buf: Str, offset: nat, count: nat) returns (at: seq<nat>)
    requires ParsedRRs(buf, offset, count).Ok?
    ensures var (rrs, end) := ParsedRRs(buf, offset, count).value;
            && |rrs| == count && |at| == count + 1 && at[0] == offset && at[count] == end
            && forall i :: 0 <= i < count ==> ParsedRR(buf, at[i]) == Ok((rrs[i], at[i + 1]))
  {
    hide ParsedRR;
    if count == 0 {
      at := [offset];
    } else {
      at := SectionLayout(buf, offset, count - 1);
      at := at + [ParsedRRs(buf, offset, count).value.1];
    }
  }

  /** Section 4.1.4: a byte from 1 to 63 is the length of a label, two bytes from 192 on are a pointer, a zero
      ends the name. */
  lemma NameLayout(buf: Str, at: nat)
    requires at + 1 < |buf|
    ensures HopAt(buf, at).End? <==> buf[at] == 0
    ensures HopAt(buf, at).Label? <==> 1 <= buf[at] <= 63 && at + buf[at] < |buf|
    ensures HopAt(buf, at).Label? ==>
              && HopAt(buf, at).next == at + 1 + buf[at] && |HopAt(buf, at).text| == buf[at]
              && forall i :: 0 <= i < buf[at] ==> HopAt(buf, at).text[i] == buf[at + 1 + i]
    ensures HopAt(buf, at).Pointer? <==> buf[at] >= 192
    ensures HopAt(buf, at).Pointer? ==> 49152 + HopAt(buf, at).target == Two(buf, at)
  {
  }

  /** Names are separated by dots and folded as ASCII. */
  lemma AsciiNames(c: char)
    requires c < 128 as char
    ensures DOT == '.' as int
    ensures 'A' <= c <= 'Z' ==> LowerByte(c as byte) == c as int - 'A' as int + 'a' as int
    ensures !('A' <= c <= 'Z') ==> LowerByte(c as byte) == c as int
  {
  }

  /* ----- What packing puts where ----- */

  lemma WordBytes(v: u16)
    ensures |U16Bytes(v)| == 2 && Two(U16Bytes(v), 0) == v
  {
  }

  lemma LongBytes(v: u32)
    ensures var b := U32Bytes(v);
            |b| == 4 && Four(b, 0) == v
  {
  }

  ghost predicate HeaderReads(buf: Str, m: Message) {
    && |buf| >= 12
    && Two(buf, 0) == m.header.id
    && Two(buf, 2) == m.header.flags
    && Two(buf, 4) == |m.questions| % 65536
    && Two(buf, 6) == |m.answers| % 65536
    && Two(buf, 8) == |m.authority| % 65536
    && Two(buf, 10) == |m.additional| % 65536
  }

  lemma HeaderWritten(m: Message)
    ensures HeaderReads(HeaderBytes(m), m)
  {
  }

  /** The fixed fields of this record lie at n, and its rdata, of this length, behind them. */
  ghost predicate FixedReads(buf: Str, n: nat, rr: RR, length: nat) {
    && n + 10 + length <= |buf|
    && Two(buf, n) == rr.rtype
    && Two(buf, n + 2) == rr.rclass
    && Four(buf, n + 4) == rr.ttl
    && Two(buf, n + 8) == length % 65536
  }

  lemma FixedWritten(head: Str, rr: RR, rdata: Str, full: Str)
    requires head + FixedBytes(rr, |rdata|) + rdata <= full
    ensures FixedReads(full, |head|, rr, |rdata|)
  {
    var fixed := FixedBytes(rr, |rdata|);
    LongBytes(rr.ttl);
    FixedParts(rr, |rdata|);
    var part := head + fixed + rdata;
    assert |fixed| == 10 && |part| == |head| + 10 + |rdata|;
    forall i | 0 <= i < 10 ensures full[|head| + i] == fixed[i] {
      assert part[|head| + i] == fixed[i];
      assert full[|head| + i] == part[|head| + i];
    }
    hide FixedBytes, U32Bytes;
  }

  lemma FixedParts(rr: RR, length: nat)
    ensures var f := FixedBytes(rr, length);
            && |f| == 10 && Two(f, 0) == rr.rtype && Two(f, 2) == rr.rclass
            && Four(f, 4) == rr.ttl
            && Two(f, 8) == length % 65536
  {
    LongBytes(rr.ttl);
  }

  /** Where the fixed fields of the i-th record of a section begin, and how long its rdata is. */
  lemma SectionWritten(st: Emitted, rrs: seq<RR>, raw: Str, i: nat, full: Str) returns (n: nat, length: nat)
    requires i < |rrs| && PackedRRs(st, rrs, raw, |rrs|).bytes <= full
    ensures FixedReads(full, n, rrs[i], length)
  {
    hide *;
    var before := PackedRRs(st, rrs, raw, i);
    UpTo(st, rrs, raw, i + 1, full);
    n, length := RecordWritten(before, rrs[i], raw, full);
  }

  lemma RecordWritten(st: Emitted, rr: RR, raw: Str, full: Str) returns (n: nat, length: nat)
    requires PackedRR(st, rr, raw).bytes <= full
    ensures FixedReads(full, n, rr, length)
    ensures n == |Onto(st.bytes, EmitName(|st.bytes|, rr.name, st.names)).bytes|
    ensures n + 10 + length == |PackedRR(st, rr, raw).bytes|
  {
    var e := Onto(st.bytes, EmitName(|st.bytes|, rr.name, st.names));
    var d := EmitRdata(|e.bytes| + 10, rr, raw, e.names);
    n, length := |e.bytes|, |d.bytes|;
    FixedParts(rr, |d.bytes|);
    hide EmitName, EmitRdata, FixedReads, FixedBytes, Onto;
    FixedWritten(e.bytes, rr, d.bytes, full);
  }

  /** What is packed later stands behind what is packed earlier. */
  lemma {:induction false} UpTo(st: Emitted, rrs: seq<RR>, raw: Str, n: nat, full: Str)
    requires 0 < n <= |rrs| && PackedRRs(st, rrs, raw, |rrs|).bytes <= full
    ensures PackedRRs(st, rrs, raw, n).bytes <= full
    ensures PackedRRs(st, rrs, raw, n) == PackedRR(PackedRRs(st, rrs, raw, n - 1), rrs[n - 1], raw)
    decreases |rrs| - n
  {
    hide PackedRR;
    if n < |rrs| {
      UpTo(st, rrs, raw, n + 1, full);
      RoundTrip.RecordGrows(PackedRRs(st, rrs, raw, n), rrs[n], raw, full);
    }
  }

  ghost predicate RecordReads(buf: Str, rr: RR) {
    exists n, length: nat :: FixedReads(buf, n, rr, length)
  }

  ghost predicate AllRead(buf: Str, rrs: seq<RR>) {
    forall i :: 0 <= i < |rrs| ==> RecordReads(buf, rrs[i])
  }

  lemma SectionReads(st: Emitted, rrs: seq<RR>, raw: Str, full: Str)
    requires PackedRRs(st, rrs, raw, |rrs|).bytes <= full
    ensures AllRead(full, rrs)
  {
    hide FixedReads, PackedRRs;
    forall i | 0 <= i < |rrs| ensures RecordReads(full, rrs[i]) {
      var n, length := SectionWritten(st, rrs, raw, i, full);
    }
  }

  /** Packing any message writes its header, and every record of its sections, as section 4.1 lays them out. */
  lemma PacketLayout(m: Message)
    ensures var packet := PackedMessage(m).bytes;
            && HeaderReads(packet, m)
            && AllRead(packet, m.answers) && AllRead(packet, m.authority) && AllRead(packet, m.additional)
  {
    hide *;
    var full := PackedMessage(m).bytes;
    var st := Emitted(HeaderBytes(m), map[]);
    var q := PackedQuestions(st, m.questions, |m.questions|);
    var an := PackedRRs(q, m.answers, m.raw, |m.answers|);
    var ns := PackedRRs(an, m.authority, m.raw, |m.authority|);
    assert full == PackedRRs(ns, m.additional, m.raw, |m.additional|).bytes by { RoundTrip.PackedMessageIs(m); }
    RoundTrip.PackedGrows(ns, m.additional, m.raw, |m.additional|, full);
    RoundTrip.PackedGrows(an, m.authority, m.raw, |m.authority|, full);
    RoundTrip.PackedGrows(q, m.answers, m.raw, |m.answers|, full);
    RoundTrip.QuestionsGrow(st, m.questions, |m.questions|, full);
    HeaderWritten(m);
    HeaderStays(HeaderBytes(m), full, m);
    SectionReads(q, m.answers, m.raw, full);
    SectionReads(an, m.authority, m.raw, full);
    SectionReads(ns, m.additional, m.raw, full);
  }

  lemma HeaderStays(buf: Str, full: Str, m: Message)
    requires buf <= full && HeaderReads(buf, m)
    ensures HeaderReads(full, m)
  {
    assert forall i :: 0 <= i < |buf| ==> full[i] == buf[i];
  }

  /* ----- Compression takes place ----- */

  /** Packing a name does not touch the table's entries for longer names. */
  lemma {:induction false} LongerKeysStay(pos: nat, labels: seq<Str>, names: Table, key: Str)
    requires key in names && |key| > |Join(labels)|
    ensures var after := EmitLabels(pos, labels, names).names; key in after && after[key] == names[key]
    decreases |labels|
  {
    if labels != [] {
      JoinLonger(labels);
      var suffix := Lower(Join(labels));
      if labels[0] == [] {
        LongerKeysStay(pos, labels[1..], names, key);
      } else if !(suffix in names && names[suffix] <= MAX_POINTER) {
        var more := if pos <= MAX_POINTER then names[suffix := pos] else names;
        LongerKeysStay(pos + 1 + |labels[0]|, labels[1..], more, key);
      }
    }
  }

  lemma {:induction false} TrimmedStart(s: Str)
    ensures TrimRight(s) != [] ==> TrimRight(s)[0] == s[0]
    decreases |s|
  {
    if s != [] && s[|s| - 1] == DOT { TrimmedStart(s[..|s| - 1]); }
  }

  lemma {:induction false} TrimmedLeft(s: Str)
    ensures TrimLeft(s) == [] || TrimLeft(s)[0] != DOT
  {
    if s != [] && s[0] == DOT { TrimmedLeft(s[1..]); }
  }

  lemma FirstLabelFull(name: Str)
    requires Trim(name) != []
    ensures Split(Trim(name))[0] != [] && Join(Split(Trim(name))) == Trim(name)
  {
    TrimmedLeft(name);
    TrimmedStart(TrimLeft(name));
    JoinSplit(Trim(name));
    var s := Trim(name);
    assert FirstDot(s) > 0;
    hide Trim;
  }

  lemma NamePacked(pos: nat, name: Str, names: Table)
    requires Trim(name) != []
    ensures var key, e := Lower(Trim(name)), EmitName(pos, name, names);
            && (key in names && names[key] <= MAX_POINTER ==> e == Emitted(PointerTo(names[key]), names))
            && (!(key in names && names[key] <= MAX_POINTER) && pos <= MAX_POINTER ==>
                  key in e.names && e.names[key] == pos)
  {
    FirstLabelFull(name);
    var labels := Split(Trim(name));
    var key := Lower(Join(labels));
    hide Trim, Split;
    if !(key in names && names[key] <= MAX_POINTER) && pos <= MAX_POINTER {
      JoinLonger(labels);
      LongerKeysStay(pos + 1 + |labels[0]|, labels[1..], names[key := pos], key);
    }
  }

  /** A name that is packed a second time, in any case, takes two bytes: a pointer to where it was first
      written, if that was within the reach of pointers. */
  lemma RepeatedNameIsPointer(pos: nat, name: Str, names: Table, pos': nat, name': Str)
    requires Trim(name) != [] && Lower(Trim(name')) == Lower(Trim(name)) && pos < 16384
    ensures var first := EmitName(pos, name, names);
            var second := EmitName(pos', name', first.names);
            var off := if Lower(Trim(name)) in names && names[Lower(Trim(name))] < 16384
                       then names[Lower(Trim(name))] else pos;
            second.names == first.names && |second.bytes| == 2 && Two(second.bytes, 0) == 49152 + off
  {
    hide Trim, EmitName;
    NamePacked(pos, name, names);
    NamePacked(pos', name', EmitName(pos, name, names).names);
  }

  /** So does a name in rdata that was packed before, in or in front of this very record. */
  lemma RepeatedRdataIsPointer(pos: nat, rr: RR, raw: Str, names: Table, name: Str)
    requires HasName(rr.rtype) && RdataName(rr, raw) == Some(name) && Trim(name) != []
    requires Lower(Trim(name)) in names && names[Lower(Trim(name))] < 16384
    ensures var e, k := EmitRdata(pos, rr, raw, names), if rr.rtype == 15 then 2 else 0;
            e.names == names && |e.bytes| == k + 2 && Two(e.bytes, k) == 49152 + names[Lower(Trim(name))]
  {
    hide Trim, EmitName, RdataName;
    NamePacked(pos + |MxPreference(rr)|, name, names);
  }

  /** The numbers of the types whose rdata is or holds a name (section 3.2.2). */
  lemma NamedTypes(rtype: u16)
    ensures HasName(rtype) <==> rtype == 2 || rtype == 5 || rtype == 12 || rtype == 15
    ensures HasName(rtype) ==> NameOffset(rtype) == if rtype == 15 then 2 else 0
  {
  }
}
