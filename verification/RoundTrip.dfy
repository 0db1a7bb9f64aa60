/** Parsing undoes packing: for every message whose names have labels of at most 63 bytes and
    whose sections and rdata fit their 16-bit counts. */
module RoundTrip {
  import opened Wrappers
  import opened Text
  import opened NameWalk
  import opened Compression
  import opened Message

  /** What a record's rdata says on the wire: plain bytes, or an optional preference and a name. */
  datatype Payload = Bytes(bytes: Str) | Target(prefix: Str, name: Str)

  ghost function PayloadOf(rr: RR, raw: Str): Payload {
    if HasName(rr.rtype) && RdataName(rr, raw).Some? then Target(MxPreference(rr), RdataName(rr, raw).value)
    else Bytes(MxPreference(rr) + rr.data)
  }

  /** What a caller has to see to: labels of at most 63 bytes, and rdata that its 16-bit
      length can describe even when nothing in it is compressed. */
  ghost predicate Packable(rr: RR, raw: Str) {
    && Short(rr.name)
    && match PayloadOf(rr, raw)
       case Bytes(bytes) => |bytes| < 0x1_0000
       case Target(prefix, name) => Short(name) && |prefix| + |name| + 2 < 0x1_0000
  }

  ghost predicate PackableMessage(m: Message) {
    && |m.questions| < 0x1_0000 && |m.answers| < 0x1_0000
    && |m.authority| < 0x1_0000 && |m.additional| < 0x1_0000
    && (forall i :: 0 <= i < |m.questions| ==> Short(m.questions[i].name))
    && (forall i :: 0 <= i < |m.answers| ==> Packable(m.answers[i], m.raw))
    && (forall i :: 0 <= i < |m.authority| ==> Packable(m.authority[i], m.raw))
    && (forall i :: 0 <= i < |m.additional| ==> Packable(m.additional[i], m.raw))
  }

  /** A parsed record says what the packed one said: fields equal, names equal up to case and
      redundant dots, plain rdata byte for byte, a name in rdata read back inside its packet. */
  ghost predicate SameRR(rr: RR, raw: Str, got: RR, packet: Str) {
    && got.rtype == rr.rtype && got.rclass == rr.rclass && got.ttl == rr.ttl
    && SameName(got.name, Canon(rr.name))
    && 12 <= got.offset <= |packet|
    && match PayloadOf(rr, raw)
       case Bytes(bytes) => got.data == bytes
       case Target(prefix, name) =>
         && prefix <= got.data && |prefix| == NameOffset(rr.rtype)
         && Parsed(packet, got.offset + |prefix|).Ok?
         && SameName(Parsed(packet, got.offset + |prefix|).value.0, Canon(name))
         && RdataName(got, packet) == Some(Parsed(packet, got.offset + |prefix|).value.0)
  }

  ghost predicate SameQuestion(q: Question, got: Question) {
    got.qtype == q.qtype && got.qclass == q.qclass && SameName(got.name, Canon(q.name))
  }

  ghost predicate SameQuestions(qs: seq<Question>, got: seq<Question>, n: nat) {
    |got| == n <= |qs| && forall i :: 0 <= i < n ==> SameQuestion(qs[i], got[i])
  }

  ghost predicate SameRRs(rrs: seq<RR>, raw: Str, got: seq<RR>, n: nat, packet: Str) {
    |got| == n <= |rrs| && forall i :: 0 <= i < n ==> SameRR(rrs[i], raw, got[i], packet)
  }

  ghost predicate SameMessage(m: Message, got: Message) {
    && got.header == Header(m.header.id, m.header.flags, |m.questions| % 0x1_0000, |m.answers| % 0x1_0000,
                            |m.authority| % 0x1_0000, |m.additional| % 0x1_0000)
    && SameQuestions(m.questions, got.questions, |m.questions|)
    && SameRRs(m.answers, m.raw, got.answers, |m.answers|, got.raw)
    && SameRRs(m.authority, m.raw, got.authority, |m.authority|, got.raw)
    && SameRRs(m.additional, m.raw, got.additional, |m.additional|, got.raw)
  }

  /* ----- Questions ----- */

  /** One question parses to what was packed, and parsing resumes at `at`. */
  ghost predicate QuestionReads(q: Question, r: Result<(Question, nat), ParseError>, at: nat) {
    exists got :: r == Ok((got, at)) && SameQuestion(q, got)
  }

  ghost predicate QuestionsRead(qs: seq<Question>, n: nat, r: Result<(seq<Question>, nat), ParseError>, at: nat) {
    exists got :: r == Ok((got, at)) && SameQuestions(qs, got, n)
  }

  lemma QuestionDecodes(st: Emitted, q: Question, full: Str)
    requires TableOk(st.bytes, st.names) && Short(q.name)
    requires PackedQuestion(st, q).bytes <= full
    ensures TableOk(PackedQuestion(st, q).bytes, PackedQuestion(st, q).names)
    ensures QuestionReads(q, ParsedQuestion(full, |st.bytes|), |PackedQuestion(st, q).bytes|)
  {
    var e := Onto(st.bytes, EmitName(|st.bytes|, q.name, st.names));
    NameDecodes(st.bytes, q.name, st.names, full);
    TableStable(e.bytes, PackedQuestion(st, q).bytes, e.names);
  }

  lemma NoQuestions(qs: seq<Question>, at: nat)
    ensures QuestionsRead(qs, 0, Ok(([], at)), at)
  {
    var none: seq<Question> := [];
    assert SameQuestions(qs, none, 0);
  }

  lemma QuestionsStep(qs: seq<Question>, n: nat, r: Result<(seq<Question>, nat), ParseError>, mid: nat,
                      q: Result<(Question, nat), ParseError>, end: nat)
    requires n < |qs| && QuestionsRead(qs, n, r, mid) && QuestionReads(qs[n], q, end)
    ensures r.Ok? && q.Ok? && QuestionsRead(qs, n + 1, Ok((r.value.0 + [q.value.0], q.value.1)), end)
  {
    assert SameQuestions(qs, r.value.0 + [q.value.0], n + 1);
  }

  lemma QuestionGrows(st: Emitted, q: Question, full: Str)
    requires PackedQuestion(st, q).bytes <= full
    ensures st.bytes <= full
  {
    assert st.bytes <= PackedQuestion(st, q).bytes;
  }

  /** The first n packed questions parse back, and parsing resumes behind them. */
  lemma {:induction false} QuestionsDecode(st: Emitted, qs: seq<Question>, n: nat, full: Str)
    requires TableOk(st.bytes, st.names) && n <= |qs|
    requires forall i :: 0 <= i < |qs| ==> Short(qs[i].name)
    requires PackedQuestions(st, qs, n).bytes <= full
    ensures TableOk(PackedQuestions(st, qs, n).bytes, PackedQuestions(st, qs, n).names)
    ensures QuestionsRead(qs, n, ParsedQuestions(full, |st.bytes|, n), |PackedQuestions(st, qs, n).bytes|)
  {
    hide ParsedQuestion, PackedQuestion, QuestionReads, TableOk, Short, SameQuestions;
    if n == 0 {
      NoQuestions(qs, |st.bytes|);
    } else {
      var mid := PackedQuestions(st, qs, n - 1);
      QuestionGrows(mid, qs[n - 1], full);
      QuestionsDecode(st, qs, n - 1, full);
      QuestionDecodes(mid, qs[n - 1], full);
      QuestionsStep(qs, n - 1, ParsedQuestions(full, |st.bytes|, n - 1), |mid.bytes|,
                    ParsedQuestion(full, |mid.bytes|), |PackedQuestions(st, qs, n).bytes|);
    }
  }

  /* ----- One record ----- */

  lemma {:induction false} TrimFits(s: Str)
    ensures |Trim(s)| <= |s|
  {
    TrimLeftFits(s);
    TrimRightFits(TrimLeft(s));
  }

  lemma {:induction false} TrimLeftFits(s: Str)
    ensures |TrimLeft(s)| <= |s|
  {
    if s != [] && s[0] == DOT { TrimLeftFits(s[1..]); }
  }

  lemma {:induction false} TrimRightFits(s: Str)
    ensures |TrimRight(s)| <= |s|
  {
    if s != [] && s[|s| - 1] == DOT { TrimRightFits(s[..|s| - 1]); }
  }

  lemma NameSize(pos: nat, name: Str, names: Table)
    ensures 1 <= |EmitName(pos, name, names).bytes| <= |name| + 2
  {
    TrimFits(name);
    JoinSplit(Trim(name));
    EmitBytes(pos, Split(Trim(name)), names);
  }

  /** Packed rdata keeps within the size its caller vouched for, so its length field is exact. */
  lemma RdataSize(pos: nat, rr: RR, raw: Str, names: Table)
    requires Packable(rr, raw)
    ensures |EmitRdata(pos, rr, raw, names).bytes| < 0x1_0000
  {
    if HasName(rr.rtype) && RdataName(rr, raw).Some? {
      NameSize(pos + |MxPreference(rr)|, RdataName(rr, raw).value, names);
    } else {
      assert MxPreference(rr) + rr.data == if HasName(rr.rtype) then MxPreference(rr) + rr.data else rr.data;
    }
  }

  /** The fixed fields, read back from behind the owner name. */
  lemma FixedReads(head: Str, rr: RR, rdlen: nat, full: Str)
    requires rdlen < 0x1_0000 && head + FixedBytes(rr, rdlen) <= full
    ensures |FixedBytes(rr, rdlen)| == 10
    ensures U16At(full, |head|) == rr.rtype && U16At(full, |head| + 2) == rr.rclass
    ensures U32At(full, |head| + 4) == rr.ttl && U16At(full, |head| + 8) == rdlen
  {
    var b := head + FixedBytes(rr, rdlen);
    forall i | 0 <= i < |b| ensures full[i] == b[i] {}
    var hi, lo := rr.ttl / 0x1_0000, rr.ttl % 0x1_0000;
    assert b[|head|..] == FixedBytes(rr, rdlen);
  }

  lemma RdataShape(pos: nat, rr: RR, raw: Str, names: Table)
    ensures match PayloadOf(rr, raw)
            case Bytes(bytes) => EmitRdata(pos, rr, raw, names) == Emitted(bytes, names)
            case Target(prefix, name) =>
              && |prefix| == NameOffset(rr.rtype)
              && EmitRdata(pos, rr, raw, names) ==
                 Emitted(prefix + EmitName(pos + |prefix|, name, names).bytes,
                         EmitName(pos + |prefix|, name, names).names)
  {
    assert !HasName(rr.rtype) ==> MxPreference(rr) + rr.data == rr.data;
  }

  /** A name packed behind a prefix (an MX preference, or nothing). */
  lemma TargetDecodes(buf: Str, prefix: Str, name: Str, names: Table, full: Str)
    requires TableOk(buf, names) && Short(name)
    requires buf + prefix + EmitName(|buf| + |prefix|, name, names).bytes <= full
    ensures var e := EmitName(|buf| + |prefix|, name, names);
            TableOk(buf + prefix + e.bytes, e.names)
    ensures Parsed(full, |buf| + |prefix|).Ok?
    ensures SameName(Parsed(full, |buf| + |prefix|).value.0, Canon(name))
  {
    TableStable(buf, buf + prefix, names);
    NameDecodes(buf + prefix, name, names, full);
  }

  /** What the payload of a record, packed behind `at`, reads back as. */
  ghost predicate PayloadReads(at: nat, rr: RR, raw: Str, rdata: Str, full: Str) {
    match PayloadOf(rr, raw)
    case Bytes(bytes) => rdata == bytes
    case Target(prefix, name) =>
      && prefix <= rdata && |prefix| == NameOffset(rr.rtype) && at + |prefix| < |full|
      && Parsed(full, at + |prefix|).Ok?
      && SameName(Parsed(full, at + |prefix|).value.0, Canon(name))
  }

  lemma RdataDecodes(buf: Str, rr: RR, raw: Str, names: Table, full: Str)
    requires TableOk(buf, names) && Packable(rr, raw)
    requires buf + EmitRdata(|buf|, rr, raw, names).bytes <= full
    ensures var d := EmitRdata(|buf|, rr, raw, names);
            TableOk(buf + d.bytes, d.names) && PayloadReads(|buf|, rr, raw, d.bytes, full)
  {
    hide EmitName, EmitRdata, Parsed, Lower, Canon, Entry;
    RdataShape(|buf|, rr, raw, names);
    var d := EmitRdata(|buf|, rr, raw, names);
    match PayloadOf(rr, raw)
    case Bytes(bytes) =>
      TableStable(buf, buf + bytes, names);
    case Target(prefix, name) =>
      var e := EmitName(|buf| + |prefix|, name, names);
      NameSize(|buf| + |prefix|, name, names);
      assert buf + d.bytes == buf + prefix + e.bytes;
      TargetDecodes(buf, prefix, name, names, full);
  }

  /** A record whose payload sits at `got.offset` says the same as the record packed. */
  lemma PayloadMatches(rr: RR, raw: Str, got: RR, full: Str)
    requires 12 <= got.offset <= |full|
    requires got.rtype == rr.rtype && got.rclass == rr.rclass && got.ttl == rr.ttl
    requires SameName(got.name, Canon(rr.name))
    requires PayloadReads(got.offset, rr, raw, got.data, full)
    ensures SameRR(rr, raw, got, full)
  {
  }

  /** Where the fixed fields and the rdata of a packed record sit in the packet. */
  ghost predicate Laid(at: nat, rr: RR, rdata: Str, full: Str) {
    && at + 10 + |rdata| <= |full| && |rdata| < 0x1_0000
    && U16At(full, at) == rr.rtype && U16At(full, at + 2) == rr.rclass
    && U32At(full, at + 4) == rr.ttl && U16At(full, at + 8) == |rdata|
    && full[at + 10..at + 10 + |rdata|] == rdata
  }

  lemma FixedLaid(head: Str, rr: RR, rdata: Str, full: Str)
    requires |rdata| < 0x1_0000 && head + FixedBytes(rr, |rdata|) + rdata <= full
    ensures Laid(|head|, rr, rdata, full)
  {
    FixedReads(head, rr, |rdata|, full);
    var at := |head| + 10;
    assert (head + FixedBytes(rr, |rdata|) + rdata)[at..at + |rdata|] == rdata;
  }

  /** The record parseRRs reads, given its name and layout. */
  lemma RecordParses(start: nat, at: nat, rr: RR, rdata: Str, full: Str) returns (got: RR)
    requires Parsed(full, start).Ok? && Parsed(full, start).value.1 == at
    requires Laid(at, rr, rdata, full)
    ensures got == RR(Parsed(full, start).value.0, rr.rtype, rr.rclass, rr.ttl, rdata, at + 10)
    ensures ParsedRR(full, start) == Ok((got, at + 10 + |rdata|))
  {
    got := RR(Parsed(full, start).value.0, rr.rtype, rr.rclass, rr.ttl, rdata, at + 10);
  }

  /** One record parses to what was packed, and parsing resumes at `at`. */
  ghost predicate RecordReads(rr: RR, raw: Str, r: Result<(RR, nat), ParseError>, at: nat, full: Str) {
    exists got :: r == Ok((got, at)) && SameRR(rr, raw, got, full)
  }

  ghost predicate RecordsRead(rrs: seq<RR>, raw: Str, n: nat, r: Result<(seq<RR>, nat), ParseError>, at: nat,
                              full: Str) {
    exists got :: r == Ok((got, at)) && SameRRs(rrs, raw, got, n, full)
  }

  lemma RecordDecodes(st: Emitted, rr: RR, raw: Str, full: Str)
    requires TableOk(st.bytes, st.names) && |st.bytes| >= 12 && Packable(rr, raw)
    requires PackedRR(st, rr, raw).bytes <= full
    ensures TableOk(PackedRR(st, rr, raw).bytes, PackedRR(st, rr, raw).names)
    ensures RecordReads(rr, raw, ParsedRR(full, |st.bytes|), |PackedRR(st, rr, raw).bytes|, full)
  {
    hide Lower, Canon, Entry, Parsed, ParsedRR, EmitName, EmitRdata, SameRR;
    var e := Onto(st.bytes, EmitName(|st.bytes|, rr.name, st.names));
    var d := EmitRdata(|e.bytes| + 10, rr, raw, e.names);
    var buf := e.bytes + FixedBytes(rr, |d.bytes|);
    RecordDecodesFrom(st, rr, raw, full, e, buf, d);
  }

  lemma RecordDecodesFrom(st: Emitted, rr: RR, raw: Str, full: Str, e: Emitted, buf: Str, d: Emitted)
    requires TableOk(st.bytes, st.names) && |st.bytes| >= 12 && Packable(rr, raw)
    requires e == Onto(st.bytes, EmitName(|st.bytes|, rr.name, st.names))
    requires d == EmitRdata(|buf|, rr, raw, e.names)
    requires buf == e.bytes + FixedBytes(rr, |d.bytes|) && |buf| == |e.bytes| + 10
    requires buf + d.bytes <= full
    ensures TableOk(buf + d.bytes, d.names)
    ensures RecordReads(rr, raw, ParsedRR(full, |st.bytes|), |buf| + |d.bytes|, full)
  {
    hide Lower, Canon, FixedBytes, Laid, PayloadReads, SameRR, Entry, Parsed, ParsedRR, EmitName, EmitRdata;
    NameDecodes(st.bytes, rr.name, st.names, full);
    RdataSize(|buf|, rr, raw, e.names);
    FixedLaid(e.bytes, rr, d.bytes, full);
    var got := RecordParses(|st.bytes|, |e.bytes|, rr, d.bytes, full);
    assert TableOk(buf, e.names) by { TableStable(e.bytes, buf, e.names); }
    RdataDecodes(buf, rr, raw, e.names, full);
    assert SameName(got.name, Canon(rr.name));
    PayloadMatches(rr, raw, got, full);
  }

  ghost predicate AllPackable(rrs: seq<RR>, raw: Str) {
    forall i :: 0 <= i < |rrs| ==> Packable(rrs[i], raw)
  }

  lemma NoRecords(rrs: seq<RR>, raw: Str, at: nat, full: Str)
    ensures RecordsRead(rrs, raw, 0, Ok(([], at)), at, full)
  {
    var none: seq<RR> := [];
    assert SameRRs(rrs, raw, none, 0, full);
  }

  lemma RecordsStep(rrs: seq<RR>, raw: Str, n: nat, r: Result<(seq<RR>, nat), ParseError>, mid: nat,
                    q: Result<(RR, nat), ParseError>, end: nat, full: Str)
    requires n < |rrs| && RecordsRead(rrs, raw, n, r, mid, full) && RecordReads(rrs[n], raw, q, end, full)
    ensures r.Ok? && q.Ok? && RecordsRead(rrs, raw, n + 1, Ok((r.value.0 + [q.value.0], q.value.1)), end, full)
  {
    assert SameRRs(rrs, raw, r.value.0 + [q.value.0], n + 1, full);
  }

  lemma RecordGrows(st: Emitted, rr: RR, raw: Str, full: Str)
    requires PackedRR(st, rr, raw).bytes <= full
    ensures st.bytes <= full && |st.bytes| <= |PackedRR(st, rr, raw).bytes|
  {
    assert st.bytes <= PackedRR(st, rr, raw).bytes;
  }

  lemma {:induction false} PackedGrows(st: Emitted, rrs: seq<RR>, raw: Str, n: nat, full: Str)
    requires n <= |rrs| && PackedRRs(st, rrs, raw, n).bytes <= full
    ensures st.bytes <= full && |st.bytes| <= |PackedRRs(st, rrs, raw, n).bytes|
  {
    hide PackedRR;
    if n > 0 {
      RecordGrows(PackedRRs(st, rrs, raw, n - 1), rrs[n - 1], raw, full);
      PackedGrows(st, rrs, raw, n - 1, full);
    }
  }

  /** The first n packed records of a section parse back, and parsing resumes behind them. */
  lemma {:induction false} RecordsDecode(st: Emitted, rrs: seq<RR>, raw: Str, n: nat, full: Str)
    requires TableOk(st.bytes, st.names) && |st.bytes| >= 12 && AllPackable(rrs, raw) && n <= |rrs|
    requires PackedRRs(st, rrs, raw, n).bytes <= full
    ensures TableOk(PackedRRs(st, rrs, raw, n).bytes, PackedRRs(st, rrs, raw, n).names)
    ensures RecordsRead(rrs, raw, n, ParsedRRs(full, |st.bytes|, n), |PackedRRs(st, rrs, raw, n).bytes|, full)
  {
    hide ParsedRR, PackedRR, RecordReads, TableOk, Packable, SameRRs;
    if n == 0 {
      NoRecords(rrs, raw, |st.bytes|, full);
    } else {
      var mid := PackedRRs(st, rrs, raw, n - 1);
      RecordGrows(mid, rrs[n - 1], raw, full);
      PackedGrows(st, rrs, raw, n - 1, full);
      RecordsDecode(st, rrs, raw, n - 1, full);
      RecordDecodes(mid, rrs[n - 1], raw, full);
      RecordsStep(rrs, raw, n - 1, ParsedRRs(full, |st.bytes|, n - 1), |mid.bytes|,
                  ParsedRR(full, |mid.bytes|), |PackedRRs(st, rrs, raw, n).bytes|, full);
    }
  }

  lemma HeaderReads(m: Message, full: Str)
    requires HeaderBytes(m) <= full
    ensures |HeaderBytes(m)| == 12
    ensures ParsedHeader(full) ==
            Header(m.header.id, m.header.flags, |m.questions| % 0x1_0000, |m.answers| % 0x1_0000,
                   |m.authority| % 0x1_0000, |m.additional| % 0x1_0000)
  {
    var b := HeaderBytes(m);
    forall i | 0 <= i < |b| ensures full[i] == b[i] {}
  }

  lemma {:induction false} QuestionsGrow(st: Emitted, qs: seq<Question>, n: nat, full: Str)
    requires n <= |qs| && PackedQuestions(st, qs, n).bytes <= full
    ensures st.bytes <= full && |st.bytes| <= |PackedQuestions(st, qs, n).bytes|
  {
    if n > 0 {
      QuestionGrows(PackedQuestions(st, qs, n - 1), qs[n - 1], full);
      QuestionsGrow(st, qs, n - 1, full);
    }
  }

  /** The round trip: packing any message and parsing the packet gives the same message. */
  lemma {:induction false} PackThenParse(m: Message)
    requires PackableMessage(m)
    ensures var r := ParsedMessage(PackedMessage(m).bytes);
            r.Ok? && SameMessage(m, r.value) && r.value.raw == PackedMessage(m).bytes
  {
    hide *;
    var full := PackedMessage(m).bytes;
    var st := Emitted(HeaderBytes(m), map[]);
    var q := PackedQuestions(st, m.questions, |m.questions|);
    var an := PackedRRs(q, m.answers, m.raw, |m.answers|);
    var ns := PackedRRs(an, m.authority, m.raw, |m.authority|);
    var ar := PackedRRs(ns, m.additional, m.raw, |m.additional|);
    assert full == ar.bytes by { PackedMessageIs(m); }
    PackableParts(m);
    EmptyTableOk(HeaderBytes(m));
    PackedGrows(ns, m.additional, m.raw, |m.additional|, full);
    PackedGrows(an, m.authority, m.raw, |m.authority|, full);
    PackedGrows(q, m.answers, m.raw, |m.answers|, full);
    QuestionsGrow(st, m.questions, |m.questions|, full);
    HeaderReads(m, full);
    QuestionsDecode(st, m.questions, |m.questions|, full);
    RecordsDecode(q, m.answers, m.raw, |m.answers|, full);
    RecordsDecode(an, m.authority, m.raw, |m.authority|, full);
    RecordsDecode(ns, m.additional, m.raw, |m.additional|, full);
    SectionsParse(m, full, |q.bytes|, |an.bytes|, |ns.bytes|, |ar.bytes|);
  }

  lemma PackedMessageIs(m: Message)
    ensures var q := PackedQuestions(Emitted(HeaderBytes(m), map[]), m.questions, |m.questions|);
            var an := PackedRRs(q, m.answers, m.raw, |m.answers|);
            var ns := PackedRRs(an, m.authority, m.raw, |m.authority|);
            PackedMessage(m) == PackedRRs(ns, m.additional, m.raw, |m.additional|)
  {
    hide HeaderBytes, PackedQuestions, PackedRRs;
  }

  lemma PackableParts(m: Message)
    requires PackableMessage(m)
    ensures |m.questions| < 0x1_0000 && |m.answers| < 0x1_0000 && |m.authority| < 0x1_0000 && |m.additional| < 0x1_0000
    ensures AllPackable(m.answers, m.raw) && AllPackable(m.authority, m.raw) && AllPackable(m.additional, m.raw)
    ensures forall i :: 0 <= i < |m.questions| ==> Short(m.questions[i].name)
  {
    hide Packable, Short;
  }

  lemma EmptyTableOk(buf: Str)
    ensures TableOk(buf, map[])
  {
  }

  /** Sections that read back one behind the other make up the message. */
  lemma SectionsParse(m: Message, full: Str, at: nat, at1: nat, at2: nat, at3: nat)
    requires |full| >= 12 && |m.questions| < 0x1_0000 && |m.answers| < 0x1_0000
    requires |m.authority| < 0x1_0000 && |m.additional| < 0x1_0000
    requires ParsedHeader(full) == Header(m.header.id, m.header.flags, |m.questions| % 0x1_0000, |m.answers| % 0x1_0000,
                                          |m.authority| % 0x1_0000, |m.additional| % 0x1_0000)
    requires QuestionsRead(m.questions, |m.questions|, ParsedQuestions(full, 12, |m.questions|), at)
    requires RecordsRead(m.answers, m.raw, |m.answers|, ParsedRRs(full, at, |m.answers|), at1, full)
    requires RecordsRead(m.authority, m.raw, |m.authority|, ParsedRRs(full, at1, |m.authority|), at2, full)
    requires RecordsRead(m.additional, m.raw, |m.additional|, ParsedRRs(full, at2, |m.additional|), at3, full)
    ensures var r := ParsedMessage(full); r.Ok? && SameMessage(m, r.value) && r.value.raw == full
  {
    hide ParsedHeader, ParsedQuestions, ParsedRRs, SameQuestions, SameRRs;
  }

  /** Rdata with no readable name comes back byte for byte, except for MX, where the preference
      has been written in front of the whole rdata once more. */
  lemma PlainDataSurvivesIff(rr: RR, raw: Str, got: RR, packet: Str)
    requires SameRR(rr, raw, got, packet) && PayloadOf(rr, raw).Bytes?
    ensures got.data == rr.data <==> rr.rtype != TYPE_MX
  {
    assert [] + rr.data == rr.data;
  }
}
