/** DNS messages on the wire (RFC 1035, section 4.1): packing, parsing, and the round trip. */
module Message {
  import opened Wrappers
  import opened Text
  import opened NameWalk
  import opened Compression

  type u16 = x: int | 0 <= x < 0x1_0000
  type u32 = x: int | 0 <= x < 0x1_0000_0000

  const TYPE_A: u16 := 1
  const TYPE_NS: u16 := 2
  const TYPE_CNAME: u16 := 5
  const TYPE_SOA: u16 := 6
  const TYPE_PTR: u16 := 12
  const TYPE_MX: u16 := 15
  const TYPE_AAAA: u16 := 28
  const TYPE_SRV: u16 := 33

  datatype Question = Question(name: Str, qtype: u16, qclass: u16)

  /** `offset` is where the rdata sat in the packet the record was parsed from. */
  datatype RR = RR(name: Str, rtype: u16, rclass: u16, ttl: u32, data: Str, offset: nat)

  datatype Header = Header(id: u16, flags: u16, qd: u16, an: u16, ns: u16, ar: u16)

  /** `raw` is the packet the records' offsets refer to, empty when there is none. */
  datatype Message = Message(
    header: Header,
    questions: seq<Question>,
    answers: seq<RR>,
    authority: seq<RR>,
    additional: seq<RR>,
    raw: Str)

  datatype ParseError =
    | TooShort
    | QuestionName(error: NameError)
    | QuestionTruncated
    | RecordName(error: NameError)
    | FixedTruncated
    | RdataTruncated

  /* ----- Big-endian integers ----- */

  function U16Bytes(v: u16): Str {
    [(v / 256) as byte, (v % 256) as byte]
  }

  function U32Bytes(v: u32): Str {
    U16Bytes(v / 0x1_0000) + U16Bytes(v % 0x1_0000)
  }

  function U16At(buf: Str, at: nat): u16
    requires at + 2 <= |buf|
  {
    buf[at] as int * 256 + buf[at + 1] as int
  }

  function U32At(buf: Str, at: nat): u32
    requires at + 4 <= |buf|
  {
    U16At(buf, at) as int * 0x1_0000 + U16At(buf, at + 2) as int
  }

  /* ----- Names inside rdata ----- */

  predicate HasName(rtype: u16) {
    rtype == TYPE_NS || rtype == TYPE_CNAME || rtype == TYPE_PTR || rtype == TYPE_MX
  }

  function NameOffset(rtype: u16): nat {
    if rtype == TYPE_MX then 2 else 0
  }

  /** A name with no pointers in it, read from its own bytes only. */
  function Uncompressed(data: Str, at: nat): Result<seq<Str>, NameError>
    decreases |data| - at
  {
    match HopAt(data, at)
    case End => Ok([])
    case Label(text, next) =>
      (match Uncompressed(data, next)
       case Ok(rest) => Ok([text] + rest)
       case Err(e) => Err(e))
    case Pointer(_) => Err(ReservedLabel)
    case Bad(PointerTruncated) => Err(ReservedLabel)
    case Bad(e) => Err(e)
  }

  /** With `labels` read and `i` reached, the rest of the data decides the outcome. */
  ghost predicate Remaining(data: Str, i: nat, labels: seq<Str>) {
    Uncompressed(data, 0) ==
    match Uncompressed(data, i)
    case Ok(rest) => Ok(labels + rest)
    case Err(e) => Err(e)
  }

  lemma RemainingStep(data: Str, i: nat, labels: seq<Str>)
    requires Remaining(data, i, labels)
    ensures HopAt(data, i).End? ==> Uncompressed(data, 0) == Ok(labels)
    ensures HopAt(data, i).Label? ==> Remaining(data, HopAt(data, i).next, labels + [HopAt(data, i).text])
    ensures HopAt(data, i).Pointer? || HopAt(data, i) == Bad(PointerTruncated) ==>
              Uncompressed(data, 0) == Err(ReservedLabel)
    ensures HopAt(data, i).Bad? && HopAt(data, i).error != PointerTruncated ==>
              Uncompressed(data, 0) == Err(HopAt(data, i).error)
  {
    assert labels + [] == labels;
    if HopAt(data, i).Label? {
      var text, next := HopAt(data, i).text, HopAt(data, i).next;
      if Uncompressed(data, next).Ok? {
        var rest := Uncompressed(data, next).value;
        assert labels + ([text] + rest) == (labels + [text]) + rest;
      }
    }
  }

  /** parseUncompressedName: the loop as written. */
  method ParseUncompressed(data: Str) returns (r: Result<Str, NameError>)
    ensures r == match Uncompressed(data, 0) case Ok(labels) => Ok(Join(labels)) case Err(e) => Err(e)
  {
    var name: Str := [];
    var i: nat := 0;
    ghost var labels: seq<Str> := [];
    assert Uncompressed(data, 0).Ok? ==> labels + Uncompressed(data, 0).value == Uncompressed(data, 0).value;
    hide Uncompressed;
    while true
      invariant name == Join(labels) && Plain(labels)
      invariant Remaining(data, i, labels)
      decreases if i <= |data| then |data| - i else 0
    {
      RemainingStep(data, i, labels);
      if i >= |data| {
        return Err(OutOfBounds);
      }
      var length := data[i] as int;
      if length == 0 {
        return Ok(name);
      }
      if length >= 64 {
        return Err(ReservedLabel);
      }
      if i + 1 + length > |data| {
        return Err(LabelOutOfBounds);
      }
      var text := data[i + 1..i + 1 + length];
      assert HopAt(data, i) == Label(text, i + 1 + length);
      NameGrows(labels, text);
      if |name| > 0 { name := name + [DOT]; }
      name := name + text;
      labels := labels + [text];
      i := i + 1 + length;
    }
  }

  /** The name an NS, CNAME, PTR or MX record points at: decoded inside its packet when the
      record came from one, and from the rdata alone otherwise. */
  ghost function RdataName(rr: RR, raw: Str): Option<Str> {
    var off := rr.offset + NameOffset(rr.rtype);
    if 12 <= off < |raw| && Parsed(raw, off).Ok? then Some(Parsed(raw, off).value.0)
    else if |rr.data| < NameOffset(rr.rtype) then None
    else
      match Uncompressed(rr.data[NameOffset(rr.rtype)..], 0)
      case Ok(labels) => Some(Join(labels))
      case Err(_) => None
  }

  method ReadRdataName(rr: RR, raw: Str) returns (r: Option<Str>)
    ensures r == RdataName(rr, raw)
  {
    var off := rr.offset;
    if rr.rtype == TYPE_MX {
      off := off + 2;
    }
    if 12 <= off < |raw| {
      var parsed := ParseName(raw, off);
      if parsed.Ok? {
        return Some(parsed.value.0);
      }
    }
    var data := rr.data;
    if rr.rtype == TYPE_MX {
      if |data| < 2 {
        return None;
      }
      data := data[2..];
    }
    assert data == rr.data[NameOffset(rr.rtype)..];
    var name := ParseUncompressed(data);
    match name
    case Ok(n) => return Some(n);
    case Err(_) => return None;
  }

  /* ----- Packing ----- */

  function MxPreference(rr: RR): Str {
    if rr.rtype != TYPE_MX then []
    else if |rr.data| >= 2 then rr.data[..2]
    else [0, 0]
  }

  ghost function EmitRdata(pos: nat, rr: RR, raw: Str, names: Table): Emitted {
    if !HasName(rr.rtype) then Emitted(rr.data, names)
    else
      var prefix := MxPreference(rr);
      match RdataName(rr, raw)
      case Some(name) =>
        var e := EmitName(pos + |prefix|, name, names);
        Emitted(prefix + e.bytes, e.names)
      case None => Emitted(prefix + rr.data, names)
  }

  lemma EmitRdataCases(buf: Str, rr: RR, raw: Str, names: Table)
    ensures var done, more := Onto(buf, EmitRdata(|buf|, rr, raw, names)), buf + MxPreference(rr);
            && (!HasName(rr.rtype) ==> done == Emitted(buf + rr.data, names))
            && (HasName(rr.rtype) && RdataName(rr, raw).None? ==> done == Emitted(more + rr.data, names))
            && (HasName(rr.rtype) && RdataName(rr, raw).Some? ==>
                  done == Onto(more, EmitName(|more|, RdataName(rr, raw).value, names)))
  {
    hide EmitName, RdataName, HasName, MxPreference;
    var prefix := MxPreference(rr);
    assert buf + prefix + rr.data == buf + (prefix + rr.data);
    if HasName(rr.rtype) && RdataName(rr, raw).Some? {
      OntoAssoc(buf, prefix, EmitName(|buf + prefix|, RdataName(rr, raw).value, names));
    }
  }

  lemma MxPreferenceCases(rr: RR)
    ensures rr.rtype != TYPE_MX ==> MxPreference(rr) == []
    ensures rr.rtype == TYPE_MX && |rr.data| >= 2 ==> MxPreference(rr) == [rr.data[0], rr.data[1]]
    ensures rr.rtype == TYPE_MX && |rr.data| < 2 ==> MxPreference(rr) == [0, 0]
  {
  }

  /** appendRdata. */
  method AppendRdata(buf0: Str, rr: RR, raw: Str, names0: Table) returns (buf: Str, names: Table)
    ensures Emitted(buf, names) == Onto(buf0, EmitRdata(|buf0|, rr, raw, names0))
  {
    hide EmitRdata, EmitName, RdataName, HasName, MxPreference, Onto;
    buf, names := buf0, names0;
    EmitRdataCases(buf0, rr, raw, names0);
    MxPreferenceCases(rr);
    if HasName(rr.rtype) {
      if rr.rtype == TYPE_MX {
        if |rr.data| >= 2 {
          buf := buf + [rr.data[0], rr.data[1]];
        } else {
          buf := buf + [0, 0];
        }
      }
      assert buf == buf0 + MxPreference(rr);
      var name := ReadRdataName(rr, raw);
      if name.Some? {
        buf, names := PackCompressedName(buf, name.value, names);
        return;
      }
    }
    buf := buf + rr.data;
  }

  ghost function PackedQuestion(st: Emitted, q: Question): Emitted {
    var e := Onto(st.bytes, EmitName(|st.bytes|, q.name, st.names));
    Emitted(e.bytes + U16Bytes(q.qtype) + U16Bytes(q.qclass), e.names)
  }

  function FixedBytes(rr: RR, rdlen: nat): Str {
    U16Bytes(rr.rtype) + U16Bytes(rr.rclass) + U32Bytes(rr.ttl) + U16Bytes(rdlen % 0x1_0000)
  }

  ghost function PackedRR(st: Emitted, rr: RR, raw: Str): Emitted {
    var e := Onto(st.bytes, EmitName(|st.bytes|, rr.name, st.names));
    var d := EmitRdata(|e.bytes| + 10, rr, raw, e.names);
    Emitted(e.bytes + FixedBytes(rr, |d.bytes|) + d.bytes, d.names)
  }

  /** The state after the first n questions. */
  ghost function PackedQuestions(st: Emitted, qs: seq<Question>, n: nat): Emitted
    requires n <= |qs|
  {
    if n == 0 then st else PackedQuestion(PackedQuestions(st, qs, n - 1), qs[n - 1])
  }

  /** The state after the first n records of a section. */
  ghost function PackedRRs(st: Emitted, rrs: seq<RR>, raw: Str, n: nat): Emitted
    requires n <= |rrs|
  {
    if n == 0 then st else PackedRR(PackedRRs(st, rrs, raw, n - 1), rrs[n - 1], raw)
  }

  function HeaderBytes(m: Message): Str {
    U16Bytes(m.header.id) + U16Bytes(m.header.flags)
    + U16Bytes(|m.questions| % 0x1_0000) + U16Bytes(|m.answers| % 0x1_0000)
    + U16Bytes(|m.authority| % 0x1_0000) + U16Bytes(|m.additional| % 0x1_0000)
  }

  ghost function PackedMessage(m: Message): Emitted {
    var q := PackedQuestions(Emitted(HeaderBytes(m), map[]), m.questions, |m.questions|);
    var an := PackedRRs(q, m.answers, m.raw, |m.answers|);
    var ns := PackedRRs(an, m.authority, m.raw, |m.authority|);
    PackedRRs(ns, m.additional, m.raw, |m.additional|)
  }

  /** binary.BigEndian.PutUint16(buf[at:at+2], v). */
  function PutU16(buf: Str, at: nat, v: u16): Str
    requires at + 2 <= |buf|
  {
    buf[at := (v / 256) as byte][at + 1 := (v % 256) as byte]
  }

  function PutU32(buf: Str, at: nat, v: u32): Str
    requires at + 4 <= |buf|
  {
    PutU16(PutU16(buf, at, v / 0x1_0000), at + 2, v % 0x1_0000)
  }

  /** Patching the ten zero bytes of a record writes its fixed fields and touches nothing else. */
  lemma PatchFixed(head: Str, rdata: Str, rr: RR)
    ensures var fixed := |head|;
            var b0 := head + [0, 0, 0, 0, 0, 0, 0, 0, 0, 0] + rdata;
            var b1 := PutU16(b0, fixed, rr.rtype);
            var b2 := PutU16(b1, fixed + 2, rr.rclass);
            var b3 := PutU32(b2, fixed + 4, rr.ttl);
            PutU16(b3, fixed + 8, |rdata| % 0x1_0000) == head + FixedBytes(rr, |rdata|) + rdata
  {
  }

  /** The record loop's body: the ten fixed bytes are written as zeros first and patched in
      place once the rdata behind them is known. */
  method PackRR(buf0: Str, rr: RR, raw: Str, names0: Table) returns (buf: Str, names: Table)
    ensures Emitted(buf, names) == PackedRR(Emitted(buf0, names0), rr, raw)
  {
    hide EmitName, EmitRdata, FixedBytes;
    buf, names := PackCompressedName(buf0, rr.name, names0);
    ghost var head := buf;
    ghost var rdata := EmitRdata(|head| + 10, rr, raw, names).bytes;
    var fixed := |buf|;
    buf := buf + [0, 0, 0, 0, 0, 0, 0, 0, 0, 0];
    var rdStart := |buf|;
    buf, names := AppendRdata(buf, rr, raw, names);
    PatchFixed(head, rdata, rr);
    buf := PutU16(buf, fixed, rr.rtype);
    buf := PutU16(buf, fixed + 2, rr.rclass);
    buf := PutU32(buf, fixed + 4, rr.ttl);
    buf := PutU16(buf, fixed + 8, (|buf| - rdStart) % 0x1_0000);
  }

  method PackRRs(buf0: Str, rrs: seq<RR>, raw: Str, names0: Table) returns (buf: Str, names: Table)
    ensures Emitted(buf, names) == PackedRRs(Emitted(buf0, names0), rrs, raw, |rrs|)
  {
    buf, names := buf0, names0;
    for i := 0 to |rrs|
      invariant Emitted(buf, names) == PackedRRs(Emitted(buf0, names0), rrs, raw, i)
    {
      buf, names := PackRR(buf, rrs[i], raw, names);
    }
  }

  method PackHeader(m: Message) returns (buf: Str)
    ensures buf == HeaderBytes(m)
  {
    buf := [0, 0, 0, 0, 0, 0, 0, 0, 0, 0, 0, 0];
    buf := PutU16(buf, 0, m.header.id);
    buf := PutU16(buf, 2, m.header.flags);
    buf := PutU16(buf, 4, |m.questions| % 0x1_0000);
    buf := PutU16(buf, 6, |m.answers| % 0x1_0000);
    buf := PutU16(buf, 8, |m.authority| % 0x1_0000);
    buf := PutU16(buf, 10, |m.additional| % 0x1_0000);
  }

  method PackQuestions(buf0: Str, questions: seq<Question>, names0: Table) returns (buf: Str, names: Table)
    ensures Emitted(buf, names) == PackedQuestions(Emitted(buf0, names0), questions, |questions|)
  {
    buf, names := buf0, names0;
    for i := 0 to |questions|
      invariant Emitted(buf, names) == PackedQuestions(Emitted(buf0, names0), questions, i)
    {
      var q := questions[i];
      buf, names := PackCompressedName(buf, q.name, names);
      ghost var named := buf;
      buf := buf + [0, 0, 0, 0];
      buf := PutU16(buf, |buf| - 4, q.qtype);
      buf := PutU16(buf, |buf| - 2, q.qclass);
      assert buf == named + U16Bytes(q.qtype) + U16Bytes(q.qclass);
    }
  }

  /** Message.Pack. */
  method Pack(m: Message) returns (buf: Str)
    ensures buf == PackedMessage(m).bytes
  {
    buf := PackHeader(m);
    var names: Table := map[];
    buf, names := PackQuestions(buf, m.questions, names);
    buf, names := PackRRs(buf, m.answers, m.raw, names);
    buf, names := PackRRs(buf, m.authority, m.raw, names);
    buf, names := PackRRs(buf, m.additional, m.raw, names);
  }

  /* ----- Parsing ----- */

  ghost function ParsedQuestion(buf: Str, offset: nat): Result<(Question, nat), ParseError> {
    match Parsed(buf, offset)
    case Err(e) => Err(QuestionName(e))
    case Ok((name, n)) =>
      if n + 4 > |buf| then Err(QuestionTruncated)
      else Ok((Question(name, U16At(buf, n), U16At(buf, n + 2)), n + 4))
  }

  ghost function ParsedRR(buf: Str, offset: nat): Result<(RR, nat), ParseError> {
    match Parsed(buf, offset)
    case Err(e) => Err(RecordName(e))
    case Ok((name, n)) =>
      if n + 10 > |buf| then Err(FixedTruncated)
      else
        var rdlen := U16At(buf, n + 8);
        if n + 10 + rdlen > |buf| then Err(RdataTruncated)
        else
          var data := buf[n + 10..n + 10 + rdlen];
          Ok((RR(name, U16At(buf, n), U16At(buf, n + 2), U32At(buf, n + 4), data, n + 10), n + 10 + rdlen))
  }

  ghost function ParsedQuestions(buf: Str, offset: nat, count: nat): Result<(seq<Question>, nat), ParseError> {
    if count == 0 then Ok(([], offset))
    else
      match ParsedQuestions(buf, offset, count - 1)
      case Err(e) => Err(e)
      case Ok((qs, at)) =>
        match ParsedQuestion(buf, at)
        case Err(e) => Err(e)
        case Ok((q, next)) => Ok((qs + [q], next))
  }

  ghost function ParsedRRs(buf: Str, offset: nat, count: nat): Result<(seq<RR>, nat), ParseError> {
    if count == 0 then Ok(([], offset))
    else
      match ParsedRRs(buf, offset, count - 1)
      case Err(e) => Err(e)
      case Ok((rrs, at)) =>
        match ParsedRR(buf, at)
        case Err(e) => Err(e)
        case Ok((rr, next)) => Ok((rrs + [rr], next))
  }

  function ParsedHeader(buf: Str): Header
    requires |buf| >= 12
  {
    Header(U16At(buf, 0), U16At(buf, 2), U16At(buf, 4), U16At(buf, 6), U16At(buf, 8), U16At(buf, 10))
  }

  ghost function ParsedMessage(buf: Str): Result<Message, ParseError> {
    if |buf| < 12 then Err(TooShort)
    else
      var h := ParsedHeader(buf);
      match ParsedQuestions(buf, 12, h.qd)
      case Err(e) => Err(e)
      case Ok((questions, at)) =>
        match ParsedRRs(buf, at, h.an)
        case Err(e) => Err(e)
        case Ok((answers, at1)) =>
          match ParsedRRs(buf, at1, h.ns)
          case Err(e) => Err(e)
          case Ok((authority, at2)) =>
            match ParsedRRs(buf, at2, h.ar)
            case Err(e) => Err(e)
            case Ok((additional, _)) => Ok(Message(h, questions, answers, authority, additional, buf))
  }

  lemma {:induction false} QuestionErrorStays(buf: Str, offset: nat, i: nat, count: nat)
    requires i <= count && ParsedQuestions(buf, offset, i).Err?
    ensures ParsedQuestions(buf, offset, count) == ParsedQuestions(buf, offset, i)
  {
    if i < count { QuestionErrorStays(buf, offset, i, count - 1); }
  }

  lemma QuestionStep(buf: Str, offset: nat, i: nat, count: nat, qs: seq<Question>, at: nat)
    requires i < count && ParsedQuestions(buf, offset, i) == Ok((qs, at))
    ensures match ParsedQuestion(buf, at)
            case Err(e) => ParsedQuestions(buf, offset, count) == Err(e)
            case Ok((q, next)) => ParsedQuestions(buf, offset, i + 1) == Ok((qs + [q], next))
  {
    if ParsedQuestion(buf, at).Err? { QuestionErrorStays(buf, offset, i + 1, count); }
  }

  lemma {:induction false} RecordErrorStays(buf: Str, offset: nat, i: nat, count: nat)
    requires i <= count && ParsedRRs(buf, offset, i).Err?
    ensures ParsedRRs(buf, offset, count) == ParsedRRs(buf, offset, i)
  {
    if i < count { RecordErrorStays(buf, offset, i, count - 1); }
  }

  lemma RecordStep(buf: Str, offset: nat, i: nat, count: nat, rrs: seq<RR>, at: nat)
    requires i < count && ParsedRRs(buf, offset, i) == Ok((rrs, at))
    ensures match ParsedRR(buf, at)
            case Err(e) => ParsedRRs(buf, offset, count) == Err(e)
            case Ok((rr, next)) => ParsedRRs(buf, offset, i + 1) == Ok((rrs + [rr], next))
  {
    if ParsedRR(buf, at).Err? { RecordErrorStays(buf, offset, i + 1, count); }
  }

  /** The body of parseRRs' loop: one record. */
  method ParseRR(buf: Str, offset0: nat) returns (r: Result<(RR, nat), ParseError>)
    ensures r == ParsedRR(buf, offset0)
  {
    var name := ParseName(buf, offset0);
    if name.Err? {
      return Err(RecordName(name.error));
    }
    var offset := name.value.1;
    if offset + 10 > |buf| {
      return Err(FixedTruncated);
    }
    var rtype, rclass := U16At(buf, offset), U16At(buf, offset + 2);
    var ttl, rdlen := U32At(buf, offset + 4), U16At(buf, offset + 8);
    if offset + 10 + rdlen > |buf| {
      return Err(RdataTruncated);
    }
    var data := buf[offset + 10..offset + 10 + rdlen];
    return Ok((RR(name.value.0, rtype, rclass, ttl, data, offset + 10), offset + 10 + rdlen));
  }

  /** parseRRs. */
  method ParseRRs(buf: Str, offset0: nat, count: nat) returns (r: Result<(seq<RR>, nat), ParseError>)
    ensures r == ParsedRRs(buf, offset0, count)
  {
    var rrs: seq<RR> := [];
    var offset := offset0;
    for i := 0 to count
      invariant ParsedRRs(buf, offset0, i) == Ok((rrs, offset))
    {
      RecordStep(buf, offset0, i, count, rrs, offset);
      var rr := ParseRR(buf, offset);
      if rr.Err? {
        return Err(rr.error);
      }
      rrs := rrs + [rr.value.0];
      offset := rr.value.1;
    }
    return Ok((rrs, offset));
  }

  method ParseQuestions(buf: Str, offset0: nat, count: nat) returns (r: Result<(seq<Question>, nat), ParseError>)
    ensures r == ParsedQuestions(buf, offset0, count)
  {
    var questions: seq<Question> := [];
    var offset := offset0;
    for i := 0 to count
      invariant ParsedQuestions(buf, offset0, i) == Ok((questions, offset))
    {
      QuestionStep(buf, offset0, i, count, questions, offset);
      var name := ParseName(buf, offset);
      if name.Err? {
        return Err(QuestionName(name.error));
      }
      offset := name.value.1;
      if offset + 4 > |buf| {
        return Err(QuestionTruncated);
      }
      questions := questions + [Question(name.value.0, U16At(buf, offset), U16At(buf, offset + 2))];
      offset := offset + 4;
    }
    return Ok((questions, offset));
  }

  /** ParseMessage: total on every byte string. */
  method ParseMessage(buf: Str) returns (r: Result<Message, ParseError>)
    ensures r == ParsedMessage(buf)
  {
    if |buf| < 12 {
      return Err(TooShort);
    }
    var h := ParsedHeader(buf);
    var questions := ParseQuestions(buf, 12, h.qd);
    if questions.Err? { return Err(questions.error); }
    var answers := ParseRRs(buf, questions.value.1, h.an);
    if answers.Err? { return Err(answers.error); }
    var authority := ParseRRs(buf, answers.value.1, h.ns);
    if authority.Err? { return Err(authority.error); }
    var additional := ParseRRs(buf, authority.value.1, h.ar);
    if additional.Err? { return Err(additional.error); }
    return Ok(Message(h, questions.value.0, answers.value.0, authority.value.0, additional.value.0, buf));
  }
}
