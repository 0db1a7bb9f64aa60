/** Inputs on which something fails that one might expect of the code: received packets, names, and
    configured zones. The exact conditions are elsewhere, each next to its subject. */
module Witnesses {
  import opened Wrappers
  import opened Text
  import opened NameWalk
  import opened Compression
  import opened Message
  import opened RoundTrip
  import opened Records
  import opened Canonical
  import opened SignatureScope
  import Domains
  import Failures
  import Trails
  import Resolution

  /* ----- Packets with one answer ----- */

  /** A packet with one answer, owned by the root: its rdata is the first `rdlen` of the last bytes. */
  function OneAnswer(rtype: byte, rdlen: byte, rest: Str): Str {
    [0, 0, 0, 0, 0, 0, 0, 1, 0, 0, 0, 0, 0, 0, rtype, 0, 1, 0, 0, 0, 0, 0, rdlen] + rest
  }

  lemma ParsedRoot(buf: Str, at: nat)
    requires at < |buf| && buf[at] == 0
    ensures Parsed(buf, at) == Ok(([], at + 1))
  {
    assert WalkN(buf, at, 1) == Advance(buf, WalkN(buf, at, 0));
    ParsedAt(buf, at, 1);
  }

  lemma ParsedOneLabel(buf: Str, at: nat, l: Str, next: nat)
    requires HopAt(buf, at) == Label(l, next) && next < |buf| && buf[next] == 0
    ensures Parsed(buf, at) == Ok((l, next + 1))
  {
    assert WalkN(buf, at, 1) == Advance(buf, WalkN(buf, at, 0));
    assert WalkN(buf, at, 2) == Advance(buf, WalkN(buf, at, 1));
    ParsedAt(buf, at, 2);
    assert [] + [l] == [l];
  }

  lemma ParsedBadPointer(buf: Str, at: nat)
    requires HopAt(buf, at).Pointer? && HopAt(buf, at).target >= |buf|
    ensures Parsed(buf, at) == Err(OutOfBounds)
  {
    assert WalkN(buf, at, 1) == Advance(buf, WalkN(buf, at, 0));
    assert WalkN(buf, at, 2) == Advance(buf, WalkN(buf, at, 1));
    ParsedAt(buf, at, 2);
  }

  function TheAnswer(rtype: byte, rdlen: byte, rest: Str): RR
    requires rdlen as nat <= |rest|
  {
    RR([], rtype, 1, 0, rest[..rdlen], 23)
  }

  /** The message that such a packet is. */
  function TheMessage(rtype: byte, rdlen: byte, rest: Str): Message
    requires rdlen as nat <= |rest|
  {
    Message(Header(0, 0, 0, 1, 0, 0), [], [TheAnswer(rtype, rdlen, rest)], [], [], OneAnswer(rtype, rdlen, rest))
  }

  lemma OneAnswerRecord(rtype: byte, rdlen: byte, rest: Str)
    requires rdlen as nat <= |rest|
    ensures ParsedRR(OneAnswer(rtype, rdlen, rest), 12) == Ok((TheAnswer(rtype, rdlen, rest), 23 + rdlen as nat))
  {
    var packet := OneAnswer(rtype, rdlen, rest);
    ParsedRoot(packet, 12);
    assert packet[23..23 + rdlen as nat] == rest[..rdlen];
    hide Parsed;
  }

  lemma OneAnswerParses(rtype: byte, rdlen: byte, rest: Str)
    requires rdlen as nat <= |rest|
    ensures ParsedMessage(OneAnswer(rtype, rdlen, rest)) == Ok(TheMessage(rtype, rdlen, rest))
  {
    var packet := OneAnswer(rtype, rdlen, rest);
    OneAnswerRecord(rtype, rdlen, rest);
    assert |packet| >= 12 && ParsedHeader(packet) == Header(0, 0, 0, 1, 0, 0);
    OnlyAnswer(packet, TheAnswer(rtype, rdlen, rest), 23 + rdlen as nat);
  }

  lemma OnlyAnswer(buf: Str, rr: RR, end: nat)
    requires |buf| >= 12 && ParsedHeader(buf) == Header(0, 0, 0, 1, 0, 0) && ParsedRR(buf, 12) == Ok((rr, end))
    ensures ParsedMessage(buf) == Ok(Message(Header(0, 0, 0, 1, 0, 0), [], [rr], [], [], buf))
  {
    hide ParsedRR, ParsedHeader;
    assert ParsedQuestions(buf, 12, 0) == Ok(([], 12));
    assert ParsedRRs(buf, 12, 0) == Ok(([], 12));
    assert [] + [rr] == [rr];
    assert ParsedRRs(buf, 12, 1) == Ok(([rr], end));
    assert ParsedRRs(buf, end, 0) == Ok(([], end));
  }

  /* ----- The codec ----- */

  /** A label of 64 bytes does not survive packing. */
  lemma LongLabelIsLost()
    ensures var name: Str := seq(64, _ => 97);
            var packed := EmitName(0, name, map[]).bytes;
            !(Parsed(packed, 0).Ok? && SameName(Parsed(packed, 0).value.0, Canon(name)))
  {
    var name: Str := seq(64, _ => 97);
    SplitDotless(name);
    NonEmptyId([name]);
    assert Labels(name)[0] == name;
    NameSurvivesIff([], name, map[]);
    hide EmitName, Parsed;
    assert [] + EmitName(0, name, map[]).bytes == EmitName(0, name, map[]).bytes;
  }

  /** A received MX record whose name is a pointer to nowhere has its preference doubled when the message
      is packed again. */
  lemma MxPreferenceIsDoubled()
    ensures var m := TheMessage(15, 4, [0, 10, 255, 255]);
            && ParsedMessage(m.raw) == Ok(m) && m.answers[0].data == [0, 10, 255, 255]
            && var r := ParsedMessage(PackedMessage(m).bytes);
               r.Ok? && |r.value.answers| == 1 && r.value.answers[0].data == [0, 10, 0, 10, 255, 255]
  {
    var m := TheMessage(15, 4, [0, 10, 255, 255]);
    MxAnswer();
    hide *;
    OneAnswerParses(15, 4, [0, 10, 255, 255]);
    PackableAlone(m);
    PackThenParse(m);
    FirstAnswerSame(m, ParsedMessage(PackedMessage(m).bytes).value);
  }

  lemma MxAnswer()
    ensures var m := TheMessage(15, 4, [0, 10, 255, 255]);
            && m.raw == OneAnswer(15, 4, [0, 10, 255, 255])
            && m.questions == [] && m.authority == [] && m.additional == []
            && m.answers == [m.answers[0]] && m.answers[0].data == [0, 10, 255, 255] && m.answers[0].name == []
            && PayloadOf(m.answers[0], m.raw) == Bytes([0, 10, 0, 10, 255, 255])
  {
    var m := TheMessage(15, 4, [0, 10, 255, 255]);
    assert m.answers[0].data == [0, 10, 255, 255];
    NoMxName(m.answers[0], m.raw);
    hide PayloadOf;
  }

  lemma PackableAlone(m: Message)
    requires m.questions == [] && m.authority == [] && m.additional == [] && |m.answers| == 1 && m.answers[0].name == []
    requires PayloadOf(m.answers[0], m.raw).Bytes? && |PayloadOf(m.answers[0], m.raw).bytes| < 0x1_0000
    ensures PackableMessage(m)
  {
    EmptyIsShort();
    hide PayloadOf, Short;
  }

  lemma FirstAnswerSame(m: Message, got: Message)
    requires SameMessage(m, got) && |m.answers| == 1 && PayloadOf(m.answers[0], m.raw).Bytes?
    ensures |got.answers| == 1 && got.answers[0].data == PayloadOf(m.answers[0], m.raw).bytes
  {
    hide PayloadOf, SameQuestion;
    assert SameRR(m.answers[0], m.raw, got.answers[0], got.raw);
  }

  lemma NoMxName(rr: RR, packet: Str)
    requires rr == RR([], TYPE_MX, 1, 0, [0, 10, 255, 255], 23) && packet == OneAnswer(15, 4, [0, 10, 255, 255])
    ensures RdataName(rr, packet) == None && PayloadOf(rr, packet) == Bytes([0, 10, 0, 10, 255, 255])
  {
    ParsedBadPointer(packet, 25);
    assert rr.data[2..] == [255, 255];
    assert HopAt(rr.data[2..], 0).Pointer?;
    assert rr.data[..2] + rr.data == [0, 10, 0, 10, 255, 255];
  }

  lemma EmptyIsShort()
    ensures Short([])
  {
    SplitDotless([]);
  }

  /* ----- Names inside records ----- */

  lemma DotIsNotDotted()
    ensures !Dotted([DOT])
  {
    SplitHead([], []);
    assert [] + [DOT] + [] == [DOT];
    assert Split([DOT])[0] == [];
  }

  /** A received CNAME to the one-byte label "." names something else once it is materialised. */
  lemma DotLabelIsLost(anyRaw: Str)
    ensures var packet := OneAnswer(5, 3, [1, DOT, 0]);
            && ParsedMessage(packet).Ok? && |ParsedMessage(packet).value.answers| == 1
            && var rr := ParsedMessage(packet).value.answers[0];
               rr.rtype == TYPE_CNAME && RdataName(Materialized(rr, packet), anyRaw) != RdataName(rr, packet)
  {
    var packet, rr := OneAnswer(5, 3, [1, DOT, 0]), TheAnswer(5, 3, [1, DOT, 0]);
    OneAnswerParses(5, 3, [1, DOT, 0]);
    DotLabelRead();
    DotIsNotDotted();
    assert rr.rtype == TYPE_CNAME && rr.offset == 23;
    hide *;
    PacketIndependentIff(rr, packet, anyRaw);
  }

  lemma DotLabelRead()
    ensures HasName(TYPE_CNAME)
    ensures NameInPacket(TheAnswer(5, 3, [1, DOT, 0]), OneAnswer(5, 3, [1, DOT, 0])) == Some([DOT])
    ensures TheMessage(5, 3, [1, DOT, 0]).answers == [TheAnswer(5, 3, [1, DOT, 0])]
  {
    var packet := OneAnswer(5, 3, [1, DOT, 0]);
    assert packet[24..25] == [DOT];
    ParsedOneLabel(packet, 23, [DOT], 25);
    hide Parsed;
  }

  /* ----- Zones ----- */

  /** Below the root the chain to "a.." stops at "a", one trailing dot short. */
  lemma ChainMissesTarget()
    ensures var parent: Str, target: Str := [DOT], [97, DOT, DOT];
            var chain := Domains.Chain(parent, target);
            chain != [] && chain[|chain| - 1] != Domains.Normal(target)
  {
    var parent: Str, target: Str := [DOT], [97, DOT, DOT];
    var p, t := Domains.Normal(parent), Domains.Normal(target);
    assert p == [] && t == [97, DOT];
    assert Domains.Normal(t) == [97] && Domains.Normal(p) == [];
    assert Domains.IsDescendant(t, p);
    assert t[1..] == [DOT] && Domains.EndsWith(t, [DOT]);
    hide Domains.Normal, Domains.Chain;
    Domains.ChainEndsAtTarget(parent, target);
  }

  /* ----- Denials ----- */

  /** A network where every read times out, and an empty cache. */
  const TIMEOUTS: Trails.World :=
    Trails.World(_ => Err(Failures.Ascii("read: i/o timeout")), _ => [], _ => Trails.Miss, _ => true, _ => 0)

  /** Resolving a name with NXDOMAIN in it on a network that never answers: nobody denies anything, and the
      failure is remembered as a denial of the name. */
  method UnluckyNameIsDenied(name: Str, qtype: u16, maxDepth: nat)
    returns (r: Result<Message, Failures.Failure>, log: Trails.Log)
    requires Failures.Contains(name, Failures.DENIAL)
    ensures r == Err(Failures.AllFailed(name, Some(Failures.Upstream(Failures.Ascii("read: i/o timeout")))))
    ensures Failures.Denies(r.error)
    ensures forall at: nat, n :: !Trails.DeniedAt(TIMEOUTS, log, at, n, qtype)
  {
    ghost var b := Trails.Bounds(0, 0, |Trails.ROOT_SERVERS|);
    assert Trails.Roomy(b) && Trails.RepliesWithin(TIMEOUTS, b) && Trails.HitsWithin(TIMEOUTS, b);
    assert Trails.Silent(TIMEOUTS);
    ghost var t, levels;
    r, log, t, levels := Resolution.ResolveAt(TIMEOUTS, maxDepth, name, qtype, Trails.ROOT_SERVERS, 0, [], b);
    Failures.DenialExactly(r.error);
  }

  /* ----- Signed data ----- */

  /** A received SOA with empty rdata, its two names read from what follows the record: building the data
      that a signature over it covers slices out of range. */
  lemma ShortSoaHasNoSignedData(sig: Rrsig)
    ensures var packet := OneAnswer(6, 0, [0, 0]);
            && ParsedMessage(packet).Ok? && |ParsedMessage(packet).value.answers| == 1
            && SignedData(sig, ParsedMessage(packet).value.answers, packet) == None
  {
    var packet := OneAnswer(6, 0, [0, 0]);
    OneAnswerParses(6, 0, [0, 0]);
    var answers := ParsedMessage(packet).value.answers;
    ParsedRoot(packet, 23);
    ParsedRoot(packet, 24);
    assert !SoaFits(answers[0], packet);
    hide ParsedMessage, SoaFits, SignedData;
    SignedDataExistsIff(sig, answers, packet);
    assert answers[0].rtype == TYPE_SOA;
  }
}
