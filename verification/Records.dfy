/** Moving records between packets: a record lifted out of its packet must go on naming what it
    named there, and a CNAME chain stitched from several packets must survive being sent. */
module Records {
  import opened Wrappers
  import opened Text
  import opened NameWalk
  import opened Compression
  import opened Message
  import opened RoundTrip

  /* ----- packName ----- */

  function PackPieces(pieces: seq<Str>): Str {
    if pieces == [] then [] else [(|pieces[0]| % 256) as byte] + pieces[0] + PackPieces(pieces[1..])
  }

  function PackName(name: Str): Str {
    if name == [] || name == [DOT] then [0] else PackPieces(Split(name)) + [0]
  }

  lemma {:induction false} PackPiecesSnoc(pieces: seq<Str>, last: Str)
    ensures PackPieces(pieces + [last]) == PackPieces(pieces) + [(|last| % 256) as byte] + last
  {
    if pieces == [] {
      assert [last][1..] == [] && PackPieces([]) == [];
      assert [] + [last] == [last];
    } else {
      var rest := pieces[1..];
      PackPiecesHead(pieces);
      PackPiecesHead(pieces + [last]);
      assert (pieces + [last])[1..] == rest + [last] && (pieces + [last])[0] == pieces[0];
      hide *;
      PackPiecesSnoc(rest, last);
      Regroup([(|pieces[0]| % 256) as byte] + pieces[0], PackPieces(rest), [(|last| % 256) as byte], last);
    }
  }

  lemma PackPiecesHead(pieces: seq<Str>)
    requires pieces != []
    ensures PackPieces(pieces) == [(|pieces[0]| % 256) as byte] + pieces[0] + PackPieces(pieces[1..])
  {
  }

  lemma Regroup(a: Str, b: Str, c: Str, d: Str)
    ensures a + (b + c + d) == (a + b) + c + d
  {
  }

  /** The piece that ends at i, and what is left to split behind it. */
  lemma PieceEnds(name: Str, start: nat, i: nat)
    requires start <= i <= |name| && Dotless(name[start..i]) && (i == |name| || name[i] == DOT)
    ensures Split(name[start..]) ==
            if i == |name| then [name[start..i]] else [name[start..i]] + Split(name[i + 1..])
  {
    var rest := name[start..];
    assert rest[..i - start] == name[start..i];
    FirstDotUnique(rest, i - start);
    if i == |name| { assert rest == name[start..i]; } else { assert rest[i - start + 1..] == name[i + 1..]; }
  }

  /** The bytes before i are cut into `pieces`, with an unfinished piece from `start` on. */
  ghost predicate Cut(name: Str, start: nat, i: nat, pieces: seq<Str>) {
    if i <= |name| then start <= i && Dotless(name[start..i]) && Split(name) == pieces + Split(name[start..])
    else Split(name) == pieces
  }

  lemma CutStep(name: Str, start: nat, i: nat, pieces: seq<Str>)
    requires i <= |name| && Cut(name, start, i, pieces)
    ensures i == |name| || name[i] == DOT ==> Cut(name, i + 1, i + 1, pieces + [name[start..i]])
    ensures i < |name| && name[i] != DOT ==> Cut(name, start, i + 1, pieces)
  {
    if i == |name| || name[i] == DOT {
      PieceEnds(name, start, i);
      if i < |name| {
        assert pieces + ([name[start..i]] + Split(name[i + 1..])) == pieces + [name[start..i]] + Split(name[i + 1..]);
      }
    } else {
      assert name[start..i + 1] == name[start..i] + [name[i]];
    }
  }

  /** packName: one pass over the bytes, a label written at every dot and at the end. */
  method PackNameLoop(name: Str) returns (buf: Str)
    ensures buf == PackName(name)
  {
    hide *;
    PackNameDef(name);
    if name == [] || name == [DOT] {
      return [0];
    }
    buf := [];
    var start := 0;
    ghost var pieces: seq<Str> := [];
    CutStart(name);
    for i := 0 to |name| + 1
      invariant start <= i && Cut(name, start, i, pieces)
      invariant buf == PackPieces(pieces)
    {
      CutStep(name, start, i, pieces);
      if i == |name| || name[i] == DOT {
        var piece := name[start..i];
        PackPiecesSnoc(pieces, piece);
        buf := buf + [(|piece| % 256) as byte] + piece;
        pieces := pieces + [piece];
        start := i + 1;
      }
    }
    CutEnd(name, start, pieces);
    buf := buf + [0];
  }

  lemma PackNameDef(name: Str)
    ensures PackName(name) == if name == [] || name == [DOT] then [0] else PackPieces(Split(name)) + [0]
  {
  }

  lemma CutStart(name: Str)
    ensures Cut(name, 0, 0, []) && PackPieces([]) == []
  {
    assert name[0..] == name;
    assert [] + Split(name) == Split(name);
  }

  lemma CutEnd(name: Str, start: nat, pieces: seq<Str>)
    requires Cut(name, start, |name| + 1, pieces)
    ensures Split(name) == pieces
  {
    hide Split;
  }

  /** Pieces written one after the other are read back up to the first empty one, whose zero
      length byte ends the name. */
  lemma {:induction false} PiecesRead(head: Str, pieces: seq<Str>)
    requires forall i :: 0 <= i < |pieces| ==> |pieces[i]| <= 63
    ensures Uncompressed(head + PackPieces(pieces) + [0], |head|) == Ok(UpToEmpty(pieces))
    decreases |pieces|
  {
    if pieces == [] || pieces[0] == [] {
      ZeroEnds(head, pieces);
    } else {
      hide *;
      var rest := pieces[1..];
      var head' := FirstPiece(head, pieces);
      PiecesRead(head', rest);
      LabelThenRest(WithZero(head, pieces), |head|, pieces[0], |head'|, UpToEmpty(rest));
    }
  }

  function WithZero(head: Str, pieces: seq<Str>): Str {
    head + PackPieces(pieces) + [0]
  }

  lemma FirstPiece(head: Str, pieces: seq<Str>) returns (head': Str)
    requires pieces != [] && 1 <= |pieces[0]| <= 63
    ensures WithZero(head, pieces) == WithZero(head', pieces[1..]) == head + PackPieces(pieces) + [0]
    ensures WithZero(head', pieces[1..]) == head' + PackPieces(pieces[1..]) + [0]
    ensures HopAt(WithZero(head, pieces), |head|) == Label(pieces[0], |head'|)
    ensures UpToEmpty(pieces) == [pieces[0]] + UpToEmpty(pieces[1..])
  {
    hide HopAt;
    head' := head + [|pieces[0]| as byte] + pieces[0];
    PieceInFront(head, pieces[0], PackPieces(pieces[1..]));
  }

  lemma ZeroEnds(head: Str, pieces: seq<Str>)
    requires pieces == [] || pieces[0] == []
    ensures Uncompressed(head + PackPieces(pieces) + [0], |head|) == Ok([])
  {
    ZeroFirst(pieces);
    hide *;
    ByteBehind(head, PackPieces(pieces), [0]);
    EndsHere(head + PackPieces(pieces) + [0], |head|);
  }

  lemma ZeroFirst(pieces: seq<Str>)
    requires pieces == [] || pieces[0] == []
    ensures (PackPieces(pieces) + [0])[0] == 0
  {
  }

  lemma ByteBehind(head: Str, a: Str, b: Str)
    requires b != []
    ensures (head + a + b)[|head|] == (a + b)[0]
  {
  }

  lemma EndsHere(data: Str, at: nat)
    requires at < |data| && data[at] == 0
    ensures Uncompressed(data, at) == Ok([])
  {
  }

  lemma PieceInFront(head: Str, piece: Str, packed: Str)
    requires 1 <= |piece| <= 63
    ensures var head', data := head + [|piece| as byte] + piece, head + ([|piece| as byte] + piece + packed) + [0];
            data == head' + packed + [0] && HopAt(data, |head|) == Label(piece, |head'|)
  {
    var data := head + ([|piece| as byte] + piece + packed) + [0];
    assert data[|head|] == |piece| as byte;
    assert data[|head| + 1..|head| + 1 + |piece|] == piece;
  }

  lemma LabelThenRest(data: Str, at: nat, text: Str, next: nat, rest: seq<Str>)
    requires HopAt(data, at) == Label(text, next) && Uncompressed(data, next) == Ok(rest)
    ensures Uncompressed(data, at) == Ok([text] + rest)
  {
    hide HopAt;
  }

  function UpToEmpty(pieces: seq<Str>): seq<Str> {
    if pieces == [] || pieces[0] == [] then [] else [pieces[0]] + UpToEmpty(pieces[1..])
  }

  lemma {:induction false} UpToEmptyShrinks(pieces: seq<Str>)
    ensures UpToEmpty(pieces) == pieces <==> (forall i :: 0 <= i < |pieces| ==> pieces[i] != [])
    ensures UpToEmpty(pieces) != pieces && pieces != [[]] ==> |Join(UpToEmpty(pieces))| < |Join(pieces)|
  {
    if pieces != [] && pieces[0] != [] {
      UpToEmptyShrinks(pieces[1..]);
      if UpToEmpty(pieces[1..]) == pieces[1..] {
        assert forall i :: 0 < i < |pieces| ==> pieces[i] == pieces[1..][i - 1];
      }
    }
  }

  /** packName then parseUncompressedName is the identity on exactly the dotted names. */
  lemma PackNameReadsIff(name: Str)
    requires Short(name)
    ensures Uncompressed(PackName(name), 0).Ok?
    ensures Join(Uncompressed(PackName(name), 0).value) == name <==> Dotted(name)
  {
    if name == [] {
      assert Uncompressed(PackName(name), 0) == Ok([]);
    } else if name == [DOT] {
      assert Uncompressed(PackName(name), 0) == Ok([]);
      SplitHead([], []);
      assert [] + [DOT] + [] == name;
      assert Split(name)[0] == [];
    } else {
      var pieces := Split(name);
      assert Labels(name) == NonEmpty(pieces);
      ShortPieces(pieces);
      PiecesRead([], pieces);
      assert [] + PackPieces(pieces) + [0] == PackName(name);
      UpToEmptyShrinks(pieces);
      JoinSplit(name);
    }
  }

  /* ----- materializeRR ----- */

  ghost function Materialized(rr: RR, raw: Str): RR {
    var off := rr.offset + NameOffset(rr.rtype);
    if HasName(rr.rtype) && rr.offset >= 12 && |rr.data| >= NameOffset(rr.rtype) && Parsed(raw, off).Ok?
    then rr.(data := rr.data[..NameOffset(rr.rtype)] + PackName(Parsed(raw, off).value.0), offset := 0)
    else rr.(offset := 0)
  }

  method MaterializeRR(rr: RR, raw: Str) returns (r: RR)
    ensures r == Materialized(rr, raw)
  {
    hide Parsed, PackName;
    r := rr;
    if rr.offset >= 12 {
      if rr.rtype == TYPE_CNAME || rr.rtype == TYPE_NS || rr.rtype == TYPE_PTR {
        var name := ParseName(raw, rr.offset);
        if name.Ok? {
          var data := PackNameLoop(name.value.0);
          r := r.(data := data);
          assert rr.data[..0] + data == data;
        }
      } else if rr.rtype == TYPE_MX {
        if |rr.data| >= 2 {
          var name := ParseName(raw, rr.offset + 2);
          if name.Ok? {
            var packed := PackNameLoop(name.value.0);
            r := r.(data := [rr.data[0], rr.data[1]] + packed);
            assert rr.data[..2] == [rr.data[0], rr.data[1]];
          }
        }
      }
    }
    r := r.(offset := 0);
  }

  lemma ParsedInside(buf: Str, at: nat)
    requires Parsed(buf, at).Ok?
    ensures at < Parsed(buf, at).value.1 <= |buf|
  {
    var n: nat :| !WalkN(buf, at, n).Walking?;
    ParsedAt(buf, at, n);
    NameEndBounds(buf, at, n);
  }

  /** The name a record carries inside its packet, when it carries one there. */
  ghost function NameInPacket(rr: RR, raw: Str): Option<Str> {
    if rr.offset >= 12 && Parsed(raw, rr.offset + NameOffset(rr.rtype)).Ok?
    then Some(Parsed(raw, rr.offset + NameOffset(rr.rtype)).value.0)
    else None
  }

  /** Packet independence: a materialised record names the same thing next to any packet, exactly when
      the name it had in its own packet is dotted and, for an MX, follows a preference in the rdata.
      `offset` is 0 for records made by the resolver itself and at least 12 for parsed ones. */
  lemma {:induction false} PacketIndependentIff(rr: RR, raw: Str, anyRaw: Str)
    requires HasName(rr.rtype) && (rr.offset == 0 || rr.offset >= 12)
    ensures RdataName(Materialized(rr, raw), anyRaw) == RdataName(rr, raw)
            <==> match NameInPacket(rr, raw)
                 case Some(name) => Dotted(name) && |rr.data| >= NameOffset(rr.rtype)
                 case None => true
  {
    if NameInPacket(rr, raw).Some? {
      NameBecomesRdata(rr, raw, anyRaw);
    } else {
      NoNameStays(rr, raw, anyRaw);
    }
    hide RdataName, Materialized, NameInPacket, Dotted;
  }

  lemma NoNameStays(rr: RR, raw: Str, anyRaw: Str)
    requires HasName(rr.rtype) && (rr.offset == 0 || rr.offset >= 12) && NameInPacket(rr, raw).None?
    ensures RdataName(Materialized(rr, raw), anyRaw) == RdataName(rr, raw)
  {
    hide Parsed, PackName;
  }

  lemma NameBecomesRdata(rr: RR, raw: Str, anyRaw: Str)
    requires HasName(rr.rtype) && NameInPacket(rr, raw).Some?
    ensures var name := NameInPacket(rr, raw).value;
            && RdataName(rr, raw) == Some(name)
            && (|rr.data| < NameOffset(rr.rtype) ==> RdataName(Materialized(rr, raw), anyRaw) == None)
            && (|rr.data| >= NameOffset(rr.rtype) ==>
                  (RdataName(Materialized(rr, raw), anyRaw) == Some(name) <==> Dotted(name)))
  {
    var name := NameInPacket(rr, raw).value;
    PacketName(rr, raw);
    hide *;
    MaterializedName(rr, raw, name);
    if |rr.data| >= NameOffset(rr.rtype) {
      PackNameReadsIff(name);
      OwnName(Materialized(rr, raw), name, anyRaw);
    } else {
      NoOwnName(Materialized(rr, raw), anyRaw);
    }
  }

  lemma PacketName(rr: RR, raw: Str)
    requires HasName(rr.rtype) && NameInPacket(rr, raw).Some?
    ensures RdataName(rr, raw) == NameInPacket(rr, raw) && Short(NameInPacket(rr, raw).value)
  {
    ParsedInside(raw, rr.offset + NameOffset(rr.rtype));
    ParsedIsShort(raw, rr.offset + NameOffset(rr.rtype));
    hide Parsed, Short;
  }

  lemma MaterializedName(rr: RR, raw: Str, name: Str)
    requires HasName(rr.rtype) && NameInPacket(rr, raw) == Some(name)
    ensures var mat, k := Materialized(rr, raw), NameOffset(rr.rtype);
            && mat.offset == 0 && mat.rtype == rr.rtype
            && (|rr.data| < k ==> mat.data == rr.data)
            && (|rr.data| >= k ==> |mat.data| >= k && mat.data[k..] == PackName(name))
  {
    NameHere(rr, raw, name);
    hide Parsed, PackName, NameInPacket, HasName;
    if |rr.data| >= NameOffset(rr.rtype) { Behind(rr.data[..NameOffset(rr.rtype)], PackName(name)); }
  }

  lemma NameHere(rr: RR, raw: Str, name: Str)
    requires NameInPacket(rr, raw) == Some(name)
    ensures rr.offset >= 12 && Parsed(raw, rr.offset + NameOffset(rr.rtype)).Ok?
    ensures Parsed(raw, rr.offset + NameOffset(rr.rtype)).value.0 == name
  {
    hide Parsed;
  }

  lemma Behind(a: Str, b: Str)
    ensures (a + b)[|a|..] == b
  {
  }

  /** A record without an offset names what its own rdata says. */
  lemma OwnName(mat: RR, name: Str, anyRaw: Str)
    requires HasName(mat.rtype) && mat.offset == 0 && |mat.data| >= NameOffset(mat.rtype)
    requires mat.data[NameOffset(mat.rtype)..] == PackName(name)
    requires Uncompressed(PackName(name), 0).Ok?
    requires Join(Uncompressed(PackName(name), 0).value) == name <==> Dotted(name)
    ensures RdataName(mat, anyRaw) == Some(name) <==> Dotted(name)
  {
    hide Uncompressed, PackName, Dotted, Join;
  }

  lemma NoOwnName(mat: RR, anyRaw: Str)
    requires HasName(mat.rtype) && mat.offset == 0 && |mat.data| < NameOffset(mat.rtype)
    ensures RdataName(mat, anyRaw) == None
  {
  }

  /** Materialising twice changes nothing more, so nested prepending is harmless. */
  lemma MaterializedOnce(rr: RR, raw: Str, raw': Str)
    ensures Materialized(Materialized(rr, raw), raw') == Materialized(rr, raw)
  {
  }

  /* ----- prependCNAME and chains of it ----- */

  ghost function MaterializedAll(rrs: seq<RR>, raw: Str): (r: seq<RR>)
    ensures |r| == |rrs| && forall i :: 0 <= i < |rrs| ==> r[i] == Materialized(rrs[i], raw)
  {
    if rrs == [] then [] else [Materialized(rrs[0], raw)] + MaterializedAll(rrs[1..], raw)
  }

  /** prependCNAME: only answers survive, and the result refers to no packet. */
  ghost function Prepended(cname: RR, cnameRaw: Str, inner: Message): Message {
    Message(inner.header, [], [Materialized(cname, cnameRaw)] + MaterializedAll(inner.answers, inner.raw), [], [], [])
  }

  lemma PrependedDef(cname: RR, cnameRaw: Str, inner: Message)
    ensures Prepended(cname, cnameRaw, inner)
            == Message(inner.header, [], [Materialized(cname, cnameRaw)] + MaterializedAll(inner.answers, inner.raw),
                       [], [], [])
  {
    hide Materialized, MaterializedAll;
  }

  method PrependCNAME(cname: RR, cnameRaw: Str, inner: Message) returns (out: Message)
    ensures out == Prepended(cname, cnameRaw, inner)
  {
    hide Materialized;
    var first := MaterializeRR(cname, cnameRaw);
    var answers := [first];
    for i := 0 to |inner.answers|
      invariant |answers| == i + 1 && answers[0] == first
      invariant forall k :: 0 <= k < i ==> answers[k + 1] == Materialized(inner.answers[k], inner.raw)
    {
      var rr := MaterializeRR(inner.answers[i], inner.raw);
      answers := answers + [rr];
    }
    hide *;
    out := Message(inner.header, [], answers, [], [], []);
    assert answers == [first] + MaterializedAll(inner.answers, inner.raw);
    assert out == Prepended(cname, cnameRaw, inner) by { PrependedDef(cname, cnameRaw, inner); }
  }

  /** One followed alias: the CNAME record and the packet it came in. */
  datatype Alias = Alias(rr: RR, raw: Str)

  /** The answer built for aliases followed one after the other down to `last`. */
  ghost function Chain(hops: seq<Alias>, last: Message): Message {
    if hops == [] then last else Prepended(hops[0].rr, hops[0].raw, Chain(hops[1..], last))
  }

  /** However deep the nesting, every record of a chain was materialised against its own packet. */
  lemma {:induction false} ChainAnswers(hops: seq<Alias>, last: Message)
    requires hops != []
    ensures var c := Chain(hops, last);
            && c.header == last.header
            && c.raw == [] && c.questions == [] && c.authority == [] && c.additional == []
            && |c.answers| == |hops| + |last.answers|
            && (forall i :: 0 <= i < |hops| ==> c.answers[i] == Materialized(hops[i].rr, hops[i].raw))
            && (forall j :: 0 <= j < |last.answers| ==>
                  c.answers[|hops| + j] == Materialized(last.answers[j], last.raw))
  {
    hide *;
    var tail, c := hops[1..], Chain(hops, last);
    ChainUnfolds(hops, last);
    if tail == [] {
      PrependedAnswers(hops[0].rr, hops[0].raw, last);
    } else {
      var inner := Chain(tail, last);
      ChainAnswers(tail, last);
      PrependedAnswers(hops[0].rr, hops[0].raw, inner);
      forall i | 0 < i < |hops| ensures c.answers[i] == Materialized(hops[i].rr, hops[i].raw) {
        assert c.answers[(i - 1) + 1] == Materialized(inner.answers[i - 1], []);
        MaterializedOnce(tail[i - 1].rr, tail[i - 1].raw, []);
      }
      forall j | 0 <= j < |last.answers|
        ensures c.answers[|hops| + j] == Materialized(last.answers[j], last.raw)
      {
        assert c.answers[(|tail| + j) + 1] == Materialized(inner.answers[|tail| + j], []);
        MaterializedOnce(last.answers[j], last.raw, []);
      }
    }
  }

  lemma ChainUnfolds(hops: seq<Alias>, last: Message)
    ensures Chain([], last) == last
    ensures hops != [] ==> Chain(hops, last) == Prepended(hops[0].rr, hops[0].raw, Chain(hops[1..], last))
  {
  }

  lemma PrependedAnswers(cname: RR, cnameRaw: Str, inner: Message)
    ensures var c := Prepended(cname, cnameRaw, inner);
            && c.header == inner.header
            && c.raw == [] && c.questions == [] && c.authority == [] && c.additional == []
            && |c.answers| == 1 + |inner.answers| && c.answers[0] == Materialized(cname, cnameRaw)
            && forall k :: 0 <= k < |inner.answers| ==> c.answers[k + 1] == Materialized(inner.answers[k], inner.raw)
  {
    hide Materialized;
  }

  ghost predicate GoodAlias(a: Alias) {
    a.rr.rtype == TYPE_CNAME && NameInPacket(a.rr, a.raw).Some? && Dotted(NameInPacket(a.rr, a.raw).value)
  }

  lemma AliasTarget(a: Alias, anyRaw: Str)
    requires GoodAlias(a)
    ensures Materialized(a.rr, a.raw).rtype == TYPE_CNAME && Materialized(a.rr, a.raw).name == a.rr.name
    ensures RdataName(Materialized(a.rr, a.raw), anyRaw) == NameInPacket(a.rr, a.raw)
  {
    ParsedInside(a.raw, a.rr.offset);
    PacketIndependentIff(a.rr, a.raw, anyRaw);
  }

  /** A record that leads from `name` on to `target` when read in its packet. */
  ghost predicate LeadsTo(got: RR, packet: Str, name: Str, target: Str) {
    && got.rtype == TYPE_CNAME && SameName(got.name, Canon(name))
    && RdataName(got, packet).Some? && SameName(RdataName(got, packet).value, Canon(target))
  }

  lemma SentAlias(rr: RR, got: RR, packet: Str, target: Str)
    requires rr.rtype == TYPE_CNAME && RdataName(rr, []) == Some(target) && SameRR(rr, [], got, packet)
    ensures LeadsTo(got, packet, rr.name, target)
  {
  }

  /** A chain sent to a client and parsed again still leads, hop by hop and in order, to the
      targets the resolver followed. */
  lemma {:induction false} ChainSurvives(hops: seq<Alias>, last: Message, i: nat)
    requires i < |hops| && GoodAlias(hops[i]) && PackableMessage(Chain(hops, last))
    ensures var r := ParsedMessage(PackedMessage(Chain(hops, last)).bytes);
            && r.Ok? && |r.value.answers| == |hops| + |last.answers|
            && LeadsTo(r.value.answers[i], r.value.raw, hops[i].rr.name, NameInPacket(hops[i].rr, hops[i].raw).value)
  {
    hide PackedMessage, ParsedMessage, LeadsTo, PackableMessage, SameRR, Materialized, Chain;
    var c := Chain(hops, last);
    ChainAnswers(hops, last);
    PackThenParse(c);
    AliasTarget(hops[i], []);
    var r := ParsedMessage(PackedMessage(c).bytes).value;
    SentAlias(c.answers[i], r.answers[i], r.raw, NameInPacket(hops[i].rr, hops[i].raw).value);
  }
}
