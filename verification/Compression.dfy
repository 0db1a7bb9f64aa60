/** Writing compressed names: the suffix table, the bytes a name is packed into, and the proof
    that every entry of the table decodes to its suffix through strictly decreasing pointers. */
module Compression {
  import opened Wrappers
  import opened Text
  import opened NameWalk

  /** From a lower-cased suffix to the offset where it was first written. */
  type Table = map<Str, nat>

  const MAX_POINTER: nat := 0x3FFF

  /* ----- Decoding through strictly decreasing pointers ----- */

  /** The labels at `at`, where every pointer must go strictly below the start `lo` of the
      run of labels it ends: a walk that needs no visited set. */
  function Back(buf: Str, at: nat, lo: nat): Option<seq<Str>>
    decreases lo, |buf| - at
  {
    match HopAt(buf, at)
    case End => Some([])
    case Label(text, next) =>
      (match Back(buf, next, lo)
       case Some(labels) => Some([text] + labels)
       case None => None)
    case Pointer(target) => if target < lo then Back(buf, target, target) else None
    case Bad(_) => None
  }

  lemma BackHop(buf: Str, at: nat, lo: nat)
    requires Back(buf, at, lo).Some?
    ensures HopAt(buf, at).End? ==> Back(buf, at, lo) == Some([])
    ensures HopAt(buf, at).Label? ==>
              Back(buf, HopAt(buf, at).next, lo).Some?
              && Back(buf, at, lo) == Some([HopAt(buf, at).text] + Back(buf, HopAt(buf, at).next, lo).value)
    ensures HopAt(buf, at).Pointer? ==>
              var target := HopAt(buf, at).target;
              target < lo && Back(buf, target, target).Some? && Back(buf, at, lo) == Back(buf, target, target)
    ensures !HopAt(buf, at).Bad?
  {
  }

  lemma {:induction false} BackWalks(buf: Str, offset: nat, n: nat, at: nat, lo: nat, before: seq<Str>)
    returns (m: nat)
    requires WalkN(buf, offset, n) == Walking(at, before) && Back(buf, at, lo).Some?
    ensures WalkN(buf, offset, m) == Arrived(before + Back(buf, at, lo).value)
    decreases lo, |buf| - at
  {
    WalkHop(buf, offset, n, at, before);
    BackHop(buf, at, lo);
    hide *;
    match HopAt(buf, at)
    case End =>
      m := n + 1;
      assert before + [] == before;
    case Label(text, next) =>
      m := BackWalks(buf, offset, n + 1, next, lo, before + [text]);
      SnocCons(before, text, Back(buf, next, lo).value);
    case Pointer(target) =>
      m := BackWalks(buf, offset, n + 1, target, target, before);
  }

  lemma WalkHop(buf: Str, offset: nat, n: nat, at: nat, before: seq<Str>)
    requires WalkN(buf, offset, n) == Walking(at, before)
    ensures WalkN(buf, offset, n + 1) == Advance(buf, Walking(at, before))
    ensures HopAt(buf, at).End? ==> WalkN(buf, offset, n + 1) == Arrived(before)
    ensures HopAt(buf, at).Label? ==>
              WalkN(buf, offset, n + 1) == Walking(HopAt(buf, at).next, before + [HopAt(buf, at).text])
    ensures HopAt(buf, at).Pointer? ==> WalkN(buf, offset, n + 1) == Walking(HopAt(buf, at).target, before)
  {
    hide HopAt;
  }

  lemma SnocCons(before: seq<Str>, text: Str, tail: seq<Str>)
    ensures (before + [text]) + tail == before + ([text] + tail)
  {
  }

  /** Strictly decreasing decoding is what parseName computes. */
  lemma BackParses(buf: Str, at: nat, lo: nat)
    requires Back(buf, at, lo).Some?
    ensures Parsed(buf, at) == Ok((Join(Back(buf, at, lo).value), NameEnd(buf, at)))
    ensures at < NameEnd(buf, at) <= |buf|
    ensures Plain(Back(buf, at, lo).value)
  {
    var m := BackWalks(buf, at, 0, at, lo, []);
    assert [] + Back(buf, at, lo).value == Back(buf, at, lo).value;
    ParsedAt(buf, at, m);
    NameEndBounds(buf, at, m);
    WalkPlain(buf, at, m);
  }

  /** Decoding survives every later append. */
  lemma {:induction false} BackStable(buf: Str, full: Str, at: nat, lo: nat, lo': nat)
    requires buf <= full && lo <= lo' && Back(buf, at, lo).Some?
    ensures Back(full, at, lo') == Back(buf, at, lo)
    ensures NameEnd(full, at) == NameEnd(buf, at)
    decreases lo, |buf| - at
  {
    HopStable(buf, full, at);
    match HopAt(buf, at)
    case End =>
    case Label(text, next) => BackStable(buf, full, next, lo, lo');
    case Pointer(target) => BackStable(buf, full, target, target, target);
  }

  lemma HopStable(buf: Str, full: Str, at: nat)
    requires buf <= full && !HopAt(buf, at).Bad?
    ensures HopAt(full, at) == HopAt(buf, at)
  {
    if HopAt(buf, at).Label? { assert full[at + 1..HopAt(buf, at).next] == buf[at + 1..HopAt(buf, at).next]; }
  }

  /* ----- Packing a name ----- */

  /** What packing leaves behind: the bytes to append and the new table. */
  datatype Emitted = Emitted(bytes: Str, names: Table)

  function PointerTo(off: nat): Str
    requires off <= MAX_POINTER
  {
    [(192 + off / 256) as byte, (off % 256) as byte]
  }

  /** The bytes for `labels` written at offset `pos`. */
  function EmitLabels(pos: nat, labels: seq<Str>, names: Table): Emitted
    decreases |labels|
  {
    if labels == [] then Emitted([0], names)
    else if labels[0] == [] then EmitLabels(pos, labels[1..], names)
    else
      var suffix := Lower(Join(labels));
      if suffix in names && names[suffix] <= MAX_POINTER then Emitted(PointerTo(names[suffix]), names)
      else
        var names' := if pos <= MAX_POINTER then names[suffix := pos] else names;
        var rest := EmitLabels(pos + 1 + |labels[0]|, labels[1..], names');
        Emitted([(|labels[0]| % 256) as byte] + labels[0] + rest.bytes, rest.names)
  }

  function EmitName(pos: nat, name: Str, names: Table): Emitted {
    if Trim(name) == [] then Emitted([0], names) else EmitLabels(pos, Split(Trim(name)), names)
  }

  /** One turn of the packing loop, at label i. */
  lemma EmitAt(pos: nat, labels: seq<Str>, i: nat, names: Table)
    requires i < |labels|
    ensures var suffix := Lower(Join(labels[i..]));
            var names' := if pos <= MAX_POINTER then names[suffix := pos] else names;
            EmitLabels(pos, labels[i..], names) ==
            if labels[i] == [] then EmitLabels(pos, labels[i + 1..], names)
            else if suffix in names && names[suffix] <= MAX_POINTER then Emitted(PointerTo(names[suffix]), names)
            else
              var rest := EmitLabels(pos + 1 + |labels[i]|, labels[i + 1..], names');
              Emitted([(|labels[i]| % 256) as byte] + labels[i] + rest.bytes, rest.names)
  {
    assert labels[i..][0] == labels[i] && labels[i..][1..] == labels[i + 1..];
  }

  /** The packing loop at label i, on its way to `goal`. */
  predicate OnTheWay(buf: Str, labels: seq<Str>, i: nat, names: Table, goal: Emitted)
    requires i <= |labels|
  {
    Onto(buf, EmitLabels(|buf|, labels[i..], names)) == goal
  }

  lemma PackTurn(buf: Str, labels: seq<Str>, i: nat, names: Table, goal: Emitted)
    requires i < |labels| && OnTheWay(buf, labels, i, names, goal)
    ensures var suffix := Lower(Join(labels[i..]));
            && (labels[i] == [] ==> OnTheWay(buf, labels, i + 1, names, goal))
            && (labels[i] != [] ==>
                  if suffix in names && names[suffix] <= MAX_POINTER
                  then Emitted(buf + PointerTo(names[suffix]), names) == goal
                  else OnTheWay(buf + ([(|labels[i]| % 256) as byte] + labels[i]), labels, i + 1,
                                if |buf| <= MAX_POINTER then names[suffix := |buf|] else names, goal))
  {
    EmitAt(|buf|, labels, i, names);
    var suffix, more := Lower(Join(labels[i..])), [(|labels[i]| % 256) as byte] + labels[i];
    var names' := if |buf| <= MAX_POINTER then names[suffix := |buf|] else names;
    OntoAssoc(buf, more, EmitLabels(|buf| + 1 + |labels[i]|, labels[i + 1..], names'));
    hide Lower, Join, EmitLabels, PointerTo;
  }

  /** packCompressedName: the loop as written. */
  method PackCompressedName(buf0: Str, name0: Str, names0: Table) returns (buf: Str, names: Table)
    ensures Emitted(buf, names) == Onto(buf0, EmitName(|buf0|, name0, names0))
  {
    buf, names := buf0, names0;
    var name := Trim(name0);
    if name == [] {
      return buf + [0], names;
    }
    var labels := Split(name);
    ghost var goal := Onto(buf0, EmitName(|buf0|, name0, names0));
    assert labels[0..] == labels;
    for i := 0 to |labels|
      invariant OnTheWay(buf, labels, i, names, goal)
    {
      hide OnTheWay, Lower, Join, EmitName, EmitLabels;
      PackTurn(buf, labels, i, names, goal);
      var piece := labels[i];
      if piece == [] {
        continue;
      }
      var suffix := Lower(Join(labels[i..]));
      if suffix in names && names[suffix] <= MAX_POINTER {
        var off := names[suffix];
        return buf + [(192 + off / 256) as byte, (off % 256) as byte], names;
      }
      if |buf| <= MAX_POINTER {
        names := names[suffix := |buf|];
      }
      buf := buf + ([(|piece| % 256) as byte] + piece);
    }
    buf := buf + [0];
  }

  /** Appending emitted bytes to a buffer. */
  function Onto(buf: Str, e: Emitted): Emitted {
    Emitted(buf + e.bytes, e.names)
  }

  lemma OntoAssoc(buf: Str, more: Str, e: Emitted)
    ensures Onto(buf + more, e) == Onto(buf, Emitted(more + e.bytes, e.names))
  {
    assert buf + more + e.bytes == buf + (more + e.bytes);
  }

  /* ----- The table invariant ----- */

  /** Names whose labels fit a length byte: RFC 1035 allows 63. Empty labels are skipped. */
  predicate Short(name: Str) {
    forall i :: 0 <= i < |Labels(name)| ==> |Labels(name)[i]| <= 63
  }

  ghost predicate Entry(buf: Str, off: nat, key: Str) {
    match Back(buf, off, off)
    case Some(labels) => off < |buf| && off <= MAX_POINTER && LowerAll(labels) == Labels(key)
    case None => false
  }

  /** Every recorded offset is a possible pointer target inside the buffer, and decoding there
      yields exactly the recorded suffix, up to case, through strictly decreasing pointers. */
  ghost predicate TableOk(buf: Str, names: Table) {
    forall k :: k in names ==> Entry(buf, names[k], k)
  }

  lemma TableStable(buf: Str, full: Str, names: Table)
    requires TableOk(buf, names) && buf <= full
    ensures TableOk(full, names)
  {
    forall k | k in names ensures Entry(full, names[k], k) {
      BackStable(buf, full, names[k], names[k], names[k]);
    }
  }

  lemma {:induction false} JoinLonger(labels: seq<Str>)
    requires labels != []
    ensures |Join(labels[1..])| <= |Join(labels)|
    ensures labels[0] != [] ==> |Join(labels[1..])| < |Join(labels)|
  {
  }

  /** The state of the table while a name that starts at `start` is half written: entries for
      longer suffixes of this very name are pending, all others decode below `start`. */
  ghost predicate Pending(buf: Str, names: Table, start: nat, limit: nat) {
    forall k :: k in names && |k| <= limit ==> names[k] < start && Entry(buf, names[k], k)
  }

  /** Putting one label in front of a decodable position. */
  lemma LabelInFront(buf: Str, piece: Str, rest: Str, full: Str, lo: nat)
    requires 1 <= |piece| <= 63
    requires full == buf + [|piece| as byte] + piece + rest
    requires Back(full, |buf| + 1 + |piece|, lo).Some?
    ensures Back(full, |buf|, lo) == Some([piece] + Back(full, |buf| + 1 + |piece|, lo).value)
    ensures NameEnd(full, |buf|) == NameEnd(full, |buf| + 1 + |piece|)
  {
    assert full[|buf| + 1..|buf| + 1 + |piece|] == piece;
    assert HopAt(full, |buf|) == Label(piece, |buf| + 1 + |piece|);
  }

  lemma LowerAllCons(piece: Str, ls: seq<Str>)
    ensures LowerAll([piece] + ls) == [Lower(piece)] + LowerAll(ls)
  {
  }

  /** Recording the suffix that is about to be written keeps shorter suffixes settled. */
  lemma PendingStep(buf: Str, buf': Str, names: Table, start: nat, suffix: Str, limit: nat)
    requires buf <= buf' && start <= |buf|
    requires Pending(buf, names, start, |suffix|) && limit < |suffix|
    ensures Pending(buf', names, start, limit) && Pending(buf', names[suffix := |buf|], start, limit)
  {
    forall k | k in names && |k| <= limit ensures names[k] < start && Entry(buf', names[k], k) {
      BackStable(buf, buf', names[k], names[k], names[k]);
    }
  }

  /** The decoded labels, with one more in front. */
  lemma StepDecodes(buf: Str, buf': Str, labels: seq<Str>, rest: Str, full: Str, start: nat)
    requires labels != [] && 1 <= |labels[0]| <= 63
    requires buf' == buf + [|labels[0]| as byte] + labels[0] && full == buf' + rest
    requires Decodes(full, |buf'|, start, labels[1..])
    ensures Decodes(full, |buf|, start, labels)
  {
    LabelInFront(buf, labels[0], rest, full, start);
    LowerAllCons(labels[0], Back(full, |buf'|, start).value);
    LowerAllCons(labels[0], NonEmpty(labels[1..]));
  }

  /** A suffix written at `at` is a valid entry under its own key. */
  lemma StepEntry(full: Str, at: nat, start: nat, labels: seq<Str>)
    requires start <= at <= MAX_POINTER && labels != [] && AllDotless(labels)
    requires Decodes(full, at, start, labels)
    ensures Entry(full, at, Lower(Join(labels)))
  {
    LabelsOfKey(labels);
    BackStable(full, full, at, start, at);
    BackParses(full, at, at);
  }

  /** From `at` to the end of the buffer there is one name, with these labels up to case. */
  ghost predicate Decodes(full: Str, at: nat, start: nat, labels: seq<Str>) {
    && Back(full, at, start).Some?
    && LowerAll(Back(full, at, start).value) == LowerAll(NonEmpty(labels))
    && NameEnd(full, at) == |full|
  }

  /** New entries of a table decode to their own suffixes. */
  ghost predicate Grown(names: Table, names': Table, full: Str) {
    forall k :: k in names' ==> (k in names && names'[k] == names[k]) || Entry(full, names'[k], k)
  }

  /** The heart of the codec: bytes written at the end of `buf` decode to the labels asked for,
      and each table entry added on the way decodes to its own suffix. */
  lemma {:induction false} EmitDecodes(buf: Str, labels: seq<Str>, names: Table, start: nat, full: Str)
    requires start <= |buf| && AllDotless(labels)
    requires forall i :: 0 <= i < |labels| ==> |labels[i]| <= 63
    requires Pending(buf, names, start, |Join(labels)|)
    requires full == buf + EmitLabels(|buf|, labels, names).bytes
    ensures Decodes(full, |buf|, start, labels)
    ensures Grown(names, EmitLabels(|buf|, labels, names).names, full)
    decreases |labels|, 1
  {
    if labels == [] {
    } else if labels[0] == [] {
      JoinLonger(labels);
      EmitDecodes(buf, labels[1..], names, start, full);
    } else {
      var suffix := Lower(Join(labels));
      if suffix in names && names[suffix] <= MAX_POINTER {
        PointerDecodes(buf, labels, names, start, full);
      } else {
        LabelDecodes(buf, labels, names, start, full);
      }
    }
  }

  /** The case of a label written out: its length byte, its text, then the rest of the name. */
  lemma EmitHead(buf: Str, labels: seq<Str>, names: Table)
    returns (buf': Str, names': Table, rest: Emitted)
    requires labels != [] && 1 <= |labels[0]| <= 63
    requires !(Lower(Join(labels)) in names && names[Lower(Join(labels))] <= MAX_POINTER)
    ensures buf' == buf + [|labels[0]| as byte] + labels[0]
    ensures names' == if |buf| <= MAX_POINTER then names[Lower(Join(labels)) := |buf|] else names
    ensures rest == EmitLabels(|buf'|, labels[1..], names')
    ensures Onto(buf, EmitLabels(|buf|, labels, names)) == Onto(buf', rest)
  {
    names' := if |buf| <= MAX_POINTER then names[Lower(Join(labels)) := |buf|] else names;
    buf' := buf + [|labels[0]| as byte] + labels[0];
    rest := EmitLabels(|buf'|, labels[1..], names');
    var head := [|labels[0]| as byte] + labels[0];
    assert EmitLabels(|buf|, labels, names) == Emitted(head + rest.bytes, rest.names);
    assert buf' == buf + head;
    hide EmitLabels, Onto, Join, Lower;
    OntoAssoc(buf, head, rest);
  }

  lemma {:induction false} LabelDecodes(buf: Str, labels: seq<Str>, names: Table, start: nat, full: Str)
    requires start <= |buf| && AllDotless(labels) && labels != [] && labels[0] != []
    requires forall i :: 0 <= i < |labels| ==> |labels[i]| <= 63
    requires Pending(buf, names, start, |Join(labels)|)
    requires full == buf + EmitLabels(|buf|, labels, names).bytes
    requires !(Lower(Join(labels)) in names && names[Lower(Join(labels))] <= MAX_POINTER)
    ensures Decodes(full, |buf|, start, labels)
    ensures Grown(names, EmitLabels(|buf|, labels, names).names, full)
    decreases |labels|, 0
  {
    var buf', names', rest := EmitHead(buf, labels, names);
    assert full == buf' + rest.bytes;
    assert Pending(buf', names', start, |Join(labels[1..])|) by {
      JoinLonger(labels);
      PendingStep(buf, buf', names, start, Lower(Join(labels)), |Join(labels[1..])|);
    }
    EmitDecodes(buf', labels[1..], names', start, full);
    assert Decodes(full, |buf|, start, labels) by {
      assert Decodes(full, |buf'|, start, labels[1..]);
      StepDecodes(buf, buf', labels, rest.bytes, full, start);
    }
    assert Grown(names, rest.names, full) by {
      assert Grown(names', rest.names, full);
      if |buf| <= MAX_POINTER { StepEntry(full, |buf|, start, labels); }
    }
  }

  lemma PointerReads(buf: Str, off: nat)
    requires off <= MAX_POINTER
    ensures HopAt(buf + PointerTo(off), |buf|) == Pointer(off)
  {
  }

  lemma PointerDecodes(buf: Str, labels: seq<Str>, names: Table, start: nat, full: Str)
    requires start <= |buf| && AllDotless(labels) && labels != []
    requires Pending(buf, names, start, |Join(labels)|)
    requires Lower(Join(labels)) in names && names[Lower(Join(labels))] <= MAX_POINTER
    requires full == buf + PointerTo(names[Lower(Join(labels))])
    ensures Decodes(full, |buf|, start, labels)
  {
    var off := names[Lower(Join(labels))];
    LabelsOfKey(labels);
    PointerReads(buf, off);
    PointerEnds(buf, full, off);
    BackStable(buf, full, off, off, off);
    hide Labels, Lower, Join, LowerAll, NonEmpty, HopAt, PointerTo;
  }

  lemma PointerEnds(buf: Str, full: Str, off: nat)
    requires off <= MAX_POINTER && full == buf + PointerTo(off)
    ensures |full| == |buf| + 2 && NameEnd(full, |buf|) == |full|
  {
    PointerReads(buf, off);
    hide HopAt;
  }

  lemma {:induction false} PiecesShort(labels: seq<Str>)
    requires forall i :: 0 <= i < |labels| ==> |labels[i]| <= 63
    ensures forall i :: 0 <= i < |Split(Join(labels))| ==> |Split(Join(labels))[i]| <= 63
  {
    if |labels| == 0 {
      SplitDotless([]);
    } else {
      PiecesFit(labels[0]);
      if |labels| > 1 {
        PiecesShort(labels[1..]);
        SplitConcat(labels[0], Join(labels[1..]));
      }
    }
  }

  lemma {:induction false} PiecesFit(s: Str)
    ensures forall i :: 0 <= i < |Split(s)| ==> |Split(s)[i]| <= |s|
    decreases |s|
  {
    var k := FirstDot(s);
    if k < |s| { PiecesFit(s[k + 1..]); }
  }

  /** Whatever a packet holds, a name read from it can be packed again. */
  lemma ParsedIsShort(buf: Str, at: nat)
    requires Parsed(buf, at).Ok?
    ensures Short(Parsed(buf, at).value.0)
  {
    var n: nat :| !WalkN(buf, at, n).Walking?;
    ParsedAt(buf, at, n);
    WalkPlain(buf, at, n);
    PiecesShort(WalkN(buf, at, n).labels);
  }

  lemma {:induction false} EmitBytes(pos: nat, labels: seq<Str>, names: Table)
    ensures 1 <= |EmitLabels(pos, labels, names).bytes| <= |Join(labels)| + 2
    decreases |labels|
  {
    if labels != [] {
      var suffix := Lower(Join(labels));
      var names' := if pos <= MAX_POINTER then names[suffix := pos] else names;
      EmitBytes(pos, labels[1..], names);
      EmitBytes(pos + 1 + |labels[0]|, labels[1..], names');
    }
  }

  /** One packed name: it parses back to the canonical form of what was asked for, up to case,
      parsing resumes right behind it, and the table stays sound. `full` is any later state of
      the buffer. */
  lemma NameDecodes(buf: Str, name: Str, names: Table, full: Str)
    requires TableOk(buf, names) && Short(name)
    requires Onto(buf, EmitName(|buf|, name, names)).bytes <= full
    ensures var e := Onto(buf, EmitName(|buf|, name, names));
            && TableOk(e.bytes, e.names)
            && Parsed(full, |buf|).Ok?
            && Parsed(full, |buf|).value.1 == |e.bytes|
            && SameName(Parsed(full, |buf|).value.0, Canon(name))
  {
    var e := Onto(buf, EmitName(|buf|, name, names));
    TrimLabels(name);
    if Trim(name) == [] {
      assert HopAt(e.bytes, |buf|).End?;
      SplitDotless([]);
      TableStable(buf, e.bytes, names);
    } else {
      var labels := Split(Trim(name));
      ShortPieces(labels);
      EmitDecodes(buf, labels, names, |buf|, e.bytes);
      TableStable(buf, e.bytes, names);
    }
    assert LowerAll(Back(e.bytes, |buf|, |buf|).value) == LowerAll(Labels(name));
    BackStable(e.bytes, full, |buf|, |buf|, |buf|);
    BackParses(full, |buf|, |buf|);
    LowerJoin(Back(full, |buf|, |buf|).value);
    LowerJoin(Labels(name));
  }

  lemma {:induction false} ShortPieces(labels: seq<Str>)
    requires forall i :: 0 <= i < |NonEmpty(labels)| ==> |NonEmpty(labels)[i]| <= 63
    ensures forall i :: 0 <= i < |labels| ==> |labels[i]| <= 63
  {
    if labels != [] {
      var kept, rest := NonEmpty(labels), NonEmpty(labels[1..]);
      if labels[0] != [] {
        assert kept == [labels[0]] + rest && kept[0] == labels[0];
        assert forall i :: 0 <= i < |rest| ==> rest[i] == kept[i + 1];
      } else {
        assert kept == rest;
      }
      ShortPieces(labels[1..]);
    }
  }

  /** Exactly the names with labels of at most 63 bytes survive packing: a longer label's
      length byte is read back as something else. */
  lemma NameSurvivesIff(buf: Str, name: Str, names: Table)
    requires TableOk(buf, names)
    ensures var packed := buf + EmitName(|buf|, name, names).bytes;
            (Parsed(packed, |buf|).Ok? && SameName(Parsed(packed, |buf|).value.0, Canon(name)))
            <==> Short(name)
  {
    var packed := buf + EmitName(|buf|, name, names).bytes;
    if Short(name) {
      NameDecodes(buf, name, names, packed);
    }
    if Parsed(packed, |buf|).Ok? && SameName(Parsed(packed, |buf|).value.0, Canon(name)) {
      ParsedIsShort(packed, |buf|);
      ShortTransfers(Parsed(packed, |buf|).value.0, name);
    }
  }

  lemma ShortTransfers(got: Str, name: Str)
    requires Short(got) && SameName(got, Canon(name))
    ensures Short(name)
  {
    LowerLabels(got);
    LowerLabels(Canon(name));
    LabelsOfCanon(name);
    forall i | 0 <= i < |Labels(name)| ensures |Labels(name)[i]| <= 63 {
      assert LowerAll(Labels(got))[i] == LowerAll(Labels(name))[i];
    }
  }
}
