/** Why a resolution fails, and when a failure is remembered as the denial of the name: the resolver
    decides that by searching the text of the error. */
module Failures {
  import opened Wrappers
  import opened Text

  /** `detail` is the text of an error from outside: dialling, reading, another response code. */
  datatype Failure =
    | DepthExceeded(name: Str)
    | NxDomain(name: Str)
    | BadTarget
    | Upstream(detail: Str)
    | AllFailed(name: Str, last: Option<Failure>)
    | NoAddresses(ns: Str)
    | NoNameServers

  /** The bytes of ASCII text. */
  function Ascii(s: string): (r: Str)
    requires forall i :: 0 <= i < |s| ==> s[i] < 128 as char
    ensures |r| == |s| && forall i :: 0 <= i < |s| ==> r[i] == s[i] as int
  {
    seq(|s|, i requires 0 <= i < |s| => s[i] as byte)
  }

  const DENIAL: Str := Ascii("NXDOMAIN")
  const DEPTH: Str := Ascii("max referral depth exceeded resolving")
  const ABSENT: Str := Ascii("does not exist")
  const TARGET: Str := Ascii("cname parse")
  const SERVERS: Str := Ascii("all servers failed for")
  const NOTHING: Str := Ascii("%!w(<nil>)")
  const LOOKUPS: Str := Ascii("all NS resolutions failed:")
  const ADDRESSES: Str := Ascii("no IPs found for NS")
  const NOBODY: Str := Ascii("no IPs found for any NS")
  const COLON: byte := 58
  const SPACE: byte := 32
  const CAPITAL_X: byte := 88

  /** The text of an error: those of its causes are embedded in it, and so are names. */
  function ErrorText(f: Failure): Str {
    match f
    case DepthExceeded(name) => DEPTH + [SPACE] + name
    case NxDomain(name) => DENIAL + [COLON] + ([SPACE] + name + [SPACE] + ABSENT)
    case BadTarget => TARGET
    case Upstream(detail) => detail
    case AllFailed(name, last) =>
      SERVERS + [SPACE] + (name + [COLON] + ([] + [SPACE] + if last.Some? then ErrorText(last.value) else NOTHING))
    case NoAddresses(ns) => LOOKUPS + [SPACE] + (ADDRESSES + [SPACE] + ns)
    case NoNameServers => NOBODY
  }

  predicate OccursAt(s: Str, t: Str, i: nat) {
    i + |t| <= |s| && s[i..i + |t|] == t
  }

  /** strings.Contains(s, t) */
  predicate Contains(s: Str, t: Str) {
    exists i :: 0 <= i <= |s| && OccursAt(s, t, i)
  }

  /** What decides whether a failure is written to the cache as a denial. */
  predicate Denies(f: Failure) {
    Contains(ErrorText(f), DENIAL)
  }

  /** Where the word can come from: from an actual denial, or from a name or an outside text that
      happens to contain it. */
  predicate MentionsDenial(f: Failure) {
    match f
    case DepthExceeded(name) => Contains(name, DENIAL)
    case NxDomain(_) => true
    case BadTarget => false
    case Upstream(detail) => Contains(detail, DENIAL)
    case AllFailed(name, last) => Contains(name, DENIAL) || (last.Some? && MentionsDenial(last.value))
    case NoAddresses(ns) => Contains(ns, DENIAL)
    case NoNameServers => false
  }

  /** An occurrence in the part from `from` on is one in the whole. */
  lemma OccursInPart(s: Str, part: Str, from: nat, t: Str, i: nat)
    requires from + |part| <= |s| && part == s[from..from + |part|] && i + |t| <= |part|
    ensures OccursAt(part, t, i) <==> OccursAt(s, t, from + i)
  {
    assert forall k :: i <= k < i + |t| ==> part[k] == s[from + k];
    assert part[i..i + |t|] == s[from + i..from + i + |t|];
  }

  lemma ContainsPart(s: Str, part: Str, from: nat, t: Str)
    requires from + |part| <= |s| && part == s[from..from + |part|] && Contains(part, t)
    ensures Contains(s, t)
  {
    var i :| 0 <= i <= |part| && OccursAt(part, t, i);
    OccursInPart(s, part, from, t, i);
  }

  /** A byte that is not in the word searched for cannot be part of an occurrence. */
  lemma ContainsAcross(a: Str, x: byte, b: Str, t: Str)
    requires t != [] && x !in t
    ensures Contains(a + [x] + b, t) <==> Contains(a, t) || Contains(b, t)
  {
    var s := a + [x] + b;
    assert a == s[0..0 + |a|] && b == s[|a| + 1..|a| + 1 + |b|] && s[|a|] == x;
    if Contains(a, t) { ContainsPart(s, a, 0, t); }
    if Contains(b, t) { ContainsPart(s, b, |a| + 1, t); }
    if Contains(s, t) { OneSide(s, a, x, b, t); }
  }

  lemma OneSide(s: Str, a: Str, x: byte, b: Str, t: Str)
    requires |s| == |a| + 1 + |b| && a == s[0..0 + |a|] && b == s[|a| + 1..|a| + 1 + |b|] && s[|a|] == x
    requires t != [] && x !in t && Contains(s, t)
    ensures Contains(a, t) || Contains(b, t)
  {
    var i :| 0 <= i <= |s| && OccursAt(s, t, i);
    NotAcross(s, t, i, |a|);
    if i + |t| <= |a| {
      OccursInPart(s, a, 0, t, i);
    } else {
      OccursInPart(s, b, |a| + 1, t, i - |a| - 1);
    }
  }

  lemma NotAcross(s: Str, t: Str, i: nat, at: nat)
    requires OccursAt(s, t, i) && t != [] && at < |s| && s[at] !in t
    ensures i + |t| <= at || i > at
  {
    forall k | 0 <= k < |t| ensures s[i + k] == t[k] {
      OccurringByte(s, t, i, k);
    }
    assert forall j :: i <= j < i + |t| ==> s[j] == t[j - i];
  }

  lemma OccurringByte(s: Str, t: Str, i: nat, k: nat)
    requires OccursAt(s, t, i) && k < |t|
    ensures s[i + k] == t[k]
  {
    assert s[i..i + |t|][k] == s[i + k];
  }

  lemma WithoutX(s: Str)
    requires forall i :: 0 <= i < |s| ==> s[i] != CAPITAL_X
    ensures !Contains(s, DENIAL)
  {
    assert DENIAL[1] == CAPITAL_X;
    forall i | 0 <= i <= |s| ensures !OccursAt(s, DENIAL, i) {
      if OccursAt(s, DENIAL, i) { OccurringByte(s, DENIAL, i, 1); }
    }
  }

  lemma FixedTexts()
    ensures !Contains(DEPTH, DENIAL) && !Contains(TARGET, DENIAL) && !Contains(SERVERS, DENIAL)
    ensures !Contains(NOTHING, DENIAL) && !Contains(LOOKUPS, DENIAL) && !Contains(ADDRESSES, DENIAL)
    ensures !Contains(NOBODY, DENIAL) && !Contains([], DENIAL)
    ensures Contains(DENIAL, DENIAL) && SPACE !in DENIAL && COLON !in DENIAL
  {
    WithoutX(DEPTH);
    WithoutX(TARGET);
    WithoutX(SERVERS);
    WithoutX(NOTHING);
    WithoutX(LOOKUPS);
    WithoutX(ADDRESSES);
    WithoutX(NOBODY);
    WithoutX([]);
    assert DENIAL[0..0 + |DENIAL|] == DENIAL;
    assert OccursAt(DENIAL, DENIAL, 0);
  }

  /** The text of a denial, and the word it is recognised by. */
  lemma DenialText(name: Str)
    ensures DENIAL == Ascii("NXDOMAIN")
    ensures ErrorText(NxDomain(name))
            == Ascii("NXDOMAIN") + Ascii(": ") + name + Ascii(" ") + Ascii("does not exist")
  {
    assert Ascii(": ") == [COLON] + [SPACE] && Ascii(" ") == [SPACE];
    hide Ascii;
  }

  /** A failure is remembered as a denial exactly when there is a denial in it, or the word occurs in a name
      or an outside text that it quotes. */
  lemma {:induction false} DenialExactly(f: Failure)
    ensures Denies(f) <==> MentionsDenial(f)
  {
    FixedTexts();
    hide Contains, Ascii;
    match f
    case DepthExceeded(name) => ContainsAcross(DEPTH, SPACE, name, DENIAL);
    case NxDomain(name) => ContainsAcross(DENIAL, COLON, [SPACE] + name + [SPACE] + ABSENT, DENIAL);
    case BadTarget =>
    case Upstream(_) =>
    case NoNameServers =>
    case NoAddresses(ns) =>
      ContainsAcross(ADDRESSES, SPACE, ns, DENIAL);
      ContainsAcross(LOOKUPS, SPACE, ADDRESSES + [SPACE] + ns, DENIAL);
    case AllFailed(name, last) =>
      var cause := if last.Some? then ErrorText(last.value) else NOTHING;
      ContainsAcross([], SPACE, cause, DENIAL);
      ContainsAcross(name, COLON, [] + [SPACE] + cause, DENIAL);
      ContainsAcross(SERVERS, SPACE, name + [COLON] + ([] + [SPACE] + cause), DENIAL);
      if last.Some? { DenialExactly(last.value); }
  }

  /** There is no denial in this failure, and one is written all the same. */
  lemma TimeoutDeniesUnluckyName()
    ensures Denies(AllFailed(DENIAL, Some(Upstream(Ascii("read: i/o timeout")))))
  {
    FixedTexts();
    DenialExactly(AllFailed(DENIAL, Some(Upstream(Ascii("read: i/o timeout")))));
  }
}
