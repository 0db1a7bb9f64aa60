/** Byte strings as the resolver uses them: dot-separated names, ASCII case folding,
    and the pieces of Go's `strings` package the modelled files rely on. */
module Text {
  type byte = x: int | 0 <= x < 256
  type Str = seq<byte>

  const DOT: byte := 46

  function LowerByte(b: byte): byte {
    if 65 <= b <= 90 then b + 32 else b
  }

  /** strings.ToLower on ASCII; bytes from 0x80 up are left alone. */
  function Lower(s: Str): (r: Str)
    ensures |r| == |s| && forall i :: 0 <= i < |s| ==> r[i] == LowerByte(s[i])
  {
    seq(|s|, i requires 0 <= i < |s| => LowerByte(s[i]))
  }

  function LowerAll(ls: seq<Str>): (r: seq<Str>)
    ensures |r| == |ls| && forall i :: 0 <= i < |ls| ==> r[i] == Lower(ls[i])
  {
    seq(|ls|, i requires 0 <= i < |ls| => Lower(ls[i]))
  }

  /** Equality up to ASCII case, strings.EqualFold. */
  predicate SameName(a: Str, b: Str) {
    Lower(a) == Lower(b)
  }

  predicate Dotless(s: Str) {
    DOT !in s
  }

  predicate AllDotless(ls: seq<Str>) {
    forall i :: 0 <= i < |ls| ==> Dotless(ls[i])
  }

  /** Position of the first dot, or the length when there is none. */
  function FirstDot(s: Str): (k: nat)
    ensures k <= |s| && Dotless(s[..k]) && (k < |s| ==> s[k] == DOT)
  {
    if s == [] || s[0] == DOT then 0
    else
      assert forall k: nat :: k <= |s[1..]| ==> s[..k + 1] == [s[0]] + s[1..][..k];
      1 + FirstDot(s[1..])
  }

  /** strings.Split(s, "."): always at least one piece. */
  function Split(s: Str): (ls: seq<Str>)
    ensures |ls| >= 1 && AllDotless(ls)
    decreases |s|
  {
    var k := FirstDot(s);
    if k == |s| then assert s[..k] == s; [s] else [s[..k]] + Split(s[k + 1..])
  }

  /** strings.Join(ls, "."). */
  function Join(ls: seq<Str>): Str {
    if ls == [] then []
    else if |ls| == 1 then ls[0]
    else ls[0] + [DOT] + Join(ls[1..])
  }

  /** strings.TrimSuffix(s, "."). */
  function TrimDot(s: Str): Str {
    if s != [] && s[|s| - 1] == DOT then s[..|s| - 1] else s
  }

  function TrimLeft(s: Str): Str {
    if s != [] && s[0] == DOT then TrimLeft(s[1..]) else s
  }

  function TrimRight(s: Str): Str {
    if s != [] && s[|s| - 1] == DOT then TrimRight(s[..|s| - 1]) else s
  }

  /** strings.Trim(s, "."). */
  function Trim(s: Str): Str {
    TrimRight(TrimLeft(s))
  }

  function NonEmpty(ls: seq<Str>): (r: seq<Str>)
    ensures forall i :: 0 <= i < |r| ==> r[i] in ls && r[i] != []
  {
    if ls == [] then []
    else if ls[0] == [] then NonEmpty(ls[1..])
    else [ls[0]] + NonEmpty(ls[1..])
  }

  /** The labels of a name: its non-empty dot-separated pieces. */
  function Labels(s: Str): seq<Str> {
    NonEmpty(Split(s))
  }

  /** A name with leading, trailing and doubled dots removed. */
  function Canon(s: Str): Str {
    Join(Labels(s))
  }

  /** A name without redundant dots: the root, or nothing empty between, before or after dots. */
  predicate Dotted(name: Str) {
    name == [] || forall i :: 0 <= i < |Split(name)| ==> Split(name)[i] != []
  }

  /* ----- Split and Join are inverse ----- */

  lemma FirstDotUnique(s: Str, k: nat)
    requires k <= |s| && Dotless(s[..k]) && (k < |s| ==> s[k] == DOT)
    ensures FirstDot(s) == k
  {
    var j := FirstDot(s);
    assert forall i :: 0 <= i < k ==> s[i] == s[..k][i];
    assert forall i :: 0 <= i < j ==> s[i] == s[..j][i];
  }

  lemma SplitHead(l: Str, rest: Str)
    requires Dotless(l)
    ensures Split(l + [DOT] + rest) == [l] + Split(rest)
  {
    var s := l + [DOT] + rest;
    assert s[..|l|] == l && s[|l| + 1..] == rest;
    FirstDotUnique(s, |l|);
  }

  lemma SplitDotless(l: Str)
    requires Dotless(l)
    ensures Split(l) == [l]
  {
    assert l[..|l|] == l;
    FirstDotUnique(l, |l|);
  }

  lemma {:induction false} SplitJoin(ls: seq<Str>)
    requires ls != [] && AllDotless(ls)
    ensures Split(Join(ls)) == ls
  {
    if |ls| == 1 {
      SplitDotless(ls[0]);
    } else {
      SplitHead(ls[0], Join(ls[1..]));
      SplitJoin(ls[1..]);
    }
  }

  lemma {:induction false} JoinSplit(s: Str)
    ensures Join(Split(s)) == s
    decreases |s|
  {
    var k := FirstDot(s);
    if k < |s| {
      JoinSplit(s[k + 1..]);
      assert Split(s)[1..] == Split(s[k + 1..]);
      assert s == s[..k] + [DOT] + s[k + 1..];
    } else {
      assert s[..k] == s;
    }
  }

  /* ----- Case folding commutes with everything ----- */

  lemma LowerConcat(a: Str, b: Str)
    ensures Lower(a + b) == Lower(a) + Lower(b)
  {
  }

  lemma {:induction false} LowerJoin(ls: seq<Str>)
    ensures Lower(Join(ls)) == Join(LowerAll(ls))
  {
    if |ls| > 1 {
      LowerJoin(ls[1..]);
      assert LowerAll(ls)[1..] == LowerAll(ls[1..]);
      LowerConcat(ls[0] + [DOT], Join(ls[1..]));
      LowerConcat(ls[0], [DOT]);
      assert Lower([DOT]) == [DOT];
    }
  }

  lemma LowerSplit(s: Str)
    ensures Split(Lower(s)) == LowerAll(Split(s))
  {
    JoinSplit(s);
    LowerJoin(Split(s));
    SplitJoin(LowerAll(Split(s)));
  }

  lemma {:induction false} LowerNonEmpty(ls: seq<Str>)
    ensures NonEmpty(LowerAll(ls)) == LowerAll(NonEmpty(ls))
  {
    hide Lower;
    if ls != [] {
      LowerNonEmpty(ls[1..]);
      assert LowerAll(ls)[1..] == LowerAll(ls[1..]);
      assert LowerAll(ls)[0] == [] <==> ls[0] == [];
    }
  }

  lemma LowerLabels(s: Str)
    ensures Labels(Lower(s)) == LowerAll(Labels(s))
  {
    LowerSplit(s);
    LowerNonEmpty(Split(s));
  }

  /** The key under which a suffix is stored determines the suffix's labels up to case. */
  lemma LabelsOfKey(ls: seq<Str>)
    requires ls != [] && AllDotless(ls)
    ensures Labels(Lower(Join(ls))) == LowerAll(NonEmpty(ls))
  {
    SplitJoin(ls);
    LowerLabels(Join(ls));
  }

  /* ----- Trimming does not change the labels ----- */

  lemma {:induction false} NonEmptyConcat(a: seq<Str>, b: seq<Str>)
    ensures NonEmpty(a + b) == NonEmpty(a) + NonEmpty(b)
  {
    if a == [] {
      assert a + b == b;
    } else {
      assert (a + b)[1..] == a[1..] + b;
      NonEmptyConcat(a[1..], b);
    }
  }

  lemma {:induction false} JoinConcat(x: seq<Str>, y: seq<Str>)
    requires x != [] && y != []
    ensures Join(x + y) == Join(x) + [DOT] + Join(y)
  {
    if |x| == 1 {
      assert (x + y)[1..] == y;
    } else {
      JoinConcat(x[1..], y);
      assert (x + y)[1..] == x[1..] + y;
    }
  }

  lemma SplitConcat(a: Str, b: Str)
    ensures Split(a + [DOT] + b) == Split(a) + Split(b)
  {
    JoinSplit(a);
    JoinSplit(b);
    JoinConcat(Split(a), Split(b));
    SplitJoin(Split(a) + Split(b));
  }

  lemma {:induction false} TrimLeftLabels(s: Str)
    ensures Labels(TrimLeft(s)) == Labels(s)
  {
    if s != [] && s[0] == DOT {
      TrimLeftLabels(s[1..]);
      SplitHead([], s[1..]);
      assert [] + [DOT] + s[1..] == s;
      assert Split(s)[1..] == Split(s[1..]);
    }
  }

  lemma {:induction false} TrimRightLabels(s: Str)
    ensures Labels(TrimRight(s)) == Labels(s)
  {
    if s != [] && s[|s| - 1] == DOT {
      var a := s[..|s| - 1];
      TrimRightLabels(a);
      SplitConcat(a, []);
      assert a + [DOT] + [] == s;
      SplitDotless([]);
      NonEmptyConcat(Split(a), [[]]);
    }
  }

  lemma TrimLabels(s: Str)
    ensures Labels(Trim(s)) == Labels(s)
  {
    TrimLeftLabels(s);
    TrimRightLabels(TrimLeft(s));
  }

  lemma {:induction false} NonEmptyId(ls: seq<Str>)
    requires forall i :: 0 <= i < |ls| ==> ls[i] != []
    ensures NonEmpty(ls) == ls
  {
    if ls != [] {
      NonEmptyId(ls[1..]);
    }
  }

  /** Canonical names are fixed points: splitting one gives back exactly the labels. */
  lemma LabelsOfCanon(s: Str)
    ensures Labels(Canon(s)) == Labels(s)
  {
    if Labels(s) == [] {
      SplitDotless([]);
    } else {
      SplitJoin(Labels(s));
      NonEmptyId(Labels(s));
    }
  }
}
