/** Domain suffix matching. Four algorithms on dotted strings (the filter's label-stripping walk,
    the zone table scan, the descendant test and the chain of zones) against one relation on
    label lists. */
module Domains {
  import opened Wrappers
  import opened Text

  /** strings.ToLower(strings.TrimSuffix(s, ".")) */
  function Normal(s: Str): Str {
    Lower(TrimDot(s))
  }

  /** Case does not matter, and neither does one trailing dot. */
  lemma NormalFolds(s: Str, t: Str)
    ensures SameName(s, t) ==> Normal(s) == Normal(t)
    ensures s == [] || s[|s| - 1] != '.' as int ==> Normal(s + ['.' as byte]) == Lower(s) && Normal(s) == Lower(s)
  {
    assert (s + [DOT])[..|s|] == s;
    if SameName(s, t) {
      assert |s| == |Lower(s)| == |Lower(t)| == |t|;
      assert s != [] ==> Lower(s)[|s| - 1] == Lower(t)[|s| - 1];
      assert Lower(TrimDot(s)) == Lower(s)[..|TrimDot(s)|] && Lower(TrimDot(t)) == Lower(t)[..|TrimDot(t)|];
    }
  }

  predicate EndsWith(s: Str, t: Str) {
    |t| <= |s| && s[|s| - |t|..] == t
  }

  /** s is t, or ends with a dot and t. */
  predicate Within(s: Str, t: Str) {
    s == t || EndsWith(s, [DOT] + t)
  }

  predicate LabelSuffix(a: seq<Str>, b: seq<Str>) {
    |a| <= |b| && b[|b| - |a|..] == a
  }

  /* ----- One relation ----- */

  lemma EndsWithDotted(s: Str, t: Str)
    requires EndsWith(s, [DOT] + t)
    ensures |t| < |s| && s == s[..|s| - |t| - 1] + [DOT] + t
  {
    var k := |s| - |t| - 1;
    assert s == s[..k] + s[k..];
  }

  lemma DottedEnds(a: Str, t: Str)
    ensures EndsWith(a + [DOT] + t, [DOT] + t)
  {
    assert a + [DOT] + t == a + ([DOT] + t);
  }

  lemma LabelsIfWithin(s: Str, t: Str)
    requires Within(s, t)
    ensures LabelSuffix(Split(t), Split(s))
  {
    hide Split;
    if s != t {
      var a := s[..|s| - |t| - 1];
      EndsWithDotted(s, t);
      SplitConcat(a, t);
    }
  }

  lemma WithinIfLabels(s: Str, t: Str)
    requires LabelSuffix(Split(t), Split(s))
    ensures Within(s, t)
  {
    hide Split, Join;
    var a := Split(s)[..|Split(s)| - |Split(t)|];
    assert Split(s) == a + Split(t);
    JoinSplit(s);
    JoinSplit(t);
    if a == [] {
      assert Split(s) == Split(t);
    } else {
      JoinConcat(a, Split(t));
      DottedEnds(Join(a), t);
    }
  }

  /** For all strings, being within a domain is having its labels as a suffix. */
  lemma {:induction false} WithinIffLabels(s: Str, t: Str)
    ensures Within(s, t) <==> LabelSuffix(Split(t), Split(s))
  {
    hide Within, LabelSuffix, Split;
    if Within(s, t) { LabelsIfWithin(s, t); }
    if LabelSuffix(Split(t), Split(s)) { WithinIfLabels(s, t); }
  }

  lemma WithinTransitive(a: Str, b: Str, c: Str)
    requires Within(a, b) && Within(b, c)
    ensures Within(a, c)
  {
    WithinIffLabels(a, b);
    WithinIffLabels(b, c);
    WithinIffLabels(a, c);
  }

  lemma SuffixStep(a: seq<Str>, h: Str, b: seq<Str>)
    ensures LabelSuffix(a, [h] + b) <==> a == [h] + b || LabelSuffix(a, b)
  {
    var all := [h] + b;
    if |a| <= |b| { assert all[|all| - |a|..] == b[|b| - |a|..]; }
  }

  /** Stripping the first label keeps every domain but the name itself. */
  lemma WithinStep(n: Str, d: Str)
    ensures Within(n, d) <==> n == d || (FirstDot(n) < |n| && Within(n[FirstDot(n) + 1..], d))
  {
    var k := FirstDot(n);
    WithinIffLabels(n, d);
    JoinSplit(n);
    JoinSplit(d);
    if k < |n| {
      var rest := n[k + 1..];
      WithinIffLabels(rest, d);
      assert Split(n) == [n[..k]] + Split(rest);
      hide Split, Within, Join;
      SuffixStep(Split(d), n[..k], Split(rest));
    } else {
      assert n[..k] == n;
      assert Split(n) == [n];
    }
  }

  /* ----- The filter ----- */

  const OFF: Str := [111, 102, 102]
  const BLACKLIST: Str := [98, 108, 97, 99, 107, 108, 105, 115, 116]
  const WHITELIST: Str := [119, 104, 105, 116, 101, 108, 105, 115, 116]

  predicate Blank(b: byte) {
    b == 32 || 9 <= b <= 13
  }

  /** strings.TrimSpace on ASCII. */
  function TrimSpace(s: Str): Str {
    if s != [] && Blank(s[0]) then TrimSpace(s[1..])
    else if s != [] && Blank(s[|s| - 1]) then TrimSpace(s[..|s| - 1])
    else s
  }

  /** What a lookup sees: one immutable snapshot. */
  datatype Snapshot = Snapshot(domains: set<Str>, mode: Str)

  ghost predicate Covered(domains: set<Str>, n: Str) {
    exists d :: d in domains && Within(n, d)
  }

  /** Whether a list in force blocks a name. */
  ghost predicate Verdict(s: Snapshot, name: Str) {
    s.mode != OFF && if Covered(s.domains, Normal(name)) then s.mode == BLACKLIST else s.mode == WHITELIST
  }

  class Filter {
    var state: Snapshot
    var inline: set<Str>

    /** Every inline domain is in force. */
    ghost predicate Valid()
      reads this
    {
      inline <= state.domains
    }

    /** `listed` is what the configured lists contain. */
    constructor (mode: Str, inlined: seq<Str>, listed: set<Str>)
      ensures Valid() && state.mode == Lower(mode)
      ensures inline == if Lower(mode) == OFF then {} else set i | 0 <= i < |inlined| :: Lower(TrimSpace(inlined[i]))
      ensures state.domains == if Lower(mode) == OFF then {} else inline + listed
    {
      var lower := Lower(mode);
      var domains: set<Str> := {};
      if lower != OFF {
        for i := 0 to |inlined|
          invariant domains == set j | 0 <= j < i :: Lower(TrimSpace(inlined[j]))
        {
          domains := domains + {Lower(TrimSpace(inlined[i]))};
        }
      }
      inline := domains;
      state := Snapshot(if lower != OFF then domains + listed else domains, lower);
    }

    /** The walk: the name, then the name less its first label, and so on. Inline domains are in force
        whatever has been added, removed or reloaded since. */
    method Blocked(name0: Str) returns (b: bool)
      requires Valid()
      ensures b <==> Verdict(state, name0)
      ensures Covered(inline, Normal(name0)) ==> (b <==> state.mode == BLACKLIST)
    {
      InlineInForce(inline, state, name0);
      var st := state;
      if st.mode == OFF {
        return false;
      }
      var name := Normal(name0);
      while true
        invariant Covered(st.domains, Normal(name0)) <==> Covered(st.domains, name)
        decreases |name|
      {
        if name in st.domains {
          assert Within(name, name);
          return st.mode == BLACKLIST;
        }
        var idx := FirstDot(name);
        forall d ensures Within(name, d) <==> name == d || (idx < |name| && Within(name[idx + 1..], d)) {
          WithinStep(name, d);
        }
        if idx == |name| {
          break;
        }
        name := name[idx + 1..];
      }
      return st.mode == WHITELIST;
    }

    method Add(domain: Str)
      requires Valid()
      modifies this
      ensures Valid() && inline == old(inline) + {Lower(TrimSpace(domain))}
      ensures state == old(state).(domains := old(state).domains + {Lower(TrimSpace(domain))})
    {
      var d := Lower(TrimSpace(domain));
      inline := inline + {d};
      state := Snapshot(state.domains + {d}, state.mode);
    }

    method Remove(domain: Str)
      requires Valid()
      modifies this
      ensures Valid() && inline == old(inline) - {Lower(TrimSpace(domain))}
      ensures state == old(state).(domains := old(state).domains - {Lower(TrimSpace(domain))})
    {
      var d := Lower(TrimSpace(domain));
      inline := inline - {d};
      state := Snapshot(state.domains - {d}, state.mode);
    }

    method SetMode(mode: Str)
      requires Valid()
      modifies this
      ensures Valid() && inline == old(inline) && state == old(state).(mode := Lower(mode))
    {
      state := Snapshot(state.domains, Lower(mode));
    }

    /** Lists are read again, inline domains stay. */
    method Reload(mode: Str, listed: set<Str>)
      requires Valid()
      modifies this
      ensures Valid() && inline == old(inline)
      ensures state == Snapshot(inline + (if Lower(mode) == OFF then {} else listed), Lower(mode))
    {
      var lower := Lower(mode);
      var loaded := if lower != OFF then listed else {};
      state := Snapshot(loaded + inline, lower);
    }
  }

  lemma InlineInForce(inline: set<Str>, s: Snapshot, name: Str)
    requires inline <= s.domains
    ensures Covered(inline, Normal(name)) ==> (Verdict(s, name) <==> s.mode == BLACKLIST)
  {
    hide Normal, Within;
    if Covered(inline, Normal(name)) {
      var d :| d in inline && Within(Normal(name), d);
      assert d in s.domains;
    }
  }

  predicate Spells(s: Str, text: string) {
    |s| == |text| && forall i :: 0 <= i < |s| ==> s[i] == text[i] as int
  }

  /** In labels, and with the modes by their names: a blacklist blocks the names that end in the labels of a listed
      domain, a whitelist all others, and any other mode nothing. */
  lemma {:induction false} VerdictExactly(s: Snapshot, name: Str)
    ensures var listed := exists d :: d in s.domains && LabelSuffix(Split(d), Split(Lower(TrimDot(name))));
            Verdict(s, name) <==> (Spells(s.mode, "blacklist") && listed) || (Spells(s.mode, "whitelist") && !listed)
  {
    var n := Normal(name);
    assert Spells(BLACKLIST, "blacklist") && Spells(WHITELIST, "whitelist") && Spells(OFF, "off");
    SameSpelling(s.mode, BLACKLIST, "blacklist");
    SameSpelling(s.mode, WHITELIST, "whitelist");
    forall d ensures Within(n, d) <==> LabelSuffix(Split(d), Split(n)) {
      WithinIffLabels(n, d);
    }
    hide Within, LabelSuffix, Split, Spells;
    assert Covered(s.domains, n) <==> exists d :: d in s.domains && LabelSuffix(Split(d), Split(n));
  }

  lemma SameSpelling(s: Str, t: Str, text: string)
    requires Spells(t, text)
    ensures Spells(s, text) <==> s == t
  {
  }

  /** Adding a domain changes the verdict for exactly the names within it that no listed domain
      covered; names below a blocked name are blocked too. */
  lemma {:induction false} AddedDomain(s: Snapshot, d: Str, name: Str)
    ensures Verdict(s, name) != Verdict(s.(domains := s.domains + {d}), name)
            <==> (s.mode == BLACKLIST || s.mode == WHITELIST)
                 && Within(Normal(name), d) && !Covered(s.domains, Normal(name))
  {
    var more := s.domains + {d};
    assert Covered(more, Normal(name)) <==> Covered(s.domains, Normal(name)) || Within(Normal(name), d) by {
      if Within(Normal(name), d) { assert d in more; }
      if Covered(s.domains, Normal(name)) {
        var x :| x in s.domains && Within(Normal(name), x);
        assert x in more;
      }
    }
  }

  lemma {:induction false} SubdomainsShareVerdict(s: Snapshot, name: Str, below: Str)
    requires Within(Normal(below), Normal(name))
    ensures s.mode == BLACKLIST && Verdict(s, name) ==> Verdict(s, below)
    ensures s.mode == WHITELIST && Verdict(s, below) ==> Verdict(s, name)
  {
    if Covered(s.domains, Normal(name)) {
      var d :| d in s.domains && Within(Normal(name), d);
      WithinTransitive(Normal(below), Normal(name), d);
      assert Covered(s.domains, Normal(below));
    }
  }

  /* ----- The zone table ----- */

  predicate Matches(zone: Str, n: Str) {
    Within(n, Normal(zone)) && Normal(zone) != []
  }

  /** lookupZone: one pass, keeping the longest match so far. */
  method LookupZone(zones: seq<Str>, name: Str) returns (best: Option<nat>)
    ensures best == FirstHit(zones, Normal(name))
    ensures Best(zones, Normal(name), best)
  {
    hide Within, Best, Normal, EndsWith, FirstHit;
    var n := Normal(name);
    var bestLen := 0;
    best := None;
    NoneBest(zones[..0], n);
    for i := 0 to |zones|
      invariant best.Some? ==> best.value < i && bestLen == |Normal(zones[best.value])|
      invariant best.None? ==> bestLen == 0
      invariant Best(zones[..i], n, best)
    {
      BestOneMore(zones, i, n, best);
      WithinDef(n, Normal(zones[i]));
      var domain := Normal(zones[i]);
      if n == domain || EndsWith(n, [DOT] + domain) {
        if |domain| > bestLen {
          bestLen := |domain|;
          best := Some(i);
        }
      }
    }
    assert zones[..|zones|] == zones;
    BestIsFirstHit(zones, n, best);
  }

  /** The longest matching non-empty domain, the first of equals. */
  predicate Best(zones: seq<Str>, n: Str, best: Option<nat>) {
    match best
    case None => forall i :: 0 <= i < |zones| ==> !Matches(zones[i], n)
    case Some(b) =>
      && b < |zones| && Matches(zones[b], n)
      && (forall i :: 0 <= i < |zones| && Matches(zones[i], n) ==> |Normal(zones[i])| <= |Normal(zones[b])|)
      && (forall i :: 0 <= i < b && Matches(zones[i], n) ==> |Normal(zones[i])| < |Normal(zones[b])|)
  }

  lemma NoneBest(zones: seq<Str>, n: Str)
    requires zones == []
    ensures Best(zones, n, None)
  {
  }

  lemma WithinDef(s: Str, t: Str)
    ensures Within(s, t) <==> s == t || EndsWith(s, [DOT] + t)
  {
  }

  lemma BestOneMore(zones: seq<Str>, i: nat, n: Str, best: Option<nat>)
    requires i < |zones| && Best(zones[..i], n, best)
    ensures var longer := best.None? || |Normal(zones[best.value])| < |Normal(zones[i])|;
            Best(zones[..i + 1], n, if Matches(zones[i], n) && longer then Some(i) else best)
  {
    hide Within, Normal;
    var more := zones[..i + 1];
    assert more[i] == zones[i] && forall j :: 0 <= j < i ==> more[j] == zones[..i][j];
  }

  /** The first zone with exactly this domain. */
  function IndexOf(zones: seq<Str>, d: Str): (r: Option<nat>)
    ensures r.Some? ==> r.value < |zones| && Normal(zones[r.value]) == d
                        && forall i :: 0 <= i < r.value ==> Normal(zones[i]) != d
    ensures r.None? ==> forall i :: 0 <= i < |zones| ==> Normal(zones[i]) != d
  {
    if zones == [] then None
    else
      var front := zones[..|zones| - 1];
      assert forall i :: 0 <= i < |front| ==> zones[i] == front[i];
      if IndexOf(front, d).Some? then IndexOf(front, d)
      else if Normal(zones[|zones| - 1]) == d then Some(|zones| - 1)
      else None
  }

  /** The same label-stripping walk as the filter's, over the table. */
  function FirstHit(zones: seq<Str>, n: Str): Option<nat>
    decreases |n|
  {
    if n != [] && IndexOf(zones, n).Some? then IndexOf(zones, n)
    else if FirstDot(n) == |n| then None
    else FirstHit(zones, n[FirstDot(n) + 1..])
  }

  lemma MatchesStep(zones: seq<Str>, n: Str)
    ensures forall i :: 0 <= i < |zones| ==>
              (Matches(zones[i], n) <==>
                 Normal(zones[i]) != []
                 && (n == Normal(zones[i]) || (FirstDot(n) < |n| && Matches(zones[i], n[FirstDot(n) + 1..]))))
  {
    hide Normal, Within;
    forall i | 0 <= i < |zones|
      ensures Within(n, Normal(zones[i]))
              <==> n == Normal(zones[i]) || (FirstDot(n) < |n| && Within(n[FirstDot(n) + 1..], Normal(zones[i])))
    {
      WithinStep(n, Normal(zones[i]));
    }
  }

  lemma ShorterMatches(zones: seq<Str>, n: Str)
    ensures forall i :: 0 <= i < |zones| && Matches(zones[i], n) ==>
              Normal(zones[i]) == n || |Normal(zones[i])| < |n|
  {
    hide Normal;
  }

  lemma {:induction false} BestIsFirstHit(zones: seq<Str>, n: Str, best: Option<nat>)
    requires Best(zones, n, best)
    ensures best == FirstHit(zones, n)
    decreases |n|
  {
    MatchesStep(zones, n);
    ShorterMatches(zones, n);
    hide Normal, Matches, FirstDot, IndexOf;
    if n != [] && IndexOf(zones, n).Some? {
      var k := IndexOf(zones, n).value;
      assert Matches(zones[k], n);
    } else if FirstDot(n) < |n| {
      var rest := n[FirstDot(n) + 1..];
      MatchesNonEmpty(zones, rest);
      assert forall i :: 0 <= i < |zones| ==> (Matches(zones[i], n) <==> Matches(zones[i], rest));
      BestIsFirstHit(zones, rest, best);
    }
  }

  lemma MatchesNonEmpty(zones: seq<Str>, n: Str)
    ensures forall i :: 0 <= i < |zones| && Matches(zones[i], n) ==> Normal(zones[i]) != []
  {
    hide Normal;
  }

  /* ----- Zones below zones ----- */

  predicate IsDescendant(child0: Str, ancestor0: Str) {
    var child, ancestor := Normal(child0), Normal(ancestor0);
    if child == [] || child == ancestor then false
    else if ancestor == [] then true
    else EndsWith(child, [DOT] + ancestor)
  }

  /** The root zone has no labels. */
  function ZoneLabels(s: Str): seq<Str> {
    if s == [] then [] else Split(s)
  }

  lemma DescendantIffWithin(child: Str, ancestor: Str)
    ensures IsDescendant(child, ancestor) <==>
              && Normal(child) != [] && Normal(child) != Normal(ancestor)
              && (Normal(ancestor) == [] || Within(Normal(child), Normal(ancestor)))
  {
    hide Normal, EndsWith;
  }

  lemma DescendantIffLabels(child: Str, ancestor: Str)
    ensures IsDescendant(child, ancestor)
            <==> LabelSuffix(ZoneLabels(Normal(ancestor)), ZoneLabels(Normal(child)))
                 && Normal(child) != Normal(ancestor)
  {
    DescendantIffWithin(child, ancestor);
    hide Normal, IsDescendant, Within, Split;
    WithinIffLabels(Normal(child), Normal(ancestor));
  }

  /** A strict partial order on names up to case and a trailing dot. */
  lemma {:induction false} DescendantIsStrictOrder(a: Str, b: Str, c: Str)
    ensures !IsDescendant(a, a)
    ensures IsDescendant(a, b) ==> !IsDescendant(b, a)
    ensures IsDescendant(a, b) && IsDescendant(b, c) ==> IsDescendant(a, c)
  {
    hide Normal;
    DescendantIffLabels(a, b);
    DescendantIffLabels(b, a);
    DescendantIffLabels(b, c);
    DescendantIffLabels(a, c);
    JoinSplit(Normal(a));
    JoinSplit(Normal(b));
    JoinSplit(Normal(c));
  }

  /* ----- The chain of zones ----- */

  function Under(l: Str, zone: Str): Str {
    if zone == [] then l else l + [DOT] + zone
  }

  /** One zone per label, from the last label up. */
  function Steps(zone: Str, labels: seq<Str>): (r: seq<Str>)
    ensures |r| == |labels|
    decreases |labels|
  {
    if labels == [] then []
    else
      var next := Under(labels[|labels| - 1], zone);
      [next] + Steps(next, labels[..|labels| - 1])
  }

  lemma StepsNext(zone: Str, labels: seq<Str>)
    ensures labels == [] ==> Steps(zone, labels) == []
    ensures labels != [] ==>
              var next := Under(labels[|labels| - 1], zone);
              Steps(zone, labels) == [next] + Steps(next, labels[..|labels| - 1])
  {
  }

  function Above(p: Str, t: Str): Str {
    if p == [] || !EndsWith(t, [DOT] + p) then t else t[..|t| - |p| - 1]
  }

  function Chain(parent: Str, target: Str): seq<Str> {
    var p, t := Normal(parent), Normal(target);
    if !IsDescendant(t, p) then [] else Steps(p, Split(Above(p, t)))
  }

  lemma ChainDef(parent: Str, target: Str)
    ensures IsDescendant(Normal(target), Normal(parent)) ==>
              && Normal(target) != []
              && Chain(parent, target) == Steps(Normal(parent), Split(Above(Normal(parent), Normal(target))))
    ensures !IsDescendant(Normal(target), Normal(parent)) ==> Chain(parent, target) == []
  {
    hide Split, Above, Steps, Lower;
  }

  method ZoneChain(parent0: Str, target0: Str) returns (chain: seq<Str>)
    ensures chain == Chain(parent0, target0)
  {
    hide Steps, Normal, Split, IsDescendant, Chain, EndsWith;
    ChainDef(parent0, target0);
    var parent, target := Normal(parent0), Normal(target0);
    if !IsDescendant(target, parent) {
      return [];
    }
    hide *;
    var remainder := if parent == [] then target else Above(parent, target);
    AboveNothing(target);
    var labels := Split(remainder);
    chain := [];
    var current := parent;
    var i := |labels| - 1;
    UnrolledStart(parent, labels);
    while i >= 0
      invariant -1 <= i < |labels|
      invariant Unrolled(chain, current, labels, i + 1, Steps(parent, labels))
    {
      UnrolledNext(chain, current, labels, i, Steps(parent, labels));
      UnderCases(labels[i], current);
      if current == [] {
        current := labels[i];
      } else {
        current := labels[i] + [DOT] + current;
      }
      chain := chain + [current];
      i := i - 1;
    }
    UnrolledEnd(chain, current, labels, Steps(parent, labels));
  }

  /** The zones so far, and the rest of the labels still to do. */
  predicate Unrolled(chain: seq<Str>, current: Str, labels: seq<Str>, n: nat, all: seq<Str>) {
    n <= |labels| && chain + Steps(current, labels[..n]) == all
  }

  lemma UnrolledStart(zone: Str, labels: seq<Str>)
    ensures Unrolled([], zone, labels, |labels|, Steps(zone, labels))
  {
    hide Steps;
    assert labels[..|labels|] == labels;
    assert [] + Steps(zone, labels) == Steps(zone, labels);
  }

  lemma UnrolledNext(chain: seq<Str>, current: Str, labels: seq<Str>, i: nat, all: seq<Str>)
    requires i < |labels| && Unrolled(chain, current, labels, i + 1, all)
    ensures Unrolled(chain + [Under(labels[i], current)], Under(labels[i], current), labels, i, all)
  {
    StepsNext(current, labels[..i + 1]);
    assert labels[..i + 1][..i] == labels[..i];
    hide Steps, Under;
    var next := Under(labels[i], current);
    assert chain + ([next] + Steps(next, labels[..i])) == (chain + [next]) + Steps(next, labels[..i]);
  }

  lemma UnrolledEnd(chain: seq<Str>, current: Str, labels: seq<Str>, all: seq<Str>)
    requires Unrolled(chain, current, labels, 0, all)
    ensures chain == all
  {
    assert chain + [] == chain;
  }

  lemma UnderCases(l: Str, zone: Str)
    ensures Under(l, zone) == if zone == [] then l else l + [DOT] + zone
  {
  }

  lemma AboveNothing(t: Str)
    ensures Above([], t) == t
  {
  }

  lemma UnderLabels(l: Str, zone: Str)
    requires Dotless(l) && (zone != [] || l != [])
    ensures Under(l, zone) != [] && ZoneLabels(Under(l, zone)) == [l] + ZoneLabels(zone)
  {
    hide Split;
    if zone == [] {
      SplitDotless(l);
    } else {
      SplitHead(l, zone);
    }
  }

  /** The labels of a zone with more in front. */
  function Whole(labels: seq<Str>, zone: Str): seq<Str> {
    labels + ZoneLabels(zone)
  }

  lemma FoldLast(labels: seq<Str>, zone: Str)
    requires labels != [] && AllDotless(labels) && (zone != [] || labels[|labels| - 1] != [])
    ensures var n := |labels| - 1;
            var next := Under(labels[n], zone);
            && next != [] && AllDotless(labels[..n])
            && Whole(labels[..n], next) == Whole(labels, zone) && n <= |Whole(labels, zone)|
            && ZoneLabels(next) == Whole(labels, zone)[n..]
  {
    var n, base := |labels| - 1, ZoneLabels(zone);
    UnderLabels(labels[n], zone);
    FrontDotless(labels);
    Regroup(labels, base, labels + base);
    hide ZoneLabels, Under;
  }

  /** From a zone with these labels, each step puts one more label in front. */
  lemma {:induction false} StepsShape(zone: Str, labels: seq<Str>, i: nat)
    requires i < |labels| && AllDotless(labels)
    requires zone != [] || labels[|labels| - 1] != []
    ensures |labels| <= |Whole(labels, zone)| && Steps(zone, labels)[i] != []
    ensures ZoneLabels(Steps(zone, labels)[i]) == Whole(labels, zone)[|labels| - 1 - i..]
    decreases |labels|
  {
    hide *;
    WholeSize(labels, zone);
    FoldLast(labels, zone);
    StepsAt(zone, labels, i);
    if i > 0 {
      StepsShape(Under(labels[|labels| - 1], zone), labels[..|labels| - 1], i - 1);
    }
  }

  lemma WholeSize(labels: seq<Str>, zone: Str)
    ensures |Whole(labels, zone)| == |labels| + |ZoneLabels(zone)|
  {
    hide ZoneLabels;
  }

  lemma Regroup(labels: seq<Str>, base: seq<Str>, full: seq<Str>)
    requires labels != [] && full == labels + base
    ensures var n := |labels| - 1;
            full == labels[..n] + ([labels[n]] + base) && full[n..] == [labels[n]] + base
  {
    var n := |labels| - 1;
    assert full[n..] == [labels[n]] + base;
    assert full == full[..n] + full[n..];
  }

  lemma FrontDotless(labels: seq<Str>)
    requires labels != [] && AllDotless(labels)
    ensures AllDotless(labels[..|labels| - 1])
  {
  }

  lemma StepsAt(zone: Str, labels: seq<Str>, i: nat)
    requires i < |labels|
    ensures var next := Under(labels[|labels| - 1], zone);
            Steps(zone, labels)[i] == if i == 0 then next else Steps(next, labels[..|labels| - 1])[i - 1]
  {
    hide Under;
  }

  lemma {:induction false} StepsEndShort(zone: Str, labels: seq<Str>)
    requires labels != []
    ensures |Steps(zone, labels)[|labels| - 1]| <= |Join(labels)| + if zone == [] then 0 else 1 + |zone|
    decreases |labels|
  {
    var l, front := labels[|labels| - 1], labels[..|labels| - 1];
    if front != [] {
      StepsEndShort(Under(l, zone), front);
      JoinConcat(front, [l]);
      assert labels == front + [l];
    }
  }

  /** When the chain of zones leads to its target: one trailing dot is all that is trimmed here, but
      the descendant test trims a second one, and below the root a trailing empty label is lost. */
  predicate Reaches(p: Str, t: Str) {
    IsDescendant(t, p) && Joined(p, t)
  }

  lemma LastLabelEmpty(t: Str)
    requires EndsWith(t, [DOT])
    ensures |Split(t)| >= 2 && Split(t)[|Split(t)| - 1] == []
  {
    hide Split;
    EndsWithDotted(t, []);
    SplitConcat(t[..|t| - 1], []);
    SplitDotless([]);
  }

  /** An empty label at the end is a trailing dot. */
  lemma EmptyAtEnd(labels: seq<Str>) returns (front: seq<Str>)
    requires labels != [] && labels[|labels| - 1] == []
    ensures front == labels[..|labels| - 1]
    ensures Join(labels) == if front == [] then [] else Join(front) + [DOT]
  {
    hide Join;
    front := labels[..|labels| - 1];
    JoinOne([]);
    assert labels == front + [[]];
    if front != [] {
      JoinConcat(front, [[]]);
    } else {
      assert labels == [[]];
    }
  }

  lemma LastLabelFull(t: Str)
    requires t != [] && Split(t)[|Split(t)| - 1] == []
    ensures EndsWith(t, [DOT])
  {
    hide *;
    JoinSplit(t);
    var front := EmptyAtEnd(Split(t));
    DottedEnds(Join(front), []);
    assert Join(front) + [DOT] + [] == t && [DOT] + [] == [DOT];
  }

  lemma LastLabel(t: Str)
    requires t != []
    ensures Split(t)[|Split(t)| - 1] == [] <==> EndsWith(t, [DOT])
  {
    hide Split, EndsWith;
    if EndsWith(t, [DOT]) { LastLabelEmpty(t); }
    if Split(t)[|Split(t)| - 1] == [] { LastLabelFull(t); }
  }

  lemma JoinOne(l: Str)
    ensures Join([l]) == l
  {
  }

  /** The labels above the parent, none lost. */
  lemma LabelsAbove(p: Str, t: Str)
    requires t != [] && (p == [] || EndsWith(t, [DOT] + p))
    ensures ZoneLabels(t) == Split(Above(p, t)) + ZoneLabels(p)
  {
    hide Split;
    if p != [] {
      var a := Above(p, t);
      EndsWithDotted(t, p);
      assert t == a + [DOT] + p;
      SplitConcat(a, p);
    }
  }

  /** The condition of Reaches that is about the strings alone. */
  predicate Joined(p: Str, t: Str) {
    if p == [] then !EndsWith(t, [DOT]) else EndsWith(t, [DOT] + p)
  }

  lemma ZoneLabelsInjective(a: Str, b: Str)
    ensures ZoneLabels(a) == ZoneLabels(b) <==> a == b
  {
    JoinSplit(a);
    JoinSplit(b);
  }

  lemma RootLosesLabel(t: Str)
    requires t != [] && EndsWith(t, [DOT])
    ensures Steps([], Split(t))[|Split(t)| - 1] != t
  {
    hide *;
    LastLabel(t);
    JoinSplit(t);
    var front := EmptyAtEnd(Split(t));
    StepsNext([], Split(t));
    JustRoot();
    StepsEndShort([], front);
  }

  lemma JustRoot()
    ensures Under([], []) == []
  {
  }

  lemma LastOfSteps(zone: Str, labels: seq<Str>, t: Str)
    requires labels != [] && AllDotless(labels) && (zone != [] || labels[|labels| - 1] != [])
    ensures Steps(zone, labels)[|labels| - 1] == t <==> ZoneLabels(t) == Whole(labels, zone)
  {
    hide *;
    var n := |labels| - 1;
    AllSteps(zone, labels, n);
    JoinedEqually(Steps(zone, labels)[n], t, Whole(labels, zone));
  }

  lemma AllSteps(zone: Str, labels: seq<Str>, n: nat)
    requires n + 1 == |labels| && AllDotless(labels) && (zone != [] || labels[n] != [])
    ensures ZoneLabels(Steps(zone, labels)[n]) == Whole(labels, zone)
  {
    hide *;
    StepsShape(zone, labels, n);
    var whole := Whole(labels, zone);
    assert whole[0..] == whole;
  }

  lemma JoinedEqually(a: Str, b: Str, labels: seq<Str>)
    requires ZoneLabels(a) == labels
    ensures a == b <==> ZoneLabels(b) == labels
  {
    ZoneLabelsInjective(a, b);
    hide ZoneLabels;
  }

  lemma LastStep(p: Str, t: Str)
    requires t != []
    ensures var labels := Split(Above(p, t));
            Steps(p, labels)[|labels| - 1] == t <==> Joined(p, t)
  {
    hide *;
    var labels := Split(Above(p, t));
    AboveIff(p, t);
    if labels[|labels| - 1] == [] && p == [] {
      assert Above(p, t) == t && EndsWith(t, [DOT]) by { RootAbove(p, t); }
      RootLosesLabel(t);
    } else {
      LastOfSteps(p, labels, t);
    }
  }

  lemma RootAbove(p: Str, t: Str)
    requires t != [] && p == [] && Split(Above(p, t))[|Split(Above(p, t))| - 1] == []
    ensures Above(p, t) == t && EndsWith(t, [DOT])
  {
    hide Split;
    LastLabel(t);
  }

  lemma AboveIff(p: Str, t: Str)
    requires t != []
    ensures var labels := Split(Above(p, t));
            Joined(p, t) <==> ZoneLabels(t) == Whole(labels, p) && (p == [] ==> labels[|labels| - 1] != [])
  {
    hide Split;
    if p == [] {
      LastLabel(t);
    } else if Joined(p, t) {
      LabelsAbove(p, t);
    } else {
      assert |ZoneLabels(t)| < |Split(t)| + |ZoneLabels(p)|;
    }
  }

  /** Where the chain leads to the target, it has one zone per label between the two, each made of
      the last so many labels of the target. */
  lemma ChainAddsOneLabel(parent: Str, target: Str, i: nat)
    requires Reaches(Normal(parent), Normal(target))
    requires i < |Chain(parent, target)|
    ensures var p, t := ZoneLabels(Normal(parent)), ZoneLabels(Normal(target));
            && |Chain(parent, target)| == |t| - |p|
            && ZoneLabels(Chain(parent, target)[i]) == t[|t| - |p| - 1 - i..]
  {
    var p, t := Normal(parent), Normal(target);
    var labels, chain := Split(Above(p, t)), Chain(parent, target);
    hide *;
    assert IsDescendant(t, p) && Joined(p, t) by { ReachesDef(p, t); }
    ChainDef(parent, target);
    StepsOfTarget(p, t, i);
  }

  lemma ReachesDef(p: Str, t: Str)
    ensures Reaches(p, t) <==> IsDescendant(t, p) && Joined(p, t)
  {
    hide IsDescendant, Joined;
  }

  lemma StepsOfTarget(p: Str, t: Str, i: nat)
    requires t != [] && Joined(p, t) && i < |Split(Above(p, t))|
    ensures var labels := Split(Above(p, t));
            && |ZoneLabels(t)| == |labels| + |ZoneLabels(p)|
            && ZoneLabels(Steps(p, labels)[i]) == ZoneLabels(t)[|labels| - 1 - i..]
  {
    AboveIff(p, t);
    hide *;
    WholeSize(Split(Above(p, t)), p);
    StepsShape(p, Split(Above(p, t)), i);
  }

  /** The chain is empty unless the target is below the parent, and it ends at the target exactly
      under the condition above. */
  lemma {:induction false} ChainEndsAtTarget(parent: Str, target: Str)
    ensures var p, t, chain := Normal(parent), Normal(target), Chain(parent, target);
            && (chain != [] <==> IsDescendant(t, p))
            && (chain != [] && chain[|chain| - 1] == t <==> Reaches(p, t))
  {
    var p, t := Normal(parent), Normal(target);
    assert IsDescendant(t, p) ==> t != [];
    hide Normal, IsDescendant, EndsWith, Steps, Split, Above;
    if t != [] { LastStep(p, t); }
  }

  lemma NormalTwice(s: Str)
    requires !EndsWith(Normal(s), [DOT])
    ensures Normal(Normal(s)) == Normal(s)
  {
    var n := Normal(s);
    assert n != [] ==> n[|n| - 1..] == [n[|n| - 1]];
    assert TrimDot(n) == n;
  }

  /** For names with at most one trailing dot, the chain reaches the target whenever the target is
      below the parent. */
  lemma {:induction false} OrdinaryNamesReach(parent: Str, target: Str)
    requires !EndsWith(Normal(parent), [DOT]) && !EndsWith(Normal(target), [DOT])
    ensures Reaches(Normal(parent), Normal(target)) <==> IsDescendant(target, parent)
  {
    NormalTwice(parent);
    NormalTwice(target);
    hide Normal, EndsWith;
  }
}
