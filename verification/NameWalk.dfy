/** Reading a possibly compressed domain name out of a packet (RFC 1035, section 4.1.4):
    the walk over label and pointer bytes, and the loop that guards it with a visited set. */
module NameWalk {
  import opened Wrappers
  import opened Text

  datatype NameError =
    | OutOfBounds
    | PointerTruncated
    | PointerLoop
    | ReservedLabel
    | LabelOutOfBounds

  /** What the bytes at one offset say. */
  datatype Hop =
    | End
    | Label(text: Str, next: nat)
    | Pointer(target: nat)
    | Bad(error: NameError)

  const POINTER_TARGETS: nat := 0x4000

  /** The two top bits of the first byte choose: 11 is a pointer (192 and up), 00 a label
      (below 64), anything between is reserved. */
  function HopAt(buf: Str, at: nat): (h: Hop)
    ensures h.Label? ==> at < h.next <= |buf| && 1 <= |h.text| <= 63
    ensures h.Pointer? ==> at + 2 <= |buf| && h.target < POINTER_TARGETS
    ensures h.End? ==> at < |buf|
  {
    if at >= |buf| then Bad(OutOfBounds)
    else if buf[at] == 0 then End
    else if buf[at] >= 192 then
      if at + 1 >= |buf| then Bad(PointerTruncated)
      else Pointer((buf[at] as int - 192) * 256 + buf[at + 1] as int)
    else if buf[at] >= 64 then Bad(ReservedLabel)
    else if at + 1 + buf[at] > |buf| then Bad(LabelOutOfBounds)
    else Label(buf[at + 1..at + 1 + buf[at]], at + 1 + buf[at])
  }

  /* ----- The unguarded walk: follow hops with no memory of where it has been ----- */

  datatype Walk =
    | Walking(at: nat, labels: seq<Str>)
    | Arrived(labels: seq<Str>)
    | Failed(error: NameError)

  function Advance(buf: Str, w: Walk): Walk {
    match w
    case Walking(at, labels) =>
      (match HopAt(buf, at)
       case End => Arrived(labels)
       case Label(text, next) => Walking(next, labels + [text])
       case Pointer(target) => Walking(target, labels)
       case Bad(error) => Failed(error))
    case _ => w
  }

  /** The walk from `offset` after `n` hops. */
  function WalkN(buf: Str, offset: nat, n: nat): Walk {
    if n == 0 then Walking(offset, []) else Advance(buf, WalkN(buf, offset, n - 1))
  }

  ghost predicate Halts(buf: Str, offset: nat) {
    exists n: nat :: !WalkN(buf, offset, n).Walking?
  }

  /** Where parsing resumes after a name: behind its first zero byte or first pointer. */
  function NameEnd(buf: Str, at: nat): (end: nat)
    ensures at < end
    decreases |buf| - at
  {
    match HopAt(buf, at)
    case End => at + 1
    case Pointer(_) => at + 2
    case Label(_, next) => NameEnd(buf, next)
    case Bad(_) => at + 1
  }

  /** What reading a name means, with no visited set: the unguarded walk's outcome when it
      has one, and a pointer loop when it runs forever. */
  ghost function Parsed(buf: Str, offset: nat): Result<(Str, nat), NameError> {
    if Halts(buf, offset) then
      var n: nat :| !WalkN(buf, offset, n).Walking?;
      match WalkN(buf, offset, n)
      case Arrived(labels) => Ok((Join(labels), NameEnd(buf, offset)))
      case Failed(error) => Err(error)
    else Err(PointerLoop)
  }

  lemma {:induction false} HaltedStays(buf: Str, offset: nat, n: nat, m: nat)
    requires n <= m && !WalkN(buf, offset, n).Walking?
    ensures WalkN(buf, offset, m) == WalkN(buf, offset, n)
  {
    if n < m {
      HaltedStays(buf, offset, n, m - 1);
    }
  }

  /** Any halting point of the walk decides what Parsed is. */
  lemma ParsedAt(buf: Str, offset: nat, n: nat)
    requires !WalkN(buf, offset, n).Walking?
    ensures WalkN(buf, offset, n).Arrived? ==>
              Parsed(buf, offset) == Ok((Join(WalkN(buf, offset, n).labels), NameEnd(buf, offset)))
    ensures WalkN(buf, offset, n).Failed? ==> Parsed(buf, offset) == Err(WalkN(buf, offset, n).error)
  {
    forall m: nat | !WalkN(buf, offset, m).Walking?
      ensures WalkN(buf, offset, m) == WalkN(buf, offset, n)
    {
      if n <= m { HaltedStays(buf, offset, n, m); } else { HaltedStays(buf, offset, m, n); }
    }
  }

  predicate SamePlace(x: Walk, y: Walk) {
    x.Walking? == y.Walking? && (x.Walking? ==> x.at == y.at)
  }

  lemma AdvanceSamePlace(buf: Str, x: Walk, y: Walk)
    requires SamePlace(x, y)
    ensures SamePlace(Advance(buf, x), Advance(buf, y))
  {
  }

  /** Standing twice at one offset, the walk repeats itself hop for hop. */
  lemma {:induction false} SamePlaceSameFuture(buf: Str, offset: nat, a: nat, b: nat, d: nat)
    requires SamePlace(WalkN(buf, offset, a), WalkN(buf, offset, b))
    ensures SamePlace(WalkN(buf, offset, a + d), WalkN(buf, offset, b + d))
  {
    if d > 0 {
      SamePlaceSameFuture(buf, offset, a, b, d - 1);
      AdvanceSamePlace(buf, WalkN(buf, offset, a + d - 1), WalkN(buf, offset, b + d - 1));
    }
  }

  /** A walk that returns to an offset never ends: this is why the visited set is exact. */
  lemma {:induction false} RevisitNeverHalts(buf: Str, offset: nat, a: nat, b: nat, n: nat)
    requires a < b
    requires WalkN(buf, offset, a).Walking? && WalkN(buf, offset, b).Walking?
    requires WalkN(buf, offset, a).at == WalkN(buf, offset, b).at
    ensures WalkN(buf, offset, n).Walking?
    decreases n
  {
    hide WalkN;
    if n <= b {
      if !WalkN(buf, offset, n).Walking? { HaltedStays(buf, offset, n, b); }
    } else {
      SamePlaceSameFuture(buf, offset, a, b, n - b);
      RevisitNeverHalts(buf, offset, a, b, a + (n - b));
    }
  }

  lemma {:induction false} JoinSnoc(ls: seq<Str>, l: Str)
    ensures Join(ls + [l]) == if ls == [] then l else Join(ls) + [DOT] + l
  {
    if |ls| >= 2 {
      JoinSnoc(ls[1..], l);
      assert (ls + [l])[1..] == ls[1..] + [l];
    }
  }

  predicate Plain(ls: seq<Str>) {
    forall i :: 0 <= i < |ls| ==> 1 <= |ls[i]| <= 63
  }

  lemma {:induction false} JoinEmptyIff(ls: seq<Str>)
    requires Plain(ls)
    ensures Join(ls) == [] <==> ls == []
  {
  }

  lemma {:induction false} WalkPlain(buf: Str, offset: nat, n: nat)
    ensures WalkN(buf, offset, n).Walking? ==> Plain(WalkN(buf, offset, n).labels)
    ensures WalkN(buf, offset, n).Arrived? ==> Plain(WalkN(buf, offset, n).labels)
  {
    if n > 0 { WalkPlain(buf, offset, n - 1); }
  }

  /** Splitting off the first hop of a walk. */
  lemma {:induction false} WalkShift(buf: Str, offset: nat, n: nat)
    requires HopAt(buf, offset).Label? && n > 0
    ensures WalkN(buf, offset, n).Arrived? == WalkN(buf, HopAt(buf, offset).next, n - 1).Arrived?
    ensures WalkN(buf, offset, n).Walking? == WalkN(buf, HopAt(buf, offset).next, n - 1).Walking?
    ensures WalkN(buf, offset, n).Walking? ==>
              WalkN(buf, offset, n).at == WalkN(buf, HopAt(buf, offset).next, n - 1).at
  {
    if n > 1 {
      WalkShift(buf, offset, n - 1);
    } else {
      assert WalkN(buf, offset, 0) == Walking(offset, []);
    }
  }

  lemma {:induction false} NameEndBounds(buf: Str, offset: nat, n: nat)
    requires WalkN(buf, offset, n).Arrived?
    ensures offset < NameEnd(buf, offset) <= |buf|
    decreases n
  {
    var h := HopAt(buf, offset);
    if h.Label? {
      WalkShift(buf, offset, n);
      NameEndBounds(buf, h.next, n - 1);
    } else if h.Bad? {
      assert WalkN(buf, offset, 1) == Advance(buf, WalkN(buf, offset, 0));
      HaltedStays(buf, offset, 1, n);
      assert false;
    }
  }

  lemma {:induction false} RangeCard(n: nat, s: set<nat>)
    requires forall x :: x in s ==> x < n
    ensures |s| <= n
  {
    if n > 0 {
      RangeCard(n - 1, s - {n - 1});
    }
  }

  /** The pointer targets the walk has jumped to in its first n hops. */
  ghost function Jumps(buf: Str, offset: nat, n: nat): (s: set<nat>)
    ensures forall t :: t in s ==> t < POINTER_TARGETS
  {
    if n == 0 then {}
    else
      var w := WalkN(buf, offset, n - 1);
      if w.Walking? && HopAt(buf, w.at).Pointer? then Jumps(buf, offset, n - 1) + {HopAt(buf, w.at).target}
      else Jumps(buf, offset, n - 1)
  }

  lemma {:induction false} JumpedFrom(buf: Str, offset: nat, n: nat, target: nat) returns (k: nat)
    requires target in Jumps(buf, offset, n)
    ensures k <= n && WalkN(buf, offset, k).Walking? && WalkN(buf, offset, k).at == target
  {
    var w := WalkN(buf, offset, n - 1);
    if w.Walking? && HopAt(buf, w.at).Pointer? && HopAt(buf, w.at).target == target {
      k := n;
    } else {
      k := JumpedFrom(buf, offset, n - 1, target);
    }
  }

  /** Jumping to a target for the second time: the walk never halts. */
  lemma LoopFound(buf: Str, offset: nat, n: nat, target: nat)
    requires target in Jumps(buf, offset, n)
    requires WalkN(buf, offset, n + 1).Walking? && WalkN(buf, offset, n + 1).at == target
    ensures Parsed(buf, offset) == Err(PointerLoop)
  {
    var k := JumpedFrom(buf, offset, n, target);
    forall m: nat ensures WalkN(buf, offset, m).Walking? {
      RevisitNeverHalts(buf, offset, k, n + 1, m);
    }
  }

  lemma NameGrows(labels: seq<Str>, text: Str)
    requires Plain(labels) && 1 <= |text| <= 63
    ensures Plain(labels + [text])
    ensures Join(labels + [text]) == (if |Join(labels)| > 0 then Join(labels) + [DOT] else Join(labels)) + text
  {
    JoinEmptyIff(labels);
    JoinSnoc(labels, text);
  }

  /** The loop's variables after n hops: the name read so far, the resumption offset once a
      pointer has been met, and the visited set. */
  ghost predicate LoopState(buf: Str, offset: nat, n: nat, labels: seq<Str>,
                            at: nat, name: Str, end: int, visited: set<nat>) {
    && WalkN(buf, offset, n) == Walking(at, labels)
    && name == Join(labels) && Plain(labels)
    && NameEnd(buf, offset) == (if end == -1 then NameEnd(buf, at) else end)
    && visited == Jumps(buf, offset, n) && |visited| <= POINTER_TARGETS
  }

  lemma AfterLabel(buf: Str, offset: nat, n: nat, labels: seq<Str>, at: nat, name: Str, end: int, visited: set<nat>,
                   text: Str, next: nat)
    requires LoopState(buf, offset, n, labels, at, name, end, visited) && HopAt(buf, at) == Label(text, next)
    ensures LoopState(buf, offset, n + 1, labels + [text], next,
                      (if |name| > 0 then name + [DOT] else name) + text, end, visited)
  {
    NameGrows(labels, text);
  }

  lemma AfterPointer(buf: Str, offset: nat, n: nat, labels: seq<Str>, at: nat, name: Str, end: int, visited: set<nat>,
                     target: nat)
    requires LoopState(buf, offset, n, labels, at, name, end, visited) && HopAt(buf, at) == Pointer(target)
    ensures LoopState(buf, offset, n + 1, labels, target, name, if end == -1 then at + 2 else end, visited + {target})
    ensures |visited + {target}| <= POINTER_TARGETS
    ensures target in visited ==> Parsed(buf, offset) == Err(PointerLoop)
  {
    RangeCard(POINTER_TARGETS, visited + {target});
    if target in visited { LoopFound(buf, offset, n, target); }
  }

  lemma AtHalt(buf: Str, offset: nat, n: nat, labels: seq<Str>, at: nat, name: Str, end: int, visited: set<nat>)
    requires LoopState(buf, offset, n, labels, at, name, end, visited)
    ensures |visited| <= POINTER_TARGETS
    ensures HopAt(buf, at).Bad? ==> Parsed(buf, offset) == Err(HopAt(buf, at).error)
    ensures HopAt(buf, at).End? ==>
              var stop := if end == -1 then at + 1 else end;
              offset < stop <= |buf| && Parsed(buf, offset) == Ok((name, stop))
  {
    if HopAt(buf, at).End? || HopAt(buf, at).Bad? {
      ParsedAt(buf, offset, n + 1);
      if HopAt(buf, at).End? { NameEndBounds(buf, offset, n + 1); }
    }
  }

  /** The tests of the loop, one after the other, and the hop that each means. */
  lemma HopTests(buf: Str, at: nat)
    ensures at >= |buf| ==> HopAt(buf, at) == Bad(OutOfBounds)
    ensures at < |buf| && buf[at] == 0 ==> HopAt(buf, at) == End
    ensures at < |buf| && buf[at] >= 192 && at + 1 >= |buf| ==> HopAt(buf, at) == Bad(PointerTruncated)
    ensures at < |buf| && buf[at] >= 192 && at + 1 < |buf| ==> HopAt(buf, at) == Pointer(PointerAt(buf, at))
    ensures at < |buf| && 64 <= buf[at] < 192 ==> HopAt(buf, at) == Bad(ReservedLabel)
    ensures at < |buf| && 0 < buf[at] < 64 && at + 1 + buf[at] > |buf| ==> HopAt(buf, at) == Bad(LabelOutOfBounds)
    ensures at < |buf| && 0 < buf[at] < 64 && at + 1 + buf[at] <= |buf| ==>
              HopAt(buf, at) == Label(buf[at + 1..at + 1 + buf[at]], at + 1 + buf[at])
  {
  }

  /** The fourteen bits behind a pointer's two top bits. */
  function PointerAt(buf: Str, at: nat): nat
    requires at + 1 < |buf| && buf[at] >= 192
  {
    (buf[at] as int - 192) * 256 + buf[at + 1] as int
  }

  lemma LoopStart(buf: Str, offset: nat)
    ensures LoopState(buf, offset, 0, [], offset, [], -1, {})
  {
  }

  /** parseName: the loop as written, with its visited set of pointer targets. */
  method ParseName(buf: Str, offset: nat) returns (r: Result<(Str, nat), NameError>)
    ensures r == Parsed(buf, offset)
    ensures r.Ok? ==> offset < r.value.1 <= |buf|
  {
    hide *;
    var name: Str := [];
    var visited: set<nat> := {};
    var end := -1;
    var at: nat := offset;
    ghost var n: nat, labels: seq<Str> := 0, [];
    LoopStart(buf, offset);
    while true
      invariant LoopState(buf, offset, n, labels, at, name, end, visited)
      invariant |visited| <= POINTER_TARGETS
      decreases POINTER_TARGETS - |visited|, if at <= |buf| then |buf| - at else 0
    {
      HopTests(buf, at);
      AtHalt(buf, offset, n, labels, at, name, end, visited);
      if at >= |buf| {
        return Err(OutOfBounds);
      }
      var length := buf[at] as int;

      if length == 0 {
        if end == -1 { end := at + 1; }
        return Ok((name, end));
      }

      if length >= 192 {
        if at + 1 >= |buf| {
          return Err(PointerTruncated);
        }
        var ptr := PointerAt(buf, at);
        AfterPointer(buf, offset, n, labels, at, name, end, visited, ptr);
        if end == -1 { end := at + 2; }
        if ptr in visited {
          return Err(PointerLoop);
        }
        visited := visited + {ptr};
        at := ptr;
        n := n + 1;
        continue;
      }

      if length >= 64 {
        return Err(ReservedLabel);
      }

      if at + 1 + length > |buf| {
        return Err(LabelOutOfBounds);
      }
      var text := buf[at + 1..at + 1 + length];
      AfterLabel(buf, offset, n, labels, at, name, end, visited, text, at + 1 + length);
      if |name| > 0 { name := name + [DOT]; }
      name := name + text;
      labels := labels + [text];
      at := at + 1 + length;
      n := n + 1;
    }
  }
}
