/** The single-flight protocol of `resolve`, as steps: any number of concurrent queries, a table
    of calls in flight, a semaphore, and the cache writes that must precede publication. Every
    interleaving of the steps is a run; the theorems speak of all runs. */
module SingleFlight {
  import opened Wrappers
  import opened Text
  import opened Failures

  /* ----- The key of a question ----- */

  function Decimal(n: nat): (d: Str)
    ensures |d| >= 1 && (|d| == 1 <==> n < 10) && COLON !in d
  {
    if n < 10 then [(48 + n) as byte] else Decimal(n / 10) + [(48 + n % 10) as byte]
  }

  /** inflightKey: the name, a colon, the type in decimal. */
  function InflightKey(name: Str, qtype: nat): Str {
    name + [COLON] + Decimal(qtype)
  }

  lemma {:induction false} DecimalInjective(a: nat, b: nat)
    requires Decimal(a) == Decimal(b)
    ensures a == b
  {
    var d, e := Decimal(a), Decimal(b);
    assert d[|d| - 1] == e[|e| - 1];
    if a >= 10 {
      assert d[..|d| - 1] == Decimal(a / 10) && e[..|e| - 1] == Decimal(b / 10);
      DecimalInjective(a / 10, b / 10);
    }
  }

  /** Two questions share a flight only if they are the same question. */
  lemma KeyInjective(name: Str, qtype: nat, name': Str, qtype': nat)
    requires InflightKey(name, qtype) == InflightKey(name', qtype')
    ensures name == name' && qtype == qtype'
  {
    var k := InflightKey(name, qtype);
    var d, d' := Decimal(qtype), Decimal(qtype');
    assert k[|name|] == COLON && k[|name'|] == COLON;
    forall j | |k| - |d| <= j < |k| ensures k[j] != COLON { assert k[j] == d[j - (|k| - |d|)]; }
    forall j | |k| - |d'| <= j < |k| ensures k[j] != COLON { assert k[j] == d'[j - (|k| - |d'|)]; }
    assert |name| == |name'|;
    assert k[|name| + 1..] == d && k[|name| + 1..] == d';
    assert name == k[..|name|] && name' == k[..|name'|];
    DecimalInjective(qtype, qtype');
  }

  /* ----- States and steps ----- */

  type Id = nat

  /** What an upstream resolution ends in; messages are references, shared by leader and followers. */
  datatype Outcome = Answer(msg: nat) | Failed(why: Failure)

  datatype Phase =
    | Asked
    | Missed
    | Waiting(leader: Id)
    | Elected
    | Working
    | Resolved(outcome: Outcome)
    | Recorded(outcome: Outcome)
    | Published(outcome: Outcome)
    | Released(outcome: Outcome)
    | Deleted(outcome: Outcome)
    | Done(result: Option<Outcome>, followed: Option<Id>)

  datatype Query = Query(key: Str, phase: Phase)

  /** An inflightCall, named by the query that created it. `closes` counts close(done). */
  datatype Call = Call(outcome: Option<Outcome>, closes: nat)

  datatype Write = Stored(key: Str, msg: nat) | Denied(key: Str)

  datatype State = State(
    queries: seq<Query>,
    inflight: map<Str, Id>,
    calls: map<Id, Call>,
    slots: set<Id>,
    writes: seq<Write>)

  /** What a step cannot know beforehand: the cache lookup's and the network's answer. */
  datatype Choice = Choice(hit: Option<Outcome>, outcome: Outcome)

  /** `max` is MaxConcurrent; 0 means there is no semaphore. */
  predicate Enabled(max: nat, s: State, t: Id) {
    t < |s.queries| &&
    match s.queries[t].phase
    case Waiting(leader) => leader in s.calls && s.calls[leader].closes > 0
    case Elected => max == 0 || |s.slots| < max
    case Done(_, _) => false
    case _ => true
  }

  function Move(s: State, t: Id, phase: Phase): State
    requires t < |s.queries|
  {
    s.(queries := s.queries[t := Query(s.queries[t].key, phase)])
  }

  /** cache.Set on success; cache.SetNegative on an error whose text says NXDOMAIN; nothing on others. */
  function WritesOf(key: Str, outcome: Outcome): seq<Write> {
    match outcome
    case Answer(msg) => [Stored(key, msg)]
    case Failed(why) => if Denies(why) then [Denied(key)] else []
  }

  function Step(max: nat, s: State, t: Id, c: Choice): State
    requires Enabled(max, s, t)
  {
    var key := s.queries[t].key;
    match s.queries[t].phase
    case Asked => if c.hit.Some? then Move(s, t, Done(c.hit, None)) else Move(s, t, Missed)
    case Missed =>
      if key in s.inflight then Move(s, t, Waiting(s.inflight[key]))
      else Move(s, t, Elected).(inflight := s.inflight[key := t], calls := s.calls[t := Call(None, 0)])
    case Waiting(leader) => Move(s, t, Done(s.calls[leader].outcome, Some(leader)))
    case Elected => Move(s, t, Working).(slots := if max == 0 then s.slots else s.slots + {t})
    case Working => Move(s, t, Resolved(c.outcome))
    case Resolved(o) => Move(s, t, Recorded(o)).(writes := s.writes + WritesOf(key, o))
    case Recorded(o) =>
      Move(s, t, Published(o)).(calls := s.calls[t := Call(Some(o), if t in s.calls then s.calls[t].closes else 0)])
    case Published(o) => Move(s, t, Released(o)).(slots := s.slots - {t})
    case Released(o) => Move(s, t, Deleted(o)).(inflight := s.inflight - {key})
    case Deleted(o) =>
      Move(s, t, Done(Some(o), None)).(calls :=
        if t in s.calls then s.calls[t := Call(s.calls[t].outcome, s.calls[t].closes + 1)] else s.calls)
  }

  predicate Start(s: State) {
    && (forall t :: 0 <= t < |s.queries| ==> s.queries[t].phase == Asked)
    && s.inflight == map[] && s.calls == map[] && s.slots == {} && s.writes == []
  }

  ghost predicate Next(max: nat, s: State, s': State) {
    exists t, c :: Enabled(max, s, t) && s' == Step(max, s, t, c)
  }

  ghost predicate IsRun(max: nat, run: seq<State>) {
    && |run| > 0 && Start(run[0])
    && forall i :: 0 <= i < |run| - 1 ==> Next(max, run[i], run[i + 1])
  }

  /* ----- The invariant ----- */

  /** Between LoadOrStore and Delete. */
  predicate InWindow(p: Phase) {
    p.Elected? || p.Working? || p.Resolved? || p.Recorded? || p.Published? || p.Released?
  }

  predicate HoldsSlot(p: Phase) {
    p.Working? || p.Resolved? || p.Recorded? || p.Published?
  }

  /** What the record of a call must look like when its creator is in a given phase. */
  predicate CallFits(call: Call, p: Phase) {
    match p
    case Elected => call == Call(None, 0)
    case Working => call == Call(None, 0)
    case Resolved(_) => call == Call(None, 0)
    case Recorded(_) => call == Call(None, 0)
    case Published(o) => call == Call(Some(o), 0)
    case Released(o) => call == Call(Some(o), 0)
    case Deleted(o) => call == Call(Some(o), 0)
    case Done(r, None) => r.Some? && call == Call(r, 1)
    case _ => false
  }

  predicate Written(s: State, key: Str, o: Outcome) {
    match o
    case Answer(msg) => Stored(key, msg) in s.writes
    case Failed(why) => Denies(why) ==> Denied(key) in s.writes
  }

  /** One query's view of the shared state. */
  predicate QueryOk(max: nat, s: State, t: Id)
    requires t < |s.queries|
  {
    var q := s.queries[t];
    && (InWindow(q.phase) ==> q.key in s.inflight && s.inflight[q.key] == t)
    && (InWindow(q.phase) || q.phase.Deleted? ==> t in s.calls)
    && (t in s.calls ==> CallFits(s.calls[t], q.phase))
    && (t in s.slots <==> max > 0 && HoldsSlot(q.phase))
    && (match q.phase
        case Waiting(leader) => IsCallFor(s, leader, q.key)
        case Done(r, Some(leader)) => IsCallFor(s, leader, q.key) && s.calls[leader] == Call(r, 1)
        case Done(r, None) => r.Some?
        case _ => true)
    && (q.phase.Recorded? || q.phase.Published? || q.phase.Released? || q.phase.Deleted? ==>
          Written(s, q.key, q.phase.outcome))
    && (q.phase.Done? && t in s.calls ==> Written(s, q.key, q.phase.result.value))
  }

  predicate IsCallFor(s: State, leader: Id, key: Str) {
    leader in s.calls && leader < |s.queries| && s.queries[leader].key == key
  }

  ghost predicate QueriesOk(max: nat, s: State) {
    forall t :: 0 <= t < |s.queries| ==> QueryOk(max, s, t)
  }

  /** Every entry of the table is the call of a query for that key that is in its window. */
  ghost predicate TableOk(s: State) {
    forall k :: k in s.inflight ==> EntryOk(s, k, s.inflight[k])
  }

  predicate EntryOk(s: State, k: Str, t: Id) {
    t < |s.queries| && s.queries[t].key == k && InWindow(s.queries[t].phase)
  }

  ghost predicate Bounded(max: nat, s: State) {
    && (forall t :: t in s.calls ==> t < |s.queries|)
    && (forall t :: t in s.slots ==> t < |s.queries|)
    && (max > 0 ==> |s.slots| <= max)
  }

  ghost predicate Inv(max: nat, s: State) {
    QueriesOk(max, s) && TableOk(s) && Bounded(max, s)
  }

  lemma StartInv(max: nat, s: State)
    requires Start(s)
    ensures Inv(max, s)
  {
  }

  /** Every step of every query, whatever the cache and the network answer, keeps the invariant. */
  lemma StepInv(max: nat, s: State, t: Id, c: Choice)
    requires Inv(max, s) && Enabled(max, s, t)
    ensures Inv(max, Step(max, s, t, c))
  {
    var s' := Step(max, s, t, c);
    assert QueryOk(max, s, t);
    StepKeepsQueries(max, s, t, c);
    hide QueryOk, Step, Enabled, EntryOk, Bounded;
    forall u | 0 <= u < |s'.queries| ensures QueryOk(max, s', u) {
      StepQuery(max, s, t, c, u);
    }
    StepTable(max, s, t, c);
    StepBounded(max, s, t, c);
  }

  lemma StepTable(max: nat, s: State, t: Id, c: Choice)
    requires TableOk(s) && Enabled(max, s, t) && QueryOk(max, s, t)
    ensures TableOk(Step(max, s, t, c))
  {
  }

  lemma StepBounded(max: nat, s: State, t: Id, c: Choice)
    requires Bounded(max, s) && Enabled(max, s, t)
    ensures Bounded(max, Step(max, s, t, c))
  {
    StepBoundsCalls(max, s, t, c);
    StepBoundsSlots(max, s, t, c);
    hide Step, Enabled;
  }

  lemma StepBoundsCalls(max: nat, s: State, t: Id, c: Choice)
    requires Bounded(max, s) && Enabled(max, s, t)
    ensures |Step(max, s, t, c).queries| == |s.queries|
    ensures forall u :: u in Step(max, s, t, c).calls ==> u < |s.queries|
  {
    StepKeepsQueries(max, s, t, c);
    OwnCallOnly(max, s, t, c);
    hide Step;
  }

  lemma OwnCallOnly(max: nat, s: State, t: Id, c: Choice)
    requires Enabled(max, s, t)
    ensures forall u :: u in Step(max, s, t, c).calls ==> u in s.calls || u == t
  {
  }

  lemma StepBoundsSlots(max: nat, s: State, t: Id, c: Choice)
    requires Bounded(max, s) && Enabled(max, s, t)
    ensures forall u :: u in Step(max, s, t, c).slots ==> u < |s.queries|
    ensures max > 0 ==> |Step(max, s, t, c).slots| <= max
  {
  }

  lemma StepQuery(max: nat, s: State, t: Id, c: Choice, u: Id)
    requires Inv(max, s) && Enabled(max, s, t) && u < |s.queries|
    ensures u < |Step(max, s, t, c).queries| && QueryOk(max, Step(max, s, t, c), u)
  {
    assert QueryOk(max, s, t) && QueryOk(max, s, u);
    StepKeepsQueries(max, s, t, c);
    if u == t {
      WaitsForCall(max, s, t);
      hide *;
      OwnStep(max, s, t, c);
    } else {
      hide *;
      OtherStep(max, s, t, c, u);
    }
  }

  /** The call that a query waits for, or is about to wait for, is there and fits its creator. */
  predicate AwaitedOk(max: nat, s: State, t: Id)
    requires t < |s.queries|
  {
    var q := s.queries[t];
    && (q.phase.Waiting? ==> q.phase.leader < |s.queries| && QueryOk(max, s, q.phase.leader))
    && (q.phase.Missed? && q.key in s.inflight ==>
          EntryOk(s, q.key, s.inflight[q.key]) && QueryOk(max, s, s.inflight[q.key]))
  }

  lemma WaitsForCall(max: nat, s: State, t: Id)
    requires Inv(max, s) && t < |s.queries|
    ensures AwaitedOk(max, s, t)
  {
    assert QueryOk(max, s, t);
  }

  lemma OwnStep(max: nat, s: State, t: Id, c: Choice)
    requires Enabled(max, s, t) && QueryOk(max, s, t) && AwaitedOk(max, s, t)
    ensures |Step(max, s, t, c).queries| == |s.queries| && QueryOk(max, Step(max, s, t, c), t)
  {
    if s.queries[t].phase.Waiting? || s.queries[t].phase.Missed? {
      OwnWait(max, s, t, c);
    } else {
      OwnWork(max, s, t, c);
    }
  }

  lemma OwnWait(max: nat, s: State, t: Id, c: Choice)
    requires Enabled(max, s, t) && QueryOk(max, s, t) && AwaitedOk(max, s, t)
    requires s.queries[t].phase.Waiting? || s.queries[t].phase.Missed?
    ensures QueryOk(max, Step(max, s, t, c), t)
  {
  }

  lemma OwnWork(max: nat, s: State, t: Id, c: Choice)
    requires Enabled(max, s, t) && QueryOk(max, s, t)
    requires !s.queries[t].phase.Waiting? && !s.queries[t].phase.Missed?
    ensures QueryOk(max, Step(max, s, t, c), t)
  {
  }

  /** What a step of `t` leaves alone. */
  ghost predicate QueriesKept(s: State, s': State, t: Id) {
    && |s'.queries| == |s.queries|
    && (forall u :: 0 <= u < |s.queries| ==> s'.queries[u].key == s.queries[u].key)
    && (forall u :: 0 <= u < |s.queries| && u != t ==> s'.queries[u] == s.queries[u])
  }

  ghost predicate CallsKept(s: State, s': State, t: Id) {
    && (forall u :: u in s.calls ==> u in s'.calls)
    && (forall u :: u in s'.calls && u != t ==> u in s.calls && s'.calls[u] == s.calls[u])
    && (t in s.calls && s.calls[t].closes > 0 ==> s'.calls[t] == s.calls[t])
  }

  ghost predicate TablesKept(s: State, s': State, t: Id) {
    && (forall u :: u != t ==> (u in s'.slots <==> u in s.slots))
    && (forall w :: w in s.writes ==> w in s'.writes)
    && (forall k :: k in s.inflight && s.inflight[k] != t ==> k in s'.inflight && s'.inflight[k] == s.inflight[k])
  }

  ghost predicate Frame(s: State, s': State, t: Id) {
    QueriesKept(s, s', t) && CallsKept(s, s', t) && TablesKept(s, s', t)
  }

  /** A step changes one query, and of that the phase only. */
  lemma StepMoves(max: nat, s: State, t: Id, c: Choice)
    requires Enabled(max, s, t)
    ensures exists p :: Step(max, s, t, c).queries == s.queries[t := Query(s.queries[t].key, p)]
  {
    match s.queries[t].phase
    case Asked => MovedTo(s, t, Step(max, s, t, c), if c.hit.Some? then Done(c.hit, None) else Missed);
    case Missed =>
      var key := s.queries[t].key;
      MovedTo(s, t, Step(max, s, t, c), if key in s.inflight then Waiting(s.inflight[key]) else Elected);
    case Waiting(leader) => MovedTo(s, t, Step(max, s, t, c), Done(s.calls[leader].outcome, Some(leader)));
    case Elected => MovedTo(s, t, Step(max, s, t, c), Working);
    case Working => MovedTo(s, t, Step(max, s, t, c), Resolved(c.outcome));
    case Resolved(o) => MovedTo(s, t, Step(max, s, t, c), Recorded(o));
    case Recorded(o) => MovedTo(s, t, Step(max, s, t, c), Published(o));
    case Published(o) => MovedTo(s, t, Step(max, s, t, c), Released(o));
    case Released(o) => MovedTo(s, t, Step(max, s, t, c), Deleted(o));
    case Deleted(o) => MovedTo(s, t, Step(max, s, t, c), Done(Some(o), None));
  }

  lemma MovedTo(s: State, t: Id, s': State, p: Phase)
    requires t < |s.queries| && s'.queries == s.queries[t := Query(s.queries[t].key, p)]
    ensures exists p :: s'.queries == s.queries[t := Query(s.queries[t].key, p)]
  {
  }

  lemma StepKeepsQueries(max: nat, s: State, t: Id, c: Choice)
    requires Enabled(max, s, t)
    ensures |Step(max, s, t, c).queries| == |s.queries| && QueriesKept(s, Step(max, s, t, c), t)
  {
    StepMoves(max, s, t, c);
    assert t < |s.queries|;
    hide Step, Enabled;
  }

  lemma StepKeepsCalls(max: nat, s: State, t: Id, c: Choice)
    requires Enabled(max, s, t) && QueryOk(max, s, t)
    ensures CallsKept(s, Step(max, s, t, c), t)
  {
  }

  lemma StepKeepsTables(max: nat, s: State, t: Id, c: Choice)
    requires Enabled(max, s, t) && QueryOk(max, s, t)
    ensures TablesKept(s, Step(max, s, t, c), t)
  {
  }

  lemma StepFrames(max: nat, s: State, t: Id, c: Choice)
    requires Enabled(max, s, t) && QueryOk(max, s, t)
    ensures Frame(s, Step(max, s, t, c), t)
  {
    StepKeepsQueries(max, s, t, c);
    StepKeepsCalls(max, s, t, c);
    StepKeepsTables(max, s, t, c);
    hide Step, QueryOk, Enabled, QueriesKept, CallsKept, TablesKept;
  }

  /** Another query keeps its view: its table entry, its call, its slot and what was written. */
  lemma OtherStep(max: nat, s: State, t: Id, c: Choice, u: Id)
    requires Enabled(max, s, t) && QueryOk(max, s, t) && u < |s.queries| && u != t && QueryOk(max, s, u)
    ensures |Step(max, s, t, c).queries| == |s.queries| && QueryOk(max, Step(max, s, t, c), u)
  {
    hide *;
    StepKeepsQueries(max, s, t, c);
    StepFrames(max, s, t, c);
    FrameKeeps(max, s, Step(max, s, t, c), t, u);
  }

  lemma FrameKeeps(max: nat, s: State, s': State, t: Id, u: Id)
    requires Frame(s, s', t) && u < |s.queries| && u != t && QueryOk(max, s, u)
    ensures u < |s'.queries| && QueryOk(max, s', u)
  {
    var q := s.queries[u];
    if q.phase.Recorded? || q.phase.Published? || q.phase.Released? || q.phase.Deleted? {
      WrittenStays(s, s', q.key, q.phase.outcome);
    }
  }

  lemma WrittenStays(s: State, s': State, key: Str, o: Outcome)
    requires Written(s, key, o) && forall w :: w in s.writes ==> w in s'.writes
    ensures Written(s', key, o)
  {
  }

  /* ----- Safety, over all runs ----- */

  /** The step between two states of a run. */
  lemma RunStep(max: nat, run: seq<State>, i: nat) returns (t: Id, c: Choice)
    requires IsRun(max, run) && 0 < i < |run|
    ensures Enabled(max, run[i - 1], t) && run[i] == Step(max, run[i - 1], t, c)
  {
    hide Step, Enabled;
    assert Next(max, run[i - 1], run[i - 1 + 1]);
    t, c :| Enabled(max, run[i - 1], t) && run[i] == Step(max, run[i - 1], t, c);
  }

  lemma RunStart(max: nat, run: seq<State>)
    requires IsRun(max, run)
    ensures Start(run[0])
  {
    hide Start;
  }

  lemma {:induction false} RunInv(max: nat, run: seq<State>, i: nat)
    requires IsRun(max, run) && i < |run|
    ensures Inv(max, run[i]) && |run[i].queries| == |run[0].queries|
  {
    hide Inv, Step, Enabled, Start;
    if i == 0 {
      RunStart(max, run);
      StartInv(max, run[0]);
    } else {
      RunInv(max, run, i - 1);
      var t, c := RunStep(max, run, i);
      StepInv(max, run[i - 1], t, c);
      StepKeepsQueries(max, run[i - 1], t, c);
    }
  }

  /** At most one query per key is between LoadOrStore and Delete, it is the one in the table,
      its Delete removes its own entry and no other, and slots never exceed MaxConcurrent. */
  lemma OneLeaderPerKey(max: nat, run: seq<State>, i: nat, t: Id, u: Id)
    requires IsRun(max, run) && i < |run| && t < |run[i].queries| && u < |run[i].queries|
    requires InWindow(run[i].queries[t].phase)
    ensures run[i].queries[t].key in run[i].inflight && run[i].inflight[run[i].queries[t].key] == t
    ensures InWindow(run[i].queries[u].phase) && run[i].queries[u].key == run[i].queries[t].key ==> t == u
    ensures max > 0 ==> |run[i].slots| <= max
    ensures max > 0 && HoldsSlot(run[i].queries[t].phase) ==> t in run[i].slots
  {
    RunInv(max, run, i);
    assert QueryOk(max, run[i], t) && QueryOk(max, run[i], u);
  }

  lemma ClosedState(max: nat, s: State, t: Id)
    requires Inv(max, s) && t in s.calls && s.calls[t].closes > 0
    ensures t < |s.queries| && s.calls[t].closes == 1 && s.calls[t].outcome.Some?
    ensures Written(s, s.queries[t].key, s.calls[t].outcome.value)
  {
    assert QueryOk(max, s, t);
  }

  lemma ClosedStep(max: nat, s: State, u: Id, c: Choice, t: Id)
    requires Inv(max, s) && Enabled(max, s, u) && t in s.calls && s.calls[t].closes > 0
    ensures t in Step(max, s, u, c).calls && Step(max, s, u, c).calls[t] == s.calls[t]
  {
    assert QueryOk(max, s, u);
    hide Step, QueryOk, Enabled;
    StepKeepsCalls(max, s, u, c);
  }

  /** A call is closed at most once, from then on never changes, and by then its outcome has
      been handed to the cache. */
  lemma {:induction false} ClosedIsFinal(max: nat, run: seq<State>, i: nat, j: nat, t: Id)
    requires IsRun(max, run) && i <= j < |run|
    requires t in run[i].calls && run[i].calls[t].closes > 0
    ensures t in run[j].calls && run[j].calls[t] == run[i].calls[t]
    ensures run[j].calls[t].closes == 1 && run[j].calls[t].outcome.Some?
    ensures t < |run[j].queries| && Written(run[j], run[j].queries[t].key, run[j].calls[t].outcome.value)
    decreases j - i
  {
    hide Inv, QueryOk, Written, Step, Enabled, Start;
    if i < j {
      ClosedIsFinal(max, run, i, j - 1, t);
      RunInv(max, run, j - 1);
      var u, c := RunStep(max, run, j);
      ClosedStep(max, run[j - 1], u, c, t);
    }
    RunInv(max, run, j);
    ClosedState(max, run[j], t);
  }

  /** What a query that resolved its question itself came to, once that is recorded. */
  function OutcomeOf(p: Phase): Option<Outcome> {
    match p
    case Recorded(o) => Some(o)
    case Published(o) => Some(o)
    case Released(o) => Some(o)
    case Deleted(o) => Some(o)
    case Done(r, None) => r
    case _ => None
  }

  lemma OutcomeStays(max: nat, s: State, u: Id, c: Choice, t: Id)
    requires Enabled(max, s, u) && t < |s.queries| && OutcomeOf(s.queries[t].phase).Some?
    ensures t < |Step(max, s, u, c).queries|
    ensures var q := Step(max, s, u, c).queries[t];
            q.key == s.queries[t].key && OutcomeOf(q.phase) == OutcomeOf(s.queries[t].phase)
  {
    StepKeepsQueries(max, s, u, c);
    if t == u {
      OwnOutcomeStays(max, s, t, c);
    }
    hide Step, Enabled, OutcomeOf;
  }

  lemma OwnOutcomeStays(max: nat, s: State, t: Id, c: Choice)
    requires Enabled(max, s, t) && OutcomeOf(s.queries[t].phase).Some?
    ensures OutcomeOf(Step(max, s, t, c).queries[t].phase) == OutcomeOf(s.queries[t].phase)
  {
  }

  lemma NewWrite(max: nat, s: State, u: Id, c: Choice, w: Write)
    requires Enabled(max, s, u) && w in Step(max, s, u, c).writes && w !in s.writes
    ensures u < |Step(max, s, u, c).queries|
    ensures var q := Step(max, s, u, c).queries[u];
            OutcomeOf(q.phase).Some? && w in WritesOf(q.key, OutcomeOf(q.phase).value)
  {
  }

  /** Nothing else is ever written: an answer stored or a denial under some key is the recorded outcome
      of a query for that key, and a denial is written only for a failure whose text says so. */
  lemma {:induction false} WritesAreOutcomes(max: nat, run: seq<State>, i: nat, w: Write) returns (t: Id)
    requires IsRun(max, run) && i < |run| && w in run[i].writes
    ensures t < |run[i].queries| && OutcomeOf(run[i].queries[t].phase).Some?
    ensures w in WritesOf(run[i].queries[t].key, OutcomeOf(run[i].queries[t].phase).value)
    ensures var key, o := run[i].queries[t].key, OutcomeOf(run[i].queries[t].phase).value;
            || (o.Answer? && w == Stored(key, o.msg))
            || (o.Failed? && w == Denied(key) && Contains(ErrorText(o.why), DENIAL))
  {
    RunStart(max, run);
    assert i > 0;
    hide *;
    var u, c := RunStep(max, run, i);
    if w in run[i - 1].writes {
      t := WritesAreOutcomes(max, run, i - 1, w);
      OutcomeStays(max, run[i - 1], u, c, t);
    } else {
      t := u;
      NewWrite(max, run[i - 1], u, c, w);
    }
    WritesSay(run[i].queries[t].key, OutcomeOf(run[i].queries[t].phase).value, w);
  }

  lemma WritesSay(key: Str, o: Outcome, w: Write)
    requires w in WritesOf(key, o)
    ensures || (o.Answer? && w == Stored(key, o.msg))
            || (o.Failed? && w == Denied(key) && Contains(ErrorText(o.why), DENIAL))
  {
    hide Contains, ErrorText;
  }

  /** A follower returns exactly the outcome of the call it waited for, a call for its own
      question, closed, and already recorded in the cache. */
  lemma FollowerReturnsLeaders(max: nat, run: seq<State>, i: nat, t: Id)
    requires IsRun(max, run) && i < |run| && t < |run[i].queries|
    requires run[i].queries[t].phase.Done? && run[i].queries[t].phase.followed.Some?
    ensures var Done(result, Some(leader)) := run[i].queries[t].phase;
            && leader < |run[i].queries| && leader in run[i].calls && leader != t
            && run[i].queries[leader].key == run[i].queries[t].key
            && result.Some? && run[i].calls[leader] == Call(result, 1)
            && run[i].queries[leader].phase == Done(result, None)
            && Written(run[i], run[i].queries[t].key, result.value)
  {
    RunInv(max, run, i);
    assert QueryOk(max, run[i], t);
    assert QueryOk(max, run[i], run[i].queries[t].phase.followed.value);
  }

  /* ----- Progress, over all runs ----- */

  predicate Finished(s: State) {
    forall t :: 0 <= t < |s.queries| ==> s.queries[t].phase.Done?
  }

  /** Every query has returned a message or an error. */
  predicate Answered(s: State) {
    forall t :: 0 <= t < |s.queries| ==> s.queries[t].phase.Done? && s.queries[t].phase.result.Some?
  }

  ghost predicate CanMove(max: nat, s: State) {
    exists t :: Enabled(max, s, t)
  }

  /** No deadlock: slot holders never wait, followers wait on leaders only, and a leader without
      a slot waits only while somebody holds one. */
  lemma NeverStuck(max: nat, s: State)
    requires Inv(max, s) && !Finished(s)
    ensures CanMove(max, s)
  {
    var t :| 0 <= t < |s.queries| && !s.queries[t].phase.Done?;
    assert QueryOk(max, s, t);
    if s.queries[t].phase.Waiting? {
      var leader := s.queries[t].phase.leader;
      assert QueryOk(max, s, leader);
      if s.calls[leader].closes > 0 {
        assert Enabled(max, s, t);
      } else {
        LeaderMoves(max, s, leader);
      }
    } else if s.queries[t].phase.Elected? {
      LeaderMoves(max, s, t);
    } else {
      assert Enabled(max, s, t);
    }
  }

  lemma LeaderMoves(max: nat, s: State, t: Id)
    requires Inv(max, s) && t < |s.queries|
    requires InWindow(s.queries[t].phase) || s.queries[t].phase.Deleted?
    ensures CanMove(max, s)
  {
    if !s.queries[t].phase.Elected? || max == 0 || |s.slots| < max {
      assert Enabled(max, s, t);
    } else {
      var u :| u in s.slots;
      assert QueryOk(max, s, u);
      assert Enabled(max, s, u);
    }
  }

  /** Steps left in a phase, at most. */
  function PhaseRank(p: Phase): nat {
    match p
    case Asked => 10
    case Missed => 9
    case Elected => 8
    case Working => 7
    case Resolved(_) => 6
    case Recorded(_) => 5
    case Published(_) => 4
    case Released(_) => 3
    case Deleted(_) => 2
    case Waiting(_) => 1
    case Done(_, _) => 0
  }

  function Rank(qs: seq<Query>): nat {
    if qs == [] then 0 else PhaseRank(qs[0].phase) + Rank(qs[1..])
  }

  lemma {:induction false} RankUpdate(qs: seq<Query>, t: Id, q: Query)
    requires t < |qs|
    ensures Rank(qs[t := q]) == Rank(qs) - PhaseRank(qs[t].phase) + PhaseRank(q.phase)
  {
    if t == 0 {
      assert qs[t := q][1..] == qs[1..];
    } else {
      RankUpdate(qs[1..], t - 1, q);
      assert qs[t := q][1..] == qs[1..][t - 1 := q];
    }
  }

  lemma OwnRankFalls(max: nat, s: State, t: Id, c: Choice)
    requires Enabled(max, s, t)
    ensures t < |Step(max, s, t, c).queries|
            && PhaseRank(Step(max, s, t, c).queries[t].phase) < PhaseRank(s.queries[t].phase)
  {
  }

  lemma StepRanks(max: nat, s: State, t: Id, c: Choice)
    requires Enabled(max, s, t)
    ensures Rank(Step(max, s, t, c).queries) < Rank(s.queries)
  {
    StepKeepsQueries(max, s, t, c);
    OwnRankFalls(max, s, t, c);
    var s' := Step(max, s, t, c);
    assert t < |s.queries|;
    hide Step, Enabled, PhaseRank, Rank;
    assert s'.queries == s.queries[t := s'.queries[t]];
    RankUpdate(s.queries, t, s'.queries[t]);
  }

  lemma {:induction false} RankBound(qs: seq<Query>)
    ensures Rank(qs) <= 10 * |qs|
  {
    if qs != [] { RankBound(qs[1..]); }
  }

  lemma {:induction false} RunRank(max: nat, run: seq<State>, i: nat)
    requires IsRun(max, run) && i < |run|
    ensures Rank(run[i].queries) + i <= Rank(run[0].queries)
  {
    if i > 0 {
      hide Step, Enabled, Rank, Start;
      RunRank(max, run, i - 1);
      var t, c := RunStep(max, run, i);
      StepRanks(max, run[i - 1], t, c);
    }
  }

  /** Every run is finite, ten steps a query at most, and a run that can go no further has
      answered every query. */
  lemma RunsFinish(max: nat, run: seq<State>)
    requires IsRun(max, run)
    ensures |run| - 1 <= 10 * |run[0].queries|
    ensures !CanMove(max, run[|run| - 1]) ==> Answered(run[|run| - 1])
    ensures |run[|run| - 1].queries| == |run[0].queries|
  {
    RunRank(max, run, |run| - 1);
    RankBound(run[0].queries);
    var last := run[|run| - 1];
    RunInv(max, run, |run| - 1);
    if !CanMove(max, last) {
      if !Finished(last) { NeverStuck(max, last); }
      forall t | 0 <= t < |last.queries| ensures last.queries[t].phase.Done? && last.queries[t].phase.result.Some? {
        assert QueryOk(max, last, t);
        if last.queries[t].phase.followed.Some? {
          assert QueryOk(max, last, last.queries[t].phase.followed.value);
        }
      }
    }
  }
}
