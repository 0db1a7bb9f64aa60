/** What a query returns, and from where: the single-flight protocol over whole runs with their actions, in which
    it is on record what every cache lookup found and what the network gave every leader. */
module FlightHistory {
  import opened Wrappers
  import opened Text
  import opened Failures
  import opened SingleFlight

  /** One step: whose it was, and what the cache or the network answered. */
  datatype Act = Act(t: Id, c: Choice)

  ghost predicate Happened(max: nat, run: seq<State>, acts: seq<Act>) {
    && |run| == |acts| + 1 && Start(run[0])
    && forall i :: 0 <= i < |acts| ==> StepOf(max, run[i], acts[i], run[i + 1])
  }

  ghost predicate StepOf(max: nat, s: State, a: Act, s': State) {
    Enabled(max, s, a.t) && s' == Step(max, s, a.t, a.c)
  }

  /** Every run is one of some actions, and the other way round. */
  lemma {:induction false} RunsHaveActs(max: nat, run: seq<State>) returns (acts: seq<Act>)
    requires IsRun(max, run)
    ensures Happened(max, run, acts)
  {
    hide Step, Enabled, Start;
    RunStart(max, run);
    if |run| == 1 {
      acts := [];
    } else {
      var front := run[..|run| - 1];
      assert IsRun(max, front);
      acts := RunsHaveActs(max, front);
      var t, c := RunStep(max, run, |run| - 1);
      var last := Act(t, c);
      forall i | 0 <= i < |acts + [last]| ensures StepOf(max, run[i], (acts + [last])[i], run[i + 1]) {
        if i < |acts| { assert StepOf(max, front[i], acts[i], front[i + 1]); }
      }
      acts := acts + [last];
    }
  }

  lemma ActsMakeRuns(max: nat, run: seq<State>, acts: seq<Act>)
    requires Happened(max, run, acts)
    ensures IsRun(max, run)
  {
    hide Step, Enabled, Start;
    forall i | 0 <= i < |run| - 1 ensures Next(max, run[i], run[i + 1]) {
      assert StepOf(max, run[i], acts[i], run[i + 1]);
    }
  }

  /* ----- One query's past ----- */

  predicate HasQuery(run: seq<State>, n: nat, t: Id) {
    n < |run| && t < |run[n].queries|
  }

  /** The i-th step was this query's look into the cache. */
  predicate LookupAt(run: seq<State>, acts: seq<Act>, t: Id, i: nat) {
    i < |acts| && HasQuery(run, i, t) && acts[i].t == t && run[i].queries[t].phase == Asked
  }

  /** The j-th step was this query's resolution. */
  predicate ResolutionAt(run: seq<State>, acts: seq<Act>, t: Id, j: nat) {
    j < |acts| && HasQuery(run, j, t) && acts[j].t == t && run[j].queries[t].phase == Working
  }

  predicate NoStepBut(acts: seq<Act>, n: nat, t: Id, i: int)
    requires n <= |acts|
  {
    forall j :: 0 <= j < n && acts[j].t == t ==> j == i
  }

  /** Left as it was but for one query's phase. */
  ghost predicate OnlyMoved(s: State, s': State, t: Id)
    requires t < |s.queries|
  {
    exists p :: s' == Move(s, t, p)
  }

  /** The query is on its own: it has created a call. */
  predicate OnItsOwn(p: Phase) {
    InWindow(p) || p.Deleted? || (p.Done? && p.followed.None?)
  }

  /** The outcome a query on its own has come to, from its resolution on. */
  function Reached(p: Phase): Option<Outcome> {
    if p.Resolved? then Some(p.outcome) else OutcomeOf(p)
  }

  /** A query whose lookup, the i-th step, found something. */
  ghost predicate FoundPast(run: seq<State>, acts: seq<Act>, n: nat, t: Id, i: nat)
    requires n <= |acts| && HasQuery(run, n, t) && LookupAt(run, acts, t, i) && i + 1 < |run|
  {
    && run[n].queries[t].phase == Done(acts[i].c.hit, None) && t !in run[n].calls
    && NoStepBut(acts, n, t, i) && OnlyMoved(run[i], run[i + 1], t)
  }

  /** This outcome is what the network gave this query. */
  ghost predicate CameFrom(run: seq<State>, acts: seq<Act>, n: nat, t: Id, o: Outcome) {
    exists j: nat :: j < n && ResolutionAt(run, acts, t, j) && o == acts[j].c.outcome
  }

  /** A query whose lookup missed. */
  ghost predicate MissedPast(run: seq<State>, acts: seq<Act>, n: nat, t: Id)
    requires n <= |acts| && HasQuery(run, n, t)
  {
    var p := run[n].queries[t].phase;
    && (OnItsOwn(p) <==> t in run[n].calls)
    && (Reached(p).Some? ==> CameFrom(run, acts, n, t, Reached(p).value))
    && (p.Done? && p.followed.None? ==> Reached(p).Some?)
  }

  ghost predicate Past(run: seq<State>, acts: seq<Act>, n: nat, t: Id, i: nat)
    requires n <= |acts| && HasQuery(run, n, t)
  {
    if run[n].queries[t].phase.Asked? then NoStepBut(acts, n, t, -1) && t !in run[n].calls
    else
      && i < n && LookupAt(run, acts, t, i) && i + 1 < |run|
      && if acts[i].c.hit.Some? then FoundPast(run, acts, n, t, i) else MissedPast(run, acts, n, t)
  }

  lemma {:induction false} PastHolds(max: nat, run: seq<State>, acts: seq<Act>, n: nat, t: Id) returns (i: nat)
    requires Happened(max, run, acts) && n <= |acts| && t < |run[0].queries|
    ensures HasQuery(run, n, t) && Past(run, acts, n, t, i)
  {
    hide *;
    StateAt(max, run, acts, n, t);
    if n == 0 {
      i := 0;
      FirstPast(max, run, acts, t);
    } else {
      i := PastHolds(max, run, acts, n - 1, t);
      StateAt(max, run, acts, n - 1, t);
      if acts[n - 1].t == t {
        i := OwnPast(max, run, acts, n, t, i);
      } else {
        OthersPast(max, run, acts, n, t, i);
      }
    }
  }

  lemma StateAt(max: nat, run: seq<State>, acts: seq<Act>, n: nat, t: Id)
    requires Happened(max, run, acts) && n <= |acts| && t < |run[0].queries|
    ensures n < |run| && Inv(max, run[n]) && HasQuery(run, n, t)
  {
    ActsMakeRuns(max, run, acts);
    RunInv(max, run, n);
    hide Inv, Happened, IsRun;
  }

  lemma FirstPast(max: nat, run: seq<State>, acts: seq<Act>, t: Id)
    requires Happened(max, run, acts) && t < |run[0].queries|
    ensures HasQuery(run, 0, t) && Past(run, acts, 0, t, 0)
  {
  }

  lemma LaterCameFrom(run: seq<State>, acts: seq<Act>, n: nat, t: Id, o: Outcome)
    requires n > 0 && CameFrom(run, acts, n - 1, t, o)
    ensures CameFrom(run, acts, n, t, o)
  {
    hide ResolutionAt;
  }

  /** A step of another query. */
  lemma OthersPast(max: nat, run: seq<State>, acts: seq<Act>, n: nat, t: Id, i: nat)
    requires Happened(max, run, acts) && 0 < n <= |acts| && acts[n - 1].t != t
    requires Inv(max, run[n - 1]) && HasQuery(run, n - 1, t) && Past(run, acts, n - 1, t, i)
    ensures HasQuery(run, n, t) && Past(run, acts, n, t, i)
  {
    assert t < |run[n - 1].queries|;
    hide *;
    StepAt(max, run, acts, n);
    OthersStay(max, run[n - 1], acts[n - 1], run[n], t);
    SamePast(run, acts, n, t, i);
  }

  lemma StepAt(max: nat, run: seq<State>, acts: seq<Act>, n: nat)
    requires Happened(max, run, acts) && 0 < n <= |acts|
    ensures n < |run| && StepOf(max, run[n - 1], acts[n - 1], run[n])
  {
    hide StepOf, Start;
    assert StepOf(max, run[n - 1], acts[n - 1], run[n - 1 + 1]);
  }

  lemma OthersStay(max: nat, s: State, a: Act, s': State, t: Id)
    requires Inv(max, s) && StepOf(max, s, a, s') && t < |s.queries| && t != a.t
    ensures |s'.queries| == |s.queries| && s'.queries[t] == s.queries[t] && (t in s'.calls <==> t in s.calls)
  {
    assert QueryOk(max, s, a.t);
    hide Inv, Step, QueryOk;
    StepFrames(max, s, a.t, a.c);
  }

  lemma SamePast(run: seq<State>, acts: seq<Act>, n: nat, t: Id, i: nat)
    requires 0 < n <= |acts| && n < |run| && acts[n - 1].t != t
    requires HasQuery(run, n - 1, t) && Past(run, acts, n - 1, t, i)
    requires |run[n].queries| == |run[n - 1].queries| && run[n].queries[t] == run[n - 1].queries[t]
    requires t in run[n].calls <==> t in run[n - 1].calls
    ensures HasQuery(run, n, t) && Past(run, acts, n, t, i)
  {
    hide LookupAt, OnlyMoved, CameFrom, OnItsOwn, Reached;
    var p := run[n].queries[t].phase;
    if Reached(p).Some? && CameFrom(run, acts, n - 1, t, Reached(p).value) {
      LaterCameFrom(run, acts, n, t, Reached(p).value);
    }
  }

  /** A step of the query itself. */
  lemma OwnPast(max: nat, run: seq<State>, acts: seq<Act>, n: nat, t: Id, i: nat) returns (k: nat)
    requires Happened(max, run, acts) && 0 < n <= |acts| && acts[n - 1].t == t
    requires Inv(max, run[n - 1]) && HasQuery(run, n - 1, t) && Past(run, acts, n - 1, t, i)
    ensures HasQuery(run, n, t) && Past(run, acts, n, t, k)
  {
    assert t < |run[n - 1].queries|;
    hide *;
    StepAt(max, run, acts, n);
    if run[n - 1].queries[t].phase.Asked? {
      k := n - 1;
      UnaskedPast(run, acts, n - 1, t, i);
      LookupPast(max, run, acts, n, t);
    } else {
      k := i;
      StateOk(max, run[n - 1], t);
      WorkPast(max, run, acts, n, t, i);
    }
  }

  lemma StateOk(max: nat, s: State, t: Id)
    requires Inv(max, s) && t < |s.queries|
    ensures QueryOk(max, s, t)
  {
    hide QueryOk;
  }

  lemma UnaskedPast(run: seq<State>, acts: seq<Act>, n: nat, t: Id, i: nat)
    requires n <= |acts| && HasQuery(run, n, t) && Past(run, acts, n, t, i) && run[n].queries[t].phase.Asked?
    ensures NoStepBut(acts, n, t, -1) && t !in run[n].calls
  {
    hide NoStepBut;
  }

  lemma LookupPast(max: nat, run: seq<State>, acts: seq<Act>, n: nat, t: Id)
    requires 0 < n <= |acts| && n < |run| && acts[n - 1].t == t && HasQuery(run, n - 1, t)
    requires StepOf(max, run[n - 1], acts[n - 1], run[n]) && run[n - 1].queries[t].phase.Asked?
    requires NoStepBut(acts, n - 1, t, -1) && t !in run[n - 1].calls
    ensures HasQuery(run, n, t) && Past(run, acts, n, t, n - 1)
  {
    var c := acts[n - 1].c;
    assert run[n] == Move(run[n - 1], t, if c.hit.Some? then Done(c.hit, None) else Missed);
    assert run[n - 1 + 1] == run[n];
    hide Step;
  }

  lemma WorkPast(max: nat, run: seq<State>, acts: seq<Act>, n: nat, t: Id, i: nat)
    requires 0 < n <= |acts| && n < |run| && acts[n - 1].t == t && HasQuery(run, n - 1, t)
    requires StepOf(max, run[n - 1], acts[n - 1], run[n]) && !run[n - 1].queries[t].phase.Asked?
    requires QueryOk(max, run[n - 1], t) && Past(run, acts, n - 1, t, i)
    ensures HasQuery(run, n, t) && Past(run, acts, n, t, i)
  {
    var s, c, p := run[n - 1], acts[n - 1].c, run[n - 1].queries[t].phase;
    var p' := run[n].queries[t].phase;
    OwnStepPast(max, s, t, c);
    hide Step, QueryOk, OnItsOwn, Reached;
    if p.Working? {
      assert ResolutionAt(run, acts, t, n - 1);
      assert CameFrom(run, acts, n, t, c.outcome);
    } else if Reached(p').Some? {
      LaterCameFrom(run, acts, n, t, Reached(p').value);
    }
  }

  /** A query that has missed steps on: on its own exactly if it has a call, and the outcome it reaches when it
      resolves stays its outcome. */
  lemma OwnStepPast(max: nat, s: State, t: Id, c: Choice)
    requires Enabled(max, s, t) && !s.queries[t].phase.Asked? && QueryOk(max, s, t)
    requires OnItsOwn(s.queries[t].phase) <==> t in s.calls
    ensures var s' := Step(max, s, t, c);
            && t < |s'.queries| && !s'.queries[t].phase.Asked? && !s.queries[t].phase.Done?
            && (OnItsOwn(s'.queries[t].phase) <==> t in s'.calls)
            && (s.queries[t].phase.Working? ==> Reached(s'.queries[t].phase) == Some(c.outcome))
            && (!s.queries[t].phase.Working? ==> Reached(s'.queries[t].phase) == Reached(s.queries[t].phase))
            && (s'.queries[t].phase.Done? && s'.queries[t].phase.followed.None? ==>
                  Reached(s'.queries[t].phase).Some?)
  {
  }

  /* ----- What a query returns ----- */

  /** A query that is done has returned what its one look into the cache found, and has then done nothing else and
      changed nothing; or that look missed, and it returns what the network gave it as the maker of a call,
      or what the network gave the query it followed, one for the same question. */
  lemma ReturnsWhatWasFound(max: nat, run: seq<State>, acts: seq<Act>, n: nat, t: Id) returns (i: nat)
    requires Happened(max, run, acts) && n <= |acts| && HasQuery(run, n, t) && run[n].queries[t].phase.Done?
    ensures i < n && LookupAt(run, acts, t, i) && i + 1 < |run|
    ensures var Done(result, followed) := run[n].queries[t].phase;
            && (acts[i].c.hit.Some? ==>
                  && result == acts[i].c.hit && followed == None && t !in run[n].calls
                  && NoStepBut(acts, n, t, i) && OnlyMoved(run[i], run[i + 1], t))
            && (acts[i].c.hit.None? && followed == None ==>
                  t in run[n].calls && result.Some? && CameFrom(run, acts, n, t, result.value))
            && (acts[i].c.hit.None? && followed.Some? ==>
                  && t !in run[n].calls && HasQuery(run, n, followed.value)
                  && run[n].queries[followed.value].key == run[n].queries[t].key
                  && result.Some? && CameFrom(run, acts, n, followed.value, result.value))
  {
    ActsMakeRuns(max, run, acts);
    RunInv(max, run, n);
    hide Happened, IsRun, Inv, QueryOk;
    i := PastHolds(max, run, acts, n, t);
    if run[n].queries[t].phase.followed.Some? {
      FollowerReturnsLeaders(max, run, n, t);
      var leader := run[n].queries[t].phase.followed.value;
      var k := PastHolds(max, run, acts, n, leader);
    }
  }
}
