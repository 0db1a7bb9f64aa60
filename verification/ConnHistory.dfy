/** The life of one connection over whole runs: the IDs of the requests sent on it, and where it goes when it is
    given back. */
module ConnHistory {
  import opened Wrappers
  import opened Text
  import opened Message
  import opened ConnPool
  import opened PoolRuns

  /* ----- Request IDs ----- */

  predicate SendsOn(s: State, a: Action, id: nat) {
    a.Send? && Holds(s, a.q, id)
  }

  /** Wherever the state has this connection, its next ID is x. */
  ghost predicate NextIs(s: State, id: nat, x: u16) {
    && (forall server :: ListNextIs(List(s.pool, server), id, x))
    && (forall q :: 0 <= q < |s.queries| ==> HeldNextIs(s.queries[q].phase, id, x))
  }

  predicate ListNextIs(list: seq<Conn>, id: nat, x: u16) {
    forall k :: 0 <= k < |list| && list[k].id == id ==> list[k].nextID == x
  }

  predicate HeldNextIs(p: Phase, id: nat, x: u16) {
    Has(p, id) ==> p.conn.nextID == x
  }

  /** Only sending changes a connection's next ID. */
  lemma StepKeepsNext(s: State, max: nat, a: Action, id: nat, x: u16)
    requires Enabled(s, a) && Placed(s.pool) && NextIs(s, id, x) && id < s.dialled && !SendsOn(s, a, id)
    ensures NextIs(Step(s, max, a), id, x)
  {
    hide List, ListNextIs, HeldNextIs;
    var s' := Step(s, max, a);
    forall server ensures ListNextIs(List(s'.pool, server), id, x) {
      ListAfter(s, max, a, id, x, server);
    }
    forall q | 0 <= q < |s'.queries| ensures HeldNextIs(s'.queries[q].phase, id, x) {
      HeldAfterStep(s, max, a, id, x, q);
    }
  }

  lemma ListAfter(s: State, max: nat, a: Action, id: nat, x: u16, server: Str)
    requires Enabled(s, a) && Placed(s.pool) && NextIs(s, id, x)
    ensures ListNextIs(List(Step(s, max, a).pool, server), id, x)
  {
    hide ShardIdx, List;
    var list := List(s.pool, server);
    assert ListNextIs(list, id, x);
    match a
    case Borrow(q) => ListWith(s.pool, s.queries[q].server, GetRest(s.pool, s.queries[q].server), server);
    case GiveBack(q, now) =>
      var c := s.queries[q].phase.conn.(lastUsed := now);
      assert HeldNextIs(s.queries[q].phase, id, x);
      ListWith(s.pool, s.queries[q].server, List(s.pool, s.queries[q].server) + [c], server);
    case Reap(i, maxIdle, now) =>
      ListReaped(s.pool, i, maxIdle, now, server);
      FreshNextIs(list, maxIdle, now, id, x);
    case _ =>
  }

  function GetRest(p: Pool, server: Str): seq<Conn> {
    var list := List(p, server);
    if list == [] then [] else list[..|list| - 1]
  }

  lemma {:induction false} FreshNextIs(list: seq<Conn>, maxIdle: Time, now: Time, id: nat, x: u16)
    requires ListNextIs(list, id, x)
    ensures ListNextIs(Fresh(list, maxIdle, now), id, x)
  {
    if list != [] { FreshNextIs(list[..|list| - 1], maxIdle, now, id, x); }
  }

  lemma HeldAfterStep(s: State, max: nat, a: Action, id: nat, x: u16, q: nat)
    requires Enabled(s, a) && NextIs(s, id, x) && id < s.dialled && !SendsOn(s, a, id)
    requires q < |Step(s, max, a).queries|
    ensures HeldNextIs(Step(s, max, a).queries[q].phase, id, x)
  {
    hide ShardIdx, List;
    assert HeldNextIs(s.queries[q].phase, id, x);
    if a.Borrow? { assert ListNextIs(List(s.pool, s.queries[a.q].server), id, x); }
  }

  /** Sending takes the next ID and leaves the one after it, modulo 2^16. */
  lemma SendTakesNext(s: State, max: nat, a: Action, id: nat, owner: map<nat, Owner>)
    requires Inv(s, max, owner) && Enabled(s, a) && SendsOn(s, a, id)
    ensures var x := s.queries[a.q].phase.conn.nextID;
            NextIs(Step(s, max, a), id, (x + 1) % 65536)
  {
    assert a.Send?;
    hide *;
    InvParts(s, max, owner);
    SendMoves(s, max, a, id);
    HeldOnly(s, owner, a.q, id);
    NowhereElse(s, Step(s, max, a), a.q, id, (s.queries[a.q].phase.conn.nextID + 1) % 65536);
  }

  lemma SendMoves(s: State, max: nat, a: Action, id: nat)
    requires Enabled(s, a) && SendsOn(s, a, id)
    ensures var s' := Step(s, max, a);
            && a.q < |s.queries| == |s'.queries| && s'.pool == s.pool
            && (s.queries[a.q].phase.Holding?) && Holds(s, a.q, id)
            && (forall q :: 0 <= q < |s.queries| && q != a.q ==> s'.queries[q] == s.queries[q])
            && HeldNextIs(s'.queries[a.q].phase, id, (s.queries[a.q].phase.conn.nextID + 1) % 65536)
  {
  }

  lemma NowhereElse(s: State, s': State, q: nat, id: nat, x: u16)
    requires q < |s.queries| == |s'.queries| && s'.pool == s.pool && HeldNextIs(s'.queries[q].phase, id, x)
    requires forall p :: 0 <= p < |s.queries| && p != q ==> s'.queries[p] == s.queries[p]
    requires forall p: nat :: Holds(s, p, id) ==> p == q
    requires forall server :: !Listed(List(s.pool, server), id)
    ensures NextIs(s', id, x)
  {
    hide List;
    forall server ensures ListNextIs(List(s'.pool, server), id, x) {
      assert !Listed(List(s.pool, server), id);
    }
    forall p | 0 <= p < |s'.queries| ensures HeldNextIs(s'.queries[p].phase, id, x) {
      assert p != q ==> !Holds(s, p, id);
    }
  }

  lemma HeldOnly(s: State, owner: map<nat, Owner>, q: nat, id: nat)
    requires HeldOwned(s, owner) && PooledOwned(s, owner) && Holds(s, q, id)
    ensures forall p: nat :: Holds(s, p, id) ==> p == q
    ensures forall server :: !Listed(List(s.pool, server), id)
  {
    hide List, Listed;
    assert owner[id] == HeldBy(q);
  }

  lemma DialledStays(s: State, max: nat, a: Action, owner: map<nat, Owner>, id: nat)
    requires Inv(s, max, owner) && Enabled(s, a)
    ensures SendsOn(s, a, id) ==> id < s.dialled
    ensures s.dialled <= Step(s, max, a).dialled
  {
    hide List, Listed, ListOk;
  }

  lemma RunStepIs(max: nat, servers: seq<Str>, actions: seq<Action>, states: seq<State>, i: nat)
    requires IsRun(max, servers, actions, states) && i < |actions|
    ensures i + 1 < |states| && Enabled(states[i], actions[i]) && states[i + 1] == Step(states[i], max, actions[i])
  {
    hide Enabled, Step, Start;
  }

  /** From one request on a connection to just before the next one. */
  lemma {:induction false} NextUntil(max: nat, servers: seq<Str>, actions: seq<Action>, states: seq<State>, i: nat,
                                     j: nat, id: nat, x: u16)
    requires IsRun(max, servers, actions, states) && i < j <= |actions| && j < |states| && i < |states|
    requires SendsOn(states[i], actions[i], id) && states[i].queries[actions[i].q].phase.conn.nextID == x
    requires forall k :: i < k < j ==> !SendsOn(states[k], actions[k], id)
    ensures NextIs(states[j], id, (x + 1) % 65536) && id < states[j].dialled
    decreases j - i
  {
    hide *;
    var owner := RunInv(max, servers, actions, states, j - 1);
    RunStepIs(max, servers, actions, states, j - 1);
    DialledStays(states[j - 1], max, actions[j - 1], owner, id);
    if j == i + 1 {
      SendTakesNext(states[i], max, actions[i], id, owner);
    } else {
      NextUntil(max, servers, actions, states, i, j - 1, id, x);
      InvParts(states[j - 1], max, owner);
      StepKeepsNext(states[j - 1], max, actions[j - 1], id, (x + 1) % 65536);
    }
  }

  /** The ID of the request that a query writes. */
  predicate Requests(states: seq<State>, actions: seq<Action>, i: nat, id: nat, x: u16) {
    && i < |actions| && i + 1 < |states| && SendsOn(states[i], actions[i], id)
    && actions[i].q < |states[i + 1].queries|
    && states[i + 1].queries[actions[i].q].phase.Waiting? && states[i + 1].queries[actions[i].q].phase.reqID == x
  }

  lemma RequestTakesNext(max: nat, servers: seq<Str>, actions: seq<Action>, states: seq<State>, i: nat, id: nat, x: u16)
    requires IsRun(max, servers, actions, states) && Requests(states, actions, i, id, x)
             && Enabled(states[i], actions[i])
    ensures states[i].queries[actions[i].q].phase.conn.nextID == x
  {
  }

  /** Whatever happens in between, and however often a connection changes hands: of two successive requests on
      it, the second has the ID after that of the first, modulo 2^16. */
  lemma SuccessiveIDs(max: nat, servers: seq<Str>, actions: seq<Action>, states: seq<State>, i: nat, j: nat, id: nat,
                      x: u16, y: u16)
    requires IsRun(max, servers, actions, states) && i < j
    requires Requests(states, actions, i, id, x) && Requests(states, actions, j, id, y)
    requires forall k :: i < k < j ==> !SendsOn(states[k], actions[k], id)
    ensures y == (x + 1) % 65536
  {
    RunStepIs(max, servers, actions, states, i);
    RunStepIs(max, servers, actions, states, j);
    RequestTakesNext(max, servers, actions, states, i, id, x);
    RequestTakesNext(max, servers, actions, states, j, id, y);
    assert Holds(states[j], actions[j].q, id) && actions[j].q < |states[j].queries|;
    hide IsRun, Enabled, Step;
    NextUntil(max, servers, actions, states, i, j, id, x);
    assert HeldNextIs(states[j].queries[actions[j].q].phase, id, (x + 1) % 65536);
  }

  /* ----- Where a connection goes ----- */

  /** A connection that is given back in good order, to a list with room, is the one that is borrowed next, and the
      pool is then as before. */
  lemma LastInFirstOut(p: Pool, max: nat, server: Str, c: Conn, now: Time)
    requires |List(p, server)| < max
    ensures var (kept, shut) := PutList(p, max, server, c, false, now);
            var (after, got) := GetList(kept, server);
            && !shut && got == Some(c.(lastUsed := now))
            && forall t :: List(after, t) == List(p, t)
  {
    hide ShardIdx;
    var list := List(p, server);
    assert (list + [c.(lastUsed := now)])[..|list|] == list;
  }

  /** Reaping keeps exactly the connections used less than the idle time ago. */
  lemma {:induction false} ReapsExactly(list: seq<Conn>, maxIdle: Time, now: Time, c: Conn)
    ensures c in Fresh(list, maxIdle, now) <==> c in list && now - c.lastUsed < maxIdle
  {
    if list != [] {
      ReapsExactly(list[..|list| - 1], maxIdle, now, c);
      assert list == list[..|list| - 1] + [list[|list| - 1]];
    }
  }

  /** A failed one, and one too many, is closed and leaves the pool as it was; from an empty list nothing comes. */
  lemma ClosedOrDialled(p: Pool, max: nat, server: Str, c: Conn, failed: bool, now: Time)
    ensures failed || |List(p, server)| >= max ==> PutList(p, max, server, c, failed, now) == (p, true)
    ensures List(p, server) == [] ==> GetList(p, server) == (p, None)
  {
    hide List;
  }
}
