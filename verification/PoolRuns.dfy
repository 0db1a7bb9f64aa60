/** Every interleaving of queries borrowing connections, the network answering or not, and the
    reaper: who holds a connection, and in what state a connection is handed over. */
module PoolRuns {
  import opened Wrappers
  import opened Text
  import opened Message
  import opened ConnPool

  datatype Phase =
    | Starting
    | Dialling
    | Holding(conn: Conn)
    | Waiting(conn: Conn, reqID: u16)
    | Returning(conn: Conn, failed: bool)
    | Finished

  datatype Query = Query(server: Str, phase: Phase)

  datatype State = State(pool: Pool, queries: seq<Query>, closed: set<nat>, dialled: nat)

  /** One atomic step. A reply is the ID of a message that parses; None is a read or parse error. */
  datatype Action =
    | Borrow(q: nat)
    | Dial(q: nat, ok: bool, nextID: u16)
    | Send(q: nat, packed: bool, written: bool)
    | Receive(q: nat, reply: Option<u16>)
    | GiveBack(q: nat, now: Time)
    | Reap(shard: nat, maxIdle: Time, now: Time)

  function To(s: State, q: nat, phase: Phase): State
    requires q < |s.queries|
  {
    s.(queries := s.queries[q := s.queries[q].(phase := phase)])
  }

  predicate Enabled(s: State, a: Action) {
    match a
    case Borrow(q) => q < |s.queries| && s.queries[q].phase.Starting?
    case Dial(q, _, _) => q < |s.queries| && s.queries[q].phase.Dialling?
    case Send(q, _, _) => q < |s.queries| && s.queries[q].phase.Holding?
    case Receive(q, _) => q < |s.queries| && s.queries[q].phase.Waiting?
    case GiveBack(q, _) => q < |s.queries| && s.queries[q].phase.Returning?
    case Reap(i, _, _) => i < NUM_SHARDS
  }

  /** The request takes the connection's ID, which then advances modulo 2^16 even when the request
      cannot be packed; a failed write may still have reached the server. */
  function Sent(c: Conn, packed: bool, written: bool): Phase {
    var after := c.(nextID := (c.nextID + 1) % 0x1_0000);
    var pending := after.(unanswered := c.unanswered + multiset{c.nextID});
    if !packed then Returning(after, true)
    else if !written then Returning(pending, true)
    else Waiting(pending, c.nextID)
  }

  /** A response of another ID is an error; one of the request's own ID, whatever its response
      code, leaves the connection fit for reuse. */
  function Received(c: Conn, reqID: u16, reply: Option<u16>): Phase {
    if reply != Some(reqID) then Returning(c, true)
    else Returning(c.(unanswered := c.unanswered - multiset{reqID}), false)
  }

  function Step(s: State, max: nat, a: Action): State
    requires Enabled(s, a)
  {
    match a
    case Borrow(q) =>
      var (pool, c) := GetList(s.pool, s.queries[q].server);
      To(s.(pool := pool), q, if c.Some? then Holding(c.value) else Dialling)
    case Dial(q, ok, nextID) =>
      if !ok then To(s, q, Finished)
      else
        To(s.(dialled := s.dialled + 1), q,
           Holding(Conn(s.dialled, s.queries[q].server, nextID, 0, multiset{})))
    case Send(q, packed, written) => To(s, q, Sent(s.queries[q].phase.conn, packed, written))
    case Receive(q, reply) => To(s, q, Received(s.queries[q].phase.conn, s.queries[q].phase.reqID, reply))
    case GiveBack(q, now) =>
      var c := s.queries[q].phase.conn;
      var (pool, shut) := PutList(s.pool, max, s.queries[q].server, c, s.queries[q].phase.failed, now);
      To(s.(pool := pool, closed := if shut then s.closed + {c.id} else s.closed), q, Finished)
    case Reap(i, maxIdle, now) =>
      s.(pool := s.pool[i := Reaped(s.pool[i], maxIdle, now)],
         closed := s.closed + StaleIds(s.pool[i], maxIdle, now))
  }

  function Start(servers: seq<Str>): State {
    State(seq(NUM_SHARDS, _ => map[]), seq(|servers|, i requires 0 <= i < |servers| => Query(servers[i], Starting)),
          {}, 0)
  }

  /** A run: states joined by enabled steps, for any number of queries. */
  ghost predicate IsRun(max: nat, servers: seq<Str>, actions: seq<Action>, states: seq<State>) {
    && |states| == |actions| + 1
    && states[0] == Start(servers)
    && forall i :: 0 <= i < |actions| ==>
         Enabled(states[i], actions[i]) && states[i + 1] == Step(states[i], max, actions[i])
  }

  /* ----- Where connections are ----- */

  predicate Has(p: Phase, id: nat) {
    (p.Holding? || p.Waiting? || p.Returning?) && p.conn.id == id
  }

  predicate Holds(s: State, q: nat, id: nat) {
    q < |s.queries| && Has(s.queries[q].phase, id)
  }

  predicate Listed(list: seq<Conn>, id: nat) {
    exists k :: 0 <= k < |list| && list[k].id == id
  }

  predicate NoRepeats(list: seq<Conn>) {
    forall j, k :: 0 <= j < k < |list| ==> list[j].id != list[k].id
  }

  datatype Owner = Pooled(server: Str) | HeldBy(q: nat) | Closed

  /** A pooled connection: dialled for this server, and with no request left unanswered. */
  predicate Settled(c: Conn, server: Str) {
    c.server == server && c.unanswered == multiset{}
  }

  predicate ListOk(list: seq<Conn>, server: Str, max: nat) {
    |list| <= max && NoRepeats(list) && forall k :: 0 <= k < |list| ==> Settled(list[k], server)
  }

  /** A held connection: what the holder's own request adds is all that can be unanswered. */
  predicate PhaseOk(p: Phase, server: Str) {
    match p
    case Holding(c) => Settled(c, server)
    case Waiting(c, reqID) => c.server == server && c.unanswered == multiset{reqID}
    case Returning(c, failed) => c.server == server && (!failed ==> c.unanswered == multiset{})
    case _ => true
  }

  /** Every list is in its server's shard. */
  ghost predicate Placed(p: Pool) {
    forall i, server :: 0 <= i < NUM_SHARDS && server in p[i] ==> ShardIdx(server) == i
  }

  ghost predicate Lists(s: State, max: nat) {
    forall server :: ListOk(List(s.pool, server), server, max)
  }

  ghost predicate Phases(s: State) {
    forall q :: 0 <= q < |s.queries| ==> PhaseOk(s.queries[q].phase, s.queries[q].server)
  }

  ghost predicate PooledOwned(s: State, owner: map<nat, Owner>) {
    forall server, id: nat :: Listed(List(s.pool, server), id) <==> id in owner && owner[id] == Pooled(server)
  }

  ghost predicate HeldOwned(s: State, owner: map<nat, Owner>) {
    forall q: nat, id: nat :: Holds(s, q, id) <==> id in owner && owner[id] == HeldBy(q)
  }

  ghost predicate ClosedOwned(s: State, owner: map<nat, Owner>) {
    forall id: nat :: id in s.closed <==> id in owner && owner[id] == Closed
  }

  ghost predicate Dialled(s: State, owner: map<nat, Owner>) {
    forall id: nat :: id in owner <==> id < s.dialled
  }

  ghost predicate Inv(s: State, max: nat, owner: map<nat, Owner>) {
    && Placed(s.pool) && Lists(s, max) && Phases(s)
    && Dialled(s, owner) && PooledOwned(s, owner) && HeldOwned(s, owner) && ClosedOwned(s, owner)
  }

  /* ----- Lists ----- */

  lemma ListWith(p: Pool, server: Str, list: seq<Conn>, t: Str)
    ensures List(WithList(p, server, list), t) == if t == server then list else List(p, t)
    ensures Placed(p) ==> Placed(WithList(p, server, list))
  {
    hide ShardIdx;
  }

  lemma ListReaped(p: Pool, i: nat, maxIdle: Time, now: Time, t: Str)
    requires i < NUM_SHARDS
    ensures List(p[i := Reaped(p[i], maxIdle, now)], t)
            == if ShardIdx(t) == i then Fresh(List(p, t), maxIdle, now) else List(p, t)
    ensures Placed(p) ==> Placed(p[i := Reaped(p[i], maxIdle, now)])
  {
    hide ShardIdx;
    if ShardIdx(t) == i && t !in p[i] { assert Fresh([], maxIdle, now) == []; }
  }

  lemma {:induction false} FreshListed(list: seq<Conn>, maxIdle: Time, now: Time)
    requires NoRepeats(list)
    ensures forall id: nat :: Listed(Fresh(list, maxIdle, now), id)
                         <==> Listed(list, id) && id !in StaleOf(list, maxIdle, now)
  {
    if list != [] {
      var front, last := list[..|list| - 1], list[|list| - 1];
      FreshListed(front, maxIdle, now);
      OneMore(list, |front|, maxIdle, now);
      assert list[..|front| + 1] == list == front + [last];
      ListedSnoc(front, last);
      ListedSnoc(Fresh(front, maxIdle, now), last);
      assert !Listed(front, last.id);
      assert Fresh(front, maxIdle, now) + [] == Fresh(front, maxIdle, now);
      assert forall id: nat :: id in StaleOf(front, maxIdle, now) ==> Listed(front, id);
      hide Listed, StaleOf, NoRepeats;
    }
  }

  lemma {:induction false} FreshOk(list: seq<Conn>, maxIdle: Time, now: Time, server: Str, max: nat)
    requires ListOk(list, server, max)
    ensures ListOk(Fresh(list, maxIdle, now), server, max) && |Fresh(list, maxIdle, now)| <= |list|
  {
    if list != [] {
      var front, last := list[..|list| - 1], list[|list| - 1];
      FreshOk(front, maxIdle, now, server, max);
      FreshListed(front, maxIdle, now);
      var f := Fresh(front, maxIdle, now);
      assert forall k :: 0 <= k < |f| ==> Listed(f, f[k].id);
      assert !Listed(front, last.id);
    }
  }

  lemma ListedSnoc(list: seq<Conn>, c: Conn)
    ensures forall id: nat :: Listed(list + [c], id) <==> Listed(list, id) || id == c.id
  {
    var more := list + [c];
    forall id ensures Listed(more, id) <==> Listed(list, id) || id == c.id {
      if Listed(list, id) {
        var k :| 0 <= k < |list| && list[k].id == id;
        assert more[k].id == id;
      }
      assert more[|list|] == c;
    }
  }

  /* ----- Each step keeps the invariant ----- */

  /** One query moving on changes no other holder. */
  lemma HeldAfter(s: State, s': State, q: nat, owner: map<nat, Owner>, owner': map<nat, Owner>)
    requires HeldOwned(s, owner) && q < |s.queries| == |s'.queries|
    requires forall i :: 0 <= i < |s.queries| && i != q ==> s'.queries[i] == s.queries[i]
    requires forall id: nat :: Has(s'.queries[q].phase, id) <==> id in owner' && owner'[id] == HeldBy(q)
    requires forall i: nat, id: nat | i != q ::
               (id in owner' && owner'[id] == HeldBy(i)) <==> (id in owner && owner[id] == HeldBy(i))
    ensures HeldOwned(s', owner')
  {
    forall i: nat, id: nat ensures Holds(s', i, id) <==> id in owner' && owner'[id] == HeldBy(i) {
      if i != q {
        assert Holds(s, i, id) <==> Holds(s', i, id);
      }
    }
  }

  /** A query q moves on to `phase`; pool, closed connections and the count become those of t; and the
      connection with this id, if any, changes hands. */
  lemma MoveInv(s: State, t: State, q: nat, phase: Phase, max: nat, owner: map<nat, Owner>, id: nat, o: Owner)
    requires q < |s.queries| && t.queries == s.queries
    requires Placed(t.pool) && Lists(t, max)
    requires Phases(s) && PhaseOk(phase, s.queries[q].server)
    requires Dialled(t, owner[id := o]) && PooledOwned(t, owner[id := o]) && ClosedOwned(t, owner[id := o])
    requires HeldOwned(s, owner)
    requires forall x: nat :: Has(phase, x) <==> x == id && o == HeldBy(q)
    requires forall x: nat :: x in owner && owner[x] == HeldBy(q) ==> x == id
    requires (o.HeldBy? ==> o.q == q) && (id in owner && owner[id].HeldBy? ==> owner[id].q == q)
    ensures Inv(To(t, q, phase), max, owner[id := o])
  {
    hide List, Listed, ListOk, ShardIdx, PhaseOk;
    var s', owner' := To(t, q, phase), owner[id := o];
    HeldAfter(s, s', q, owner, owner');
    assert Phases(s');
    assert Lists(s', max);
    assert PooledOwned(s', owner');
    assert ClosedOwned(s', owner');
  }

  /** One connection entering or leaving one server's list. */
  lemma PooledAfter(s: State, s': State, server: Str, list: seq<Conn>, id: nat, owner: map<nat, Owner>, o: Owner)
    requires PooledOwned(s, owner)
    requires forall t :: List(s'.pool, t) == if t == server then list else List(s.pool, t)
    requires forall x :: x != id ==> (Listed(list, x) <==> Listed(List(s.pool, server), x))
    requires forall t :: t != server ==> !Listed(List(s.pool, t), id)
    requires Listed(list, id) <==> o == Pooled(server)
    requires o.Pooled? ==> o.server == server
    ensures PooledOwned(s', owner[id := o])
  {
    hide Listed, List;
  }

  lemma InvParts(s: State, max: nat, owner: map<nat, Owner>)
    requires Inv(s, max, owner)
    ensures Placed(s.pool) && Lists(s, max) && Phases(s)
    ensures Dialled(s, owner) && PooledOwned(s, owner) && HeldOwned(s, owner) && ClosedOwned(s, owner)
    ensures forall server :: ListOk(List(s.pool, server), server, max)
  {
  }

  /** A connection in one list is in no other, and with no query. */
  lemma PooledOnce(s: State, owner: map<nat, Owner>, server: Str, id: nat, q: nat)
    requires PooledOwned(s, owner) && HeldOwned(s, owner) && Listed(List(s.pool, server), id)
    requires q < |s.queries| && s.queries[q].phase.Starting?
    ensures id in owner && owner[id] == Pooled(server)
    ensures forall u :: u != server ==> !Listed(List(s.pool, u), id)
    ensures forall x: nat :: x in owner ==> owner[x] != HeldBy(q)
  {
    hide Listed, List;
    assert forall x: nat :: !Holds(s, q, x);
  }

  /** A connection with a query is in no list, and the only one with that query. */
  lemma HeldOnce(s: State, owner: map<nat, Owner>, q: nat, id: nat)
    requires PooledOwned(s, owner) && HeldOwned(s, owner) && Holds(s, q, id)
    ensures id in owner && owner[id] == HeldBy(q)
    ensures forall u :: !Listed(List(s.pool, u), id)
    ensures forall x: nat :: x in owner && owner[x] == HeldBy(q) ==> x == id
  {
    hide Listed, List;
    assert forall x: nat :: Holds(s, q, x) ==> x == id;
  }

  lemma ClosedKept(s: State, t: State, owner: map<nat, Owner>, id: nat, o: Owner)
    requires ClosedOwned(s, owner) && Dialled(s, owner) && t.closed == s.closed && t.dialled == s.dialled
    requires id in owner && owner[id] != Closed && o != Closed
    ensures ClosedOwned(t, owner[id := o]) && Dialled(t, owner[id := o])
  {
  }

  /** t is s with one server's list replaced. */
  ghost predicate Relisted(s: State, t: State, server: Str, list: seq<Conn>) {
    t == s.(pool := WithList(s.pool, server, list))
  }

  lemma BorrowPooledInv(s: State, t: State, max: nat, q: nat, front: seq<Conn>, c: Conn, owner: map<nat, Owner>)
    requires Inv(s, max, owner) && q < |s.queries| && s.queries[q].phase.Starting?
    requires List(s.pool, s.queries[q].server) == front + [c] && Relisted(s, t, s.queries[q].server, front)
    ensures Inv(To(t, q, Holding(c)), max, owner[c.id := HeldBy(q)])
  {
    var server := s.queries[q].server;
    assert t.queries == s.queries && t.closed == s.closed && t.dialled == s.dialled;
    InvParts(s, max, owner);
    hide *;
    PoppedOk(front + [c], front, c, server, max);
    PooledOnce(s, owner, server, c.id, q);
    RelistInv(s, t, server, front, c.id, max, owner, HeldBy(q));
    ClosedKept(s, t, owner, c.id, HeldBy(q));
    HoldingIs(c, server);
    MoveInv(s, t, q, Holding(c), max, owner, c.id, HeldBy(q));
  }

  lemma HoldingIs(c: Conn, server: Str)
    ensures Settled(c, server) ==> PhaseOk(Holding(c), server)
    ensures PhaseOk(Finished, server)
    ensures forall x: nat :: Has(Holding(c), x) <==> x == c.id
    ensures forall x: nat :: !Has(Finished, x)
  {
  }

  lemma PoppedOk(list: seq<Conn>, front: seq<Conn>, c: Conn, server: Str, max: nat)
    requires list == front + [c] && ListOk(list, server, max)
    ensures ListOk(front, server, max) && Settled(c, server) && Listed(list, c.id) && !Listed(front, c.id)
    ensures forall x: nat :: x != c.id ==> (Listed(front, x) <==> Listed(list, x))
  {
    ListedSnoc(front, c);
    assert forall k :: 0 <= k < |front| ==> list[k] == front[k];
    assert list[|front|] == c;
  }

  lemma BorrowInv(s: State, max: nat, q: nat, owner: map<nat, Owner>) returns (owner': map<nat, Owner>)
    requires Inv(s, max, owner) && Enabled(s, Borrow(q))
    ensures Inv(Step(s, max, Borrow(q)), max, owner')
  {
    var server := s.queries[q].server;
    var list := List(s.pool, server);
    hide Inv, Has, List, WithList;
    if list == [] {
      owner' := owner;
      NothingHeld();
      KeepInv(s, q, Dialling, max, owner);
    } else {
      var front, c := list[..|list| - 1], list[|list| - 1];
      assert list == front + [c];
      owner' := owner[c.id := HeldBy(q)];
      BorrowPooledInv(s, s.(pool := WithList(s.pool, server, front)), max, q, front, c, owner);
    }
  }

  lemma NothingHeld()
    ensures forall x: nat :: !Has(Dialling, x) && !Has(Starting, x)
  {
  }

  /** The pool's part of a step on one server's list. */
  lemma RelistInv(s: State, t: State, server: Str, list: seq<Conn>, id: nat, max: nat, owner: map<nat, Owner>, o: Owner)
    requires Placed(s.pool) && Lists(s, max) && PooledOwned(s, owner)
    requires Relisted(s, t, server, list) && ListOk(list, server, max)
    requires forall x: nat :: x != id ==> (Listed(list, x) <==> Listed(List(s.pool, server), x))
    requires forall u :: u != server ==> !Listed(List(s.pool, u), id)
    requires Listed(list, id) <==> o == Pooled(server)
    requires o.Pooled? ==> o.server == server
    ensures Placed(t.pool) && Lists(t, max) && PooledOwned(t, owner[id := o])
  {
    hide ShardIdx, List, WithList, Listed, ListOk;
    ListWith(s.pool, server, list, server);
    forall u ensures List(t.pool, u) == if u == server then list else List(s.pool, u) {
      ListWith(s.pool, server, list, u);
    }
    PooledAfter(s, t, server, list, id, owner, o);
  }

  /** A query that moves on without touching the pool, holding what it held. */
  lemma KeepInv(s: State, q: nat, phase: Phase, max: nat, owner: map<nat, Owner>)
    requires Inv(s, max, owner) && q < |s.queries| && PhaseOk(phase, s.queries[q].server)
    requires forall x: nat :: Has(phase, x) <==> Has(s.queries[q].phase, x)
    ensures Inv(To(s, q, phase), max, owner)
  {
    hide List, Listed, ListOk, ShardIdx, PhaseOk;
    var s' := To(s, q, phase);
    assert forall x: nat :: Has(s.queries[q].phase, x) <==> Holds(s, q, x);
    HeldAfter(s, s', q, owner, owner);
    assert Phases(s');
    assert Lists(s', max);
    assert PooledOwned(s', owner);
    assert ClosedOwned(s', owner);
  }

  /** A new connection belongs to the query that dialled it, and the others to whom they belonged. */
  lemma NewlyOwned(s: State, t: State, q: nat, owner: map<nat, Owner>)
    requires t == s.(dialled := s.dialled + 1)
    requires Dialled(s, owner) && PooledOwned(s, owner) && ClosedOwned(s, owner)
    ensures var owner' := owner[s.dialled := HeldBy(q)];
            Dialled(t, owner') && PooledOwned(t, owner') && ClosedOwned(t, owner')
  {
    hide List, Listed;
    var owner' := owner[s.dialled := HeldBy(q)];
    forall server, id: nat
      ensures Listed(List(t.pool, server), id) <==> id in owner' && owner'[id] == Pooled(server)
    {
      assert Listed(List(s.pool, server), id) <==> id in owner && owner[id] == Pooled(server);
    }
    forall id: nat ensures id in t.closed <==> id in owner' && owner'[id] == Closed {
      assert id in s.closed <==> id in owner && owner[id] == Closed;
    }
  }

  lemma DialInv(s: State, max: nat, a: Action, owner: map<nat, Owner>) returns (owner': map<nat, Owner>)
    requires Inv(s, max, owner) && a.Dial? && Enabled(s, a)
    ensures Inv(Step(s, max, a), max, owner')
  {
    hide List, Listed, ListOk, ShardIdx;
    var q := a.q;
    if a.ok {
      owner' := owner[s.dialled := HeldBy(q)];
      var t := s.(dialled := s.dialled + 1);
      var c := Conn(s.dialled, s.queries[q].server, a.nextID, 0, multiset{});
      assert Step(s, max, a) == To(t, q, Holding(c));
      assert forall x: nat :: !Holds(s, q, x);
      hide Step, Enabled;
      assert Lists(t, max);
      NewlyOwned(s, t, q, owner);
      MoveInv(s, t, q, Holding(c), max, owner, s.dialled, HeldBy(q));
    } else {
      owner' := owner;
      KeepInv(s, q, Finished, max, owner);
    }
  }

  lemma ExchangeInv(s: State, max: nat, a: Action, owner: map<nat, Owner>)
    requires Inv(s, max, owner) && (a.Send? || a.Receive?) && Enabled(s, a)
    ensures Inv(Step(s, max, a), max, owner)
  {
    hide List, Listed, ListOk, ShardIdx;
    var p := s.queries[a.q].phase;
    assert PhaseOk(p, s.queries[a.q].server);
    var phase := if a.Send? then Sent(p.conn, a.packed, a.written) else Received(p.conn, p.reqID, a.reply);
    assert PhaseOk(phase, s.queries[a.q].server);
    assert Step(s, max, a) == To(s, a.q, phase);
    KeepInv(s, a.q, phase, max, owner);
  }

  lemma CloseInv(s: State, max: nat, q: nat, id: nat, owner: map<nat, Owner>)
    requires Inv(s, max, owner) && Holds(s, q, id)
    ensures Inv(To(s.(closed := s.closed + {id}), q, Finished), max, owner[id := Closed])
  {
    var t := s.(closed := s.closed + {id});
    hide List, Listed, ListOk, ShardIdx;
    assert owner[id] == HeldBy(q);
    assert forall x: nat :: Holds(s, q, x) ==> x == id;
    assert Lists(t, max);
    assert PooledOwned(t, owner[id := Closed]) && ClosedOwned(t, owner[id := Closed]);
    MoveInv(s, t, q, Finished, max, owner, id, Closed);
  }

  lemma PushedOk(list: seq<Conn>, c: Conn, server: Str, max: nat)
    requires ListOk(list, server, max) && |list| < max && Settled(c, server) && !Listed(list, c.id)
    ensures ListOk(list + [c], server, max) && Listed(list + [c], c.id)
    ensures forall x: nat :: x != c.id ==> (Listed(list + [c], x) <==> Listed(list, x))
  {
    ListedSnoc(list, c);
  }

  lemma ReturnInv(s: State, t: State, max: nat, q: nat, c: Conn, list: seq<Conn>, owner: map<nat, Owner>)
    requires Inv(s, max, owner) && q < |s.queries| && Holds(s, q, c.id) && Settled(c, s.queries[q].server)
    requires list == List(s.pool, s.queries[q].server) && |list| < max
    requires Relisted(s, t, s.queries[q].server, list + [c])
    ensures Inv(To(t, q, Finished), max, owner[c.id := Pooled(s.queries[q].server)])
  {
    var server := s.queries[q].server;
    assert t.queries == s.queries && t.closed == s.closed && t.dialled == s.dialled;
    InvParts(s, max, owner);
    hide *;
    HeldOnce(s, owner, q, c.id);
    PushedOk(list, c, server, max);
    RelistInv(s, t, server, list + [c], c.id, max, owner, Pooled(server));
    ClosedKept(s, t, owner, c.id, Pooled(server));
    HoldingIs(c, server);
    MoveInv(s, t, q, Finished, max, owner, c.id, Pooled(server));
  }

  lemma GiveBackInv(s: State, max: nat, q: nat, now: Time, owner: map<nat, Owner>) returns (owner': map<nat, Owner>)
    requires Inv(s, max, owner) && Enabled(s, GiveBack(q, now))
    ensures Inv(Step(s, max, GiveBack(q, now)), max, owner')
  {
    var server, p := s.queries[q].server, s.queries[q].phase;
    var c := p.conn.(lastUsed := now);
    assert PhaseOk(p, server) && Holds(s, q, c.id);
    hide Inv, List, WithList, Holds;
    if p.failed || |List(s.pool, server)| >= max {
      owner' := owner[c.id := Closed];
      CloseInv(s, max, q, c.id, owner);
    } else {
      owner' := owner[c.id := Pooled(server)];
      var list := List(s.pool, server);
      ReturnInv(s, s.(pool := WithList(s.pool, server, list + [c])), max, q, c, list, owner);
    }
  }

  /** What the reaper closes was pooled, in the reaped shard. */
  lemma GonePooled(s: State, a: Action, id: nat) returns (server: Str)
    requires a.Reap? && Enabled(s, a) && Placed(s.pool)
    requires id in StaleIds(s.pool[a.shard], a.maxIdle, a.now)
    ensures ShardIdx(server) == a.shard && Listed(List(s.pool, server), id)
            && id in StaleOf(List(s.pool, server), a.maxIdle, a.now)
  {
    var shard := s.pool[a.shard];
    server :| server in shard && id in StaleOf(shard[server], a.maxIdle, a.now);
    assert List(s.pool, server) == shard[server];
  }

  lemma GoneOwned(s: State, a: Action, owner: map<nat, Owner>)
    requires a.Reap? && Enabled(s, a) && Placed(s.pool) && PooledOwned(s, owner)
    ensures forall id: nat :: id in StaleIds(s.pool[a.shard], a.maxIdle, a.now) ==> id in owner && owner[id].Pooled?
  {
    hide List, Listed, StaleIds, StaleOf, ShardIdx;
    forall id: nat | id in StaleIds(s.pool[a.shard], a.maxIdle, a.now) ensures id in owner && owner[id].Pooled? {
      var server := GonePooled(s, a, id);
      assert owner[id] == Pooled(server);
    }
  }

  lemma ReapOne(s: State, max: nat, a: Action, owner: map<nat, Owner>, t: Str)
    requires Inv(s, max, owner) && a.Reap? && Enabled(s, a)
    ensures var s' := Step(s, max, a);
            && ListOk(List(s'.pool, t), t, max)
            && forall id: nat :: Listed(List(s'.pool, t), id)
                 <==> id in owner && owner[id] == Pooled(t) && id !in StaleIds(s.pool[a.shard], a.maxIdle, a.now)
  {
    var s', list := Step(s, max, a), List(s.pool, t);
    var gone := StaleIds(s.pool[a.shard], a.maxIdle, a.now);
    ListReaped(s.pool, a.shard, a.maxIdle, a.now, t);
    FreshOk(list, a.maxIdle, a.now, t, max);
    FreshListed(list, a.maxIdle, a.now);
    hide Reaped, Fresh;
    forall id | Listed(list, id)
      ensures id in gone <==> ShardIdx(t) == a.shard && id in StaleOf(list, a.maxIdle, a.now)
    {
      if id in gone {
        var server := GonePooled(s, a, id);
        assert owner[id] == Pooled(server) && owner[id] == Pooled(t);
      }
    }
  }

  lemma ReapInv(s: State, max: nat, a: Action, owner: map<nat, Owner>) returns (owner': map<nat, Owner>)
    requires Inv(s, max, owner) && a.Reap? && Enabled(s, a)
    ensures Inv(Step(s, max, a), max, owner')
  {
    var s' := Step(s, max, a);
    var gone := StaleIds(s.pool[a.shard], a.maxIdle, a.now);
    owner' := map id | id in owner :: if id in gone then Closed else owner[id];
    ReapPooled(s, max, a, owner, owner');
    ListReaped(s.pool, a.shard, a.maxIdle, a.now, []);
    GoneOwned(s, a, owner);
    ReapRest(s, s', gone, owner, owner');
    hide ShardIdx, List, Listed, ListOk, Reaped, StaleIds, PhaseOk, HeldOwned, ClosedOwned, PooledOwned, Dialled;
    assert Phases(s');
  }

  lemma ReapRest(s: State, s': State, gone: set<nat>, owner: map<nat, Owner>, owner': map<nat, Owner>)
    requires HeldOwned(s, owner) && ClosedOwned(s, owner) && Dialled(s, owner)
    requires s'.queries == s.queries && s'.dialled == s.dialled && s'.closed == s.closed + gone
    requires forall id: nat :: id in gone ==> id in owner && owner[id].Pooled?
    requires owner' == map id | id in owner :: if id in gone then Closed else owner[id]
    ensures HeldOwned(s', owner') && ClosedOwned(s', owner') && Dialled(s', owner')
  {
    forall q: nat, id: nat ensures Holds(s', q, id) <==> id in owner' && owner'[id] == HeldBy(q) {
      assert Holds(s, q, id) <==> Holds(s', q, id);
    }
  }

  lemma ReapPooled(s: State, max: nat, a: Action, owner: map<nat, Owner>, owner': map<nat, Owner>)
    requires Inv(s, max, owner) && a.Reap? && Enabled(s, a)
    requires var gone := StaleIds(s.pool[a.shard], a.maxIdle, a.now);
             owner' == map id | id in owner :: if id in gone then Closed else owner[id]
    ensures Lists(Step(s, max, a), max) && PooledOwned(Step(s, max, a), owner')
  {
    var s' := Step(s, max, a);
    hide Inv, Step, Enabled, List, Listed, ListOk, StaleIds, Reaped, ShardIdx;
    forall t
      ensures ListOk(List(s'.pool, t), t, max)
      ensures forall id: nat :: Listed(List(s'.pool, t), id) <==> id in owner' && owner'[id] == Pooled(t)
    {
      ReapOne(s, max, a, owner, t);
    }
  }

  lemma StartInv(servers: seq<Str>, max: nat)
    ensures Inv(Start(servers), max, map[])
  {
    hide ShardIdx;
    var s := Start(servers);
    assert forall t :: List(s.pool, t) == [];
    assert forall t, id :: !Listed(List(s.pool, t), id);
    assert forall q: nat, id: nat :: !Holds(s, q, id);
  }

  lemma {:induction false} RunInv(max: nat, servers: seq<Str>, actions: seq<Action>, states: seq<State>, n: nat)
    returns (owner: map<nat, Owner>)
    requires IsRun(max, servers, actions, states) && n <= |actions|
    ensures Inv(states[n], max, owner)
  {
    hide Inv, Enabled, Step, Start;
    if n == 0 {
      StartInv(servers, max);
      owner := map[];
    } else {
      owner := RunInv(max, servers, actions, states, n - 1);
      var s, a := states[n - 1], actions[n - 1];
      match a {
        case Borrow(q) => owner := BorrowInv(s, max, q, owner);
        case Dial(_, _, _) => owner := DialInv(s, max, a, owner);
        case Send(_, _, _) => ExchangeInv(s, max, a, owner);
        case Receive(_, _) => ExchangeInv(s, max, a, owner);
        case GiveBack(q, now) => owner := GiveBackInv(s, max, q, now, owner);
        case Reap(_, _, _) => owner := ReapInv(s, max, a, owner);
      }
    }
  }

  /* ----- What holds in every reachable state ----- */

  datatype Place = PooledAt(server: Str, index: nat) | HeldAt(q: nat) | Shut

  /** Where a connection is, read off the state itself. */
  predicate At(s: State, id: nat, p: Place) {
    match p
    case PooledAt(server, k) => k < |List(s.pool, server)| && List(s.pool, server)[k].id == id
    case HeldAt(q) => Holds(s, q, id)
    case Shut => id in s.closed
  }

  function OwnerAt(p: Place): Owner {
    match p
    case PooledAt(server, _) => Pooled(server)
    case HeldAt(q) => HeldBy(q)
    case Shut => Closed
  }

  lemma PlaceOfOwner(s: State, max: nat, owner: map<nat, Owner>, id: nat, p: Place)
    requires Inv(s, max, owner) && At(s, id, p)
    ensures id in owner && owner[id] == OwnerAt(p)
  {
    if p.PooledAt? { assert Listed(List(s.pool, p.server), id); }
  }

  /** Conservation: every connection ever dialled is in exactly one place, in one list slot, with one
      holder, or closed; a closed one is never handed out again. */
  lemma ExactlyOnePlace(max: nat, servers: seq<Str>, actions: seq<Action>, states: seq<State>, n: nat, id: nat)
    requires IsRun(max, servers, actions, states) && n <= |actions|
    ensures id < states[n].dialled <==> exists p :: At(states[n], id, p)
    ensures forall p, p' :: At(states[n], id, p) && At(states[n], id, p') ==> p == p'
  {
    var s := states[n];
    var owner := RunInv(max, servers, actions, states, n);
    hide IsRun, List, ShardIdx;
    forall p, p' | At(s, id, p) && At(s, id, p') ensures p == p' {
      PlaceOfOwner(s, max, owner, id, p);
      PlaceOfOwner(s, max, owner, id, p');
      if p.PooledAt? { assert ListOk(List(s.pool, p.server), p.server, max); }
    }
    if p :| At(s, id, p) {
      PlaceOfOwner(s, max, owner, id, p);
    }
    if id < s.dialled { PlaceExists(s, max, owner, id); }
  }

  lemma PlaceExists(s: State, max: nat, owner: map<nat, Owner>, id: nat)
    requires Inv(s, max, owner) && id in owner
    ensures exists p :: At(s, id, p)
  {
    hide List;
    match owner[id]
    case Pooled(server) =>
      assert Listed(List(s.pool, server), id);
      var k :| 0 <= k < |List(s.pool, server)| && List(s.pool, server)[k].id == id;
      assert At(s, id, PooledAt(server, k));
    case HeldBy(q) => assert At(s, id, HeldAt(q));
    case Closed => assert At(s, id, Shut);
  }

  /** What is handed over: no list exceeds the limit; a pooled connection, and one just borrowed, was
      dialled for this very server and has no request left unanswered; and while a query waits, its
      own request is the only one a response can be for. */
  lemma HandedOverClean(max: nat, servers: seq<Str>, actions: seq<Action>, states: seq<State>, n: nat)
    requires IsRun(max, servers, actions, states) && n <= |actions|
    ensures forall server :: |List(states[n].pool, server)| <= max
    ensures forall server, k :: 0 <= k < |List(states[n].pool, server)| ==>
              Settled(List(states[n].pool, server)[k], server)
    ensures forall q :: 0 <= q < |states[n].queries| ==>
              var p := states[n].queries[q].phase;
              && (p.Holding? ==> Settled(p.conn, states[n].queries[q].server))
              && (p.Waiting? ==> p.conn.unanswered == multiset{p.reqID})
  {
    var owner := RunInv(max, servers, actions, states, n);
    assert n < |states|;
    hide IsRun, List;
    forall server ensures ListOk(List(states[n].pool, server), server, max) {
    }
    forall q | 0 <= q < |states[n].queries|
      ensures PhaseOk(states[n].queries[q].phase, states[n].queries[q].server)
    {
    }
  }
}
