/** The pool of upstream connections: the pool's own operations, and every interleaving of the
    queries that borrow from it with the reaper. */
module ConnPool {
  import opened Wrappers
  import opened Text
  import opened Hash
  import opened Message

  type Time = int

  const NUM_SHARDS: nat := 16

  /** A connection keeps the next query ID to use on it. `unanswered` records, for the proof of what
      the pool hands out, the IDs of requests written without a response of the same ID. */
  datatype Conn = Conn(id: nat, server: Str, nextID: u16, lastUsed: Time, unanswered: multiset<u16>)

  type Shard = map<Str, seq<Conn>>

  function ShardIdx(server: Str): (i: nat)
    ensures i < NUM_SHARDS
  {
    (Fnv(server, OFFSET_BASIS) as int) % NUM_SHARDS
  }

  type Pool = p: seq<Shard> | |p| == NUM_SHARDS witness seq(NUM_SHARDS, _ => map[])

  function List(p: Pool, server: Str): seq<Conn> {
    var s := p[ShardIdx(server)];
    if server in s then s[server] else []
  }

  function WithList(p: Pool, server: Str, list: seq<Conn>): Pool {
    var i := ShardIdx(server);
    p[i := p[i][server := list]]
  }

  predicate Stale(c: Conn, maxIdle: Time, now: Time) {
    now - c.lastUsed >= maxIdle
  }

  /** The connections of a list used recently enough, in their order. */
  function Fresh(list: seq<Conn>, maxIdle: Time, now: Time): seq<Conn> {
    if list == [] then []
    else
      var last := list[|list| - 1];
      Fresh(list[..|list| - 1], maxIdle, now) + if Stale(last, maxIdle, now) then [] else [last]
  }

  /** A shard after reaping: recent connections only, and no empty lists. */
  function Reaped(s: Shard, maxIdle: Time, now: Time): Shard {
    map server | server in s && Fresh(s[server], maxIdle, now) != [] :: Fresh(s[server], maxIdle, now)
  }

  function StaleOf(list: seq<Conn>, maxIdle: Time, now: Time): set<nat> {
    set k | 0 <= k < |list| && Stale(list[k], maxIdle, now) :: list[k].id
  }

  function StaleIds(s: Shard, maxIdle: Time, now: Time): set<nat> {
    set server, id | server in s && id in StaleOf(s[server], maxIdle, now) :: id
  }

  /* ----- The pool itself ----- */

  /** The in-place compaction of one list: writes go to the prefix that was already read. */
  method Compact(list: array<Conn>, maxIdle: Time, now: Time) returns (kept: nat, closed: set<nat>)
    modifies list
    ensures kept <= list.Length && list[..kept] == Fresh(old(list[..]), maxIdle, now)
    ensures closed == StaleOf(old(list[..]), maxIdle, now)
  {
    ghost var was := list[..];
    kept, closed := 0, {};
    for i := 0 to list.Length
      invariant kept <= i && list[..kept] == Fresh(was[..i], maxIdle, now) && list[i..] == was[i..]
      invariant closed == StaleOf(was[..i], maxIdle, now)
    {
      assert list[i] == list[i..][0] == was[i];
      OneMore(was, i, maxIdle, now);
      var c := list[i];
      if now - c.lastUsed >= maxIdle {
        closed := closed + {c.id};
      } else {
        list[kept] := c;
        kept := kept + 1;
      }
    }
    assert was[..list.Length] == was;
  }

  lemma OneMore(list: seq<Conn>, i: nat, maxIdle: Time, now: Time)
    requires i < |list|
    ensures Fresh(list[..i + 1], maxIdle, now)
            == Fresh(list[..i], maxIdle, now) + if Stale(list[i], maxIdle, now) then [] else [list[i]]
    ensures StaleOf(list[..i + 1], maxIdle, now)
            == StaleOf(list[..i], maxIdle, now) + if Stale(list[i], maxIdle, now) then {list[i].id} else {}
  {
    var more := list[..i + 1];
    assert more[..i] == list[..i];
    forall id
      ensures id in StaleOf(more, maxIdle, now)
              <==> id in StaleOf(list[..i], maxIdle, now) || (Stale(list[i], maxIdle, now) && id == list[i].id)
    {
      if Stale(list[i], maxIdle, now) && id == list[i].id { assert more[i].id == id; }
      if id in StaleOf(list[..i], maxIdle, now) {
        var k :| 0 <= k < i && Stale(list[..i][k], maxIdle, now) && list[..i][k].id == id;
        assert more[k].id == id;
      }
    }
  }

  /** Midway through the lists of a shard: those of `todo` are still as they were. */
  ghost predicate Midway(s: Shard, todo: set<Str>, out: Shard, closed: set<nat>, maxIdle: Time, now: Time) {
    && todo <= s.Keys
    && (forall server :: server in todo ==> server in out && out[server] == s[server])
    && (forall server :: server in s && server !in todo ==>
          if Fresh(s[server], maxIdle, now) == [] then server !in out
          else server in out && out[server] == Fresh(s[server], maxIdle, now))
    && (forall server :: server in out ==> server in s)
    && (forall id: nat :: id in closed <==>
          exists server :: server in s && server !in todo && id in StaleOf(s[server], maxIdle, now))
  }

  lemma MidwayNext(s: Shard, todo: set<Str>, out: Shard, closed: set<nat>, maxIdle: Time, now: Time, server: Str)
    requires server in todo && Midway(s, todo, out, closed, maxIdle, now)
    ensures var recent := Fresh(s[server], maxIdle, now);
            Midway(s, todo - {server}, if recent == [] then out - {server} else out[server := recent],
                   closed + StaleOf(s[server], maxIdle, now), maxIdle, now)
  {
    hide Fresh, StaleOf;
  }

  lemma MidwayEnd(s: Shard, out: Shard, closed: set<nat>, maxIdle: Time, now: Time)
    requires Midway(s, {}, out, closed, maxIdle, now)
    ensures out == Reaped(s, maxIdle, now) && closed == StaleIds(s, maxIdle, now)
  {
    hide Fresh, StaleOf;
  }

  /** The lists of one shard, in any order. */
  method ReapLists(s: Shard, maxIdle: Time, now: Time) returns (out: Shard, closed: set<nat>)
    ensures out == Reaped(s, maxIdle, now) && closed == StaleIds(s, maxIdle, now)
  {
    hide Fresh, StaleOf, Reaped, StaleIds;
    out, closed := s, {};
    var todo := s.Keys;
    while todo != {}
      invariant Midway(s, todo, out, closed, maxIdle, now)
      decreases todo
    {
      var server :| server in todo;
      MidwayNext(s, todo, out, closed, maxIdle, now, server);
      assert server in out && out[server] == s[server];
      hide Midway;
      var list := new Conn[|out[server]|](k requires 0 <= k < |out[server]| => out[server][k]);
      assert list[..] == s[server];
      var kept, gone := Compact(list, maxIdle, now);
      closed := closed + gone;
      if kept == 0 {
        out := out - {server};
      } else {
        out := out[server := list[..kept]];
      }
      todo := todo - {server};
    }
    MidwayEnd(s, out, closed, maxIdle, now);
  }

  class ConnPool {
    const shards: array<Shard>
    const maxPerServer: nat

    ghost predicate Valid()
      reads this
    {
      shards.Length == NUM_SHARDS
    }

    constructor (maxPerServer: nat)
      ensures Valid() && fresh(shards) && this.maxPerServer == maxPerServer
      ensures forall server :: List(shards[..], server) == []
    {
      shards := new Shard[NUM_SHARDS](_ => map[]);
      this.maxPerServer := maxPerServer;
    }

    /** Hands out the connection put back last; None tells the caller to dial. */
    method Get(server: Str) returns (r: Option<Conn>)
      requires Valid()
      modifies shards
      ensures shards[..] == GetList(old(shards[..]), server).0 && r == GetList(old(shards[..]), server).1
    {
      var i := ShardIdx(server);
      var list := if server in shards[i] then shards[i][server] else [];
      if |list| > 0 {
        r := Some(list[|list| - 1]);
        shards[i] := shards[i][server := list[..|list| - 1]];
      } else {
        r := None;
      }
    }

    method Put(server: Str, c: Conn, failed: bool, now: Time) returns (closed: bool)
      requires Valid()
      modifies shards
      ensures shards[..] == PutList(old(shards[..]), maxPerServer, server, c, failed, now).0
      ensures closed == PutList(old(shards[..]), maxPerServer, server, c, failed, now).1
    {
      if failed {
        return true;
      }
      var c := c.(lastUsed := now);
      var i := ShardIdx(server);
      var list := if server in shards[i] then shards[i][server] else [];
      if |list| < maxPerServer {
        shards[i] := shards[i][server := list + [c]];
        return false;
      }
      return true;
    }

    /** One shard under its lock. */
    method ReapShard(i: nat, maxIdle: Time, now: Time) returns (closed: set<nat>)
      requires Valid() && i < NUM_SHARDS
      modifies shards
      ensures shards[..] == old(shards[..])[i := Reaped(old(shards[i]), maxIdle, now)]
      ensures closed == StaleIds(old(shards[i]), maxIdle, now)
    {
      var out, gone := ReapLists(shards[i], maxIdle, now);
      shards[i] := out;
      return gone;
    }

    method ReapIdle(maxIdle: Time, now: Time) returns (closed: set<nat>)
      requires Valid()
      modifies shards
      ensures forall i :: 0 <= i < NUM_SHARDS ==> shards[i] == Reaped(old(shards[i]), maxIdle, now)
      ensures closed == set i, id | 0 <= i < NUM_SHARDS && id in StaleIds(old(shards[i]), maxIdle, now) :: id
    {
      ghost var before := shards[..];
      closed := {};
      for i := 0 to NUM_SHARDS
        invariant forall j :: 0 <= j < i ==> shards[j] == Reaped(before[j], maxIdle, now)
        invariant forall j :: i <= j < NUM_SHARDS ==> shards[j] == before[j]
        invariant closed == set j, id | 0 <= j < i && id in StaleIds(before[j], maxIdle, now) :: id
      {
        ghost var sofar := shards[..];
        var gone := ReapShard(i, maxIdle, now);
        assert forall j :: 0 <= j < NUM_SHARDS ==> shards[j] == shards[..][j];
        closed := closed + gone;
      }
    }
  }

  function GetList(p: Pool, server: Str): (Pool, Option<Conn>) {
    var list := List(p, server);
    if |list| > 0 then (WithList(p, server, list[..|list| - 1]), Some(list[|list| - 1])) else (p, None)
  }

  /** The pool, and whether the connection was closed instead of kept. */
  function PutList(p: Pool, max: nat, server: Str, c: Conn, failed: bool, now: Time): (Pool, bool) {
    var list := List(p, server);
    if failed || |list| >= max then (p, true) else (WithList(p, server, list + [c.(lastUsed := now)]), false)
  }
}
