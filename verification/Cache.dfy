/** The Redis-fronted storage, one operation at a time: read-through on Get, write-through on Save
    and Delete, and a breaker that skips Redis for a cooldown after a failure.

    `Perform` is the meaning of an operation on the whole state, and the methods of `Cache` are
    proved against it.  Operations that overlap are the subject of module Interleaved. */
module RedisCache {
  import opened Common
  import opened Storage

  const COOLDOWN := 5_000_000_000  // nanoseconds

  /** One guarded use of Redis: the breaker is checked, the call takes effect, and if it failed the
      breaker is tripped, at these instants. */
  datatype Try = Try(check: int, call: int, mark: int, outcome: Outcome)

  /** An operation with everything its environment decides. */
  datatype Op =
    | Save(url: string, alias: string, fault: bool, set_: Try)
    | Get(alias: string, read: Try, fault: bool, set_: Try)
    | Delete(alias: string, fault: bool, del: Try)

  datatype World = World(rows: Rows, entries: Entries, downUntil: int)

  predicate Available(w: World, now: int) {
    now >= w.downUntil
  }

  /** The breaker after a call that was let through. */
  function Tripped(w: World, t: Try): int {
    if t.outcome.Answered? then w.downUntil else t.mark + COOLDOWN
  }

  function SetEntry(ttl: int, w: World, alias: string, url: string, t: Try): World {
    if !Available(w, t.check) then w
    else World(w.rows, AfterSet(w.entries, alias, Entry(url, t.call + ttl), t.outcome), Tripped(w, t))
  }

  function DelEntry(w: World, alias: string, t: Try): World {
    if !Available(w, t.check) then w
    else World(w.rows, AfterDel(w.entries, alias, t.outcome), Tripped(w, t))
  }

  /** What Get gets from Redis, and the breaker after it. */
  function ReadEntry(w: World, alias: string, t: Try): (World, Option<string>) {
    if !Available(w, t.check) then (w, None)
    else (w.(downUntil := Tripped(w, t)),
          if t.outcome.Answered? && Live(w.entries, alias, t.call) then Some(w.entries[alias].url) else None)
  }

  function Perform(ttl: int, w: World, op: Op): (World, Response) {
    match op
    case Save(url, alias, fault, t) =>
      var (rows, r) := Insert(w.rows, url, alias, fault);
      if r.Failed? then (w, r) else (SetEntry(ttl, w.(rows := rows), alias, url, t), Stored)
    case Get(alias, read, fault, t) =>
      var (w', hit) := ReadEntry(w, alias, read);
      if hit.Some? then (w', Found(hit.value))
      else
        var r := Select(w'.rows, alias, fault);
        if r.Failed? then (w', r) else (SetEntry(ttl, w', alias, r.url, t), r)
    case Delete(alias, fault, t) =>
      var (rows, r) := Remove(w.rows, alias, fault);
      if r.Failed? then (w, r) else (DelEntry(w.(rows := rows), alias, t), Removed)
  }

  class Cache {
    const next: PostgresRepo
    const rdb: Redis
    const ttl: int
    var downUntil: int  // zero: never tripped

    ghost function State(): World
      reads this, next, rdb
    {
      World(next.rows, rdb.entries, downUntil)
    }

    constructor (next: PostgresRepo, rdb: Redis, ttl: int)
      ensures this.next == next && this.rdb == rdb && this.ttl == ttl && downUntil == 0
    {
      this.next, this.rdb, this.ttl, downUntil := next, rdb, ttl, 0;
    }

    method RedisAvailable(now: int) returns (ok: bool)
      ensures ok == Available(State(), now)
    {
      return now >= downUntil;
    }

    method MarkRedisDown(now: int)
      modifies this
      ensures downUntil == now + COOLDOWN
    {
      downUntil := now + COOLDOWN;
    }

    method Save(url: string, alias: string, fault: bool, t: Try) returns (r: Response)
      modifies this, next, rdb
      ensures (State(), r) == Perform(ttl, old(State()), Op.Save(url, alias, fault, t))
    {
      r := next.Save(url, alias, fault);
      if r.Failed? {
        return;
      }
      var up := RedisAvailable(t.check);
      if !up {
        return;
      }
      var ok := rdb.Set(alias, url, t.call, ttl, t.outcome);
      if !ok {
        MarkRedisDown(t.mark);
      }
    }

    /** Alone, a Get always leads its own flight. */
    method Get(alias: string, read: Try, fault: bool, t: Try) returns (r: Response)
      modifies this, rdb
      ensures (State(), r) == Perform(ttl, old(State()), Op.Get(alias, read, fault, t))
    {
      var up := RedisAvailable(read.check);
      if up {
        var value, ok := rdb.Get(alias, read.call, read.outcome);
        if ok && value.Some? {
          return Found(value.value);
        }
        if !ok {
          MarkRedisDown(read.mark);
        }
      }
      r := next.Get(alias, fault);
      if r.Failed? {
        return;
      }
      up := RedisAvailable(t.check);
      if up {
        var ok := rdb.Set(alias, r.url, t.call, ttl, t.outcome);
        if !ok {
          MarkRedisDown(t.mark);
        }
      }
    }

    method Delete(alias: string, fault: bool, t: Try) returns (r: Response)
      modifies this, next, rdb
      ensures (State(), r) == Perform(ttl, old(State()), Op.Delete(alias, fault, t))
    {
      r := next.Delete(alias, fault);
      if r.Failed? {
        return;
      }
      var up := RedisAvailable(t.check);
      if !up {
        return;
      }
      var ok := rdb.Del(alias, t.outcome);
      if !ok {
        MarkRedisDown(t.mark);
      }
    }
  }
}
