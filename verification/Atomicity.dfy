/** The two models of the cache agree: an operation that runs alone in the concurrent system answers
    and leaves behind what `Perform` says. */
module Atomicity {
  import opened Common
  import opened Storage
  import opened Interleaved
  import opened InterleavedTheorems
  import C = RedisCache
  import T = CacheTheorems

  function Entries(redis: map<string, Item>): Storage.Entries {
    map alias | alias in redis :: Entry(redis[alias].url, redis[alias].deadline)
  }

  /** The state without its history. */
  function World(s: State): C.World
    requires s.hist != []
  {
    C.World(Last(s).rows, Entries(s.redis), s.downUntil)
  }

  /** s is reached from s0 by a run in which only client c has moved, and it can read the clock if busy. */
  predicate From(ttl: int, s0: State, ls: seq<Label>, s: State, c: nat) {
    s0.hist != [] && Runs(ttl, s0, ls) && After(ttl, s0, ls) == s && s.hist != [] &&
    s.clients - {c} == s0.clients - {c} && (c in s.clients ==> Readable(s, c, Last(s).now))
  }

  /** Client c is at this point, and nobody is in a flight of its alias.  Other clients may be anywhere. */
  predicate Alone(s: State, c: nat, call: Call, point: Point) {
    call.alias !in s.group && c in s.clients && s.clients[c].Busy? && s.clients[c].call == call &&
    s.clients[c].point == point
  }

  /** Client c takes one more step, or time passes. */
  lemma Act(ttl: int, s0: State, ls: seq<Label>, s: State, c: nat, l: Label) returns (ls': seq<Label>, s': State)
    requires From(ttl, s0, ls, s, c) && Enabled(s, l) && (l.Tick? || l.c == c)
    ensures s0.hist != [] && Runs(ttl, s0, ls') && After(ttl, s0, ls') == s' == Step(ttl, s, l)
    ensures s'.hist != [] && s'.clients - {c} == s0.clients - {c}
  {
    if !l.Tick? {
      OnlyOneMoves(ttl, s, l);
    }
    ls', s' := Go(ttl, s0, ls, s, l);
  }

  /** Time passes until t. */
  lemma Pass(ttl: int, s0: State, ls: seq<Label>, s: State, c: nat, t: int) returns (ls': seq<Label>, s': State)
    requires From(ttl, s0, ls, s, c) && Last(s).now <= t
    ensures From(ttl, s0, ls', s', c) && Last(s').now == t && World(s') == World(s)
    ensures s'.redis == s.redis && s'.downUntil == s.downUntil && s'.group == s.group
    ensures s'.flights == s.flights && s'.clients == s.clients && |s'.hist| == |s.hist| + 1
  {
    ls', s' := Act(ttl, s0, ls, s, c, Tick(t - Last(s).now));
  }

  lemma EntriesAfterSet(redis: map<string, Item>, alias: string, item: Item, outcome: Outcome)
    ensures Entries(SetItem(redis, alias, item, outcome)) ==
            AfterSet(Entries(redis), alias, Entry(item.url, item.deadline), outcome)
  {
  }

  lemma EntriesAfterDel(redis: map<string, Item>, alias: string)
    ensures Entries(redis - {alias}) == Entries(redis) - {alias}
  {
  }

  /** A failed call trips the breaker at the instant of the mark. */
  lemma Trip(ttl: int, s0: State, ls: seq<Label>, s: State, c: nat, mark: int) returns (ls': seq<Label>, s': State)
    requires From(ttl, s0, ls, s, c) && c in s.clients && Enabled(s, Mark(c, Last(s).now)) && Last(s).now <= mark
    ensures From(ttl, s0, ls', s', c) && Last(s').now == mark
    ensures World(s') == World(s).(downUntil := mark + C.COOLDOWN)
    ensures s'.group == s.group && s'.flights == s.flights && c in s'.clients
    ensures s'.clients[c] == s.clients[c].(point := match s.clients[c].point
              case WriteMark(at) => Return(Seen(Success(s.clients[c].call), at), Own)
              case FlightMark(f, seen) => FlightDone(f, seen)
              case _ => Join)
  {
    ls', s' := Pass(ttl, s0, ls, s, c, mark);
    ls', s' := Act(ttl, s0, ls', s', c, Mark(c, mark));
  }

  /** The breaker check of a write or of a flight. */
  lemma Gate(ttl: int, s0: State, ls: seq<Label>, s: State, c: nat, check: int) returns (ls': seq<Label>, s': State)
    requires From(ttl, s0, ls, s, c) && c in s.clients && Enabled(s, Check(c, Last(s).now)) && Last(s).now <= check
    ensures From(ttl, s0, ls', s', c) && Last(s').now == check && World(s') == World(s)
    ensures s'.redis == s.redis && s'.group == s.group && s'.flights == s.flights && c in s'.clients
    ensures var b, up := s.clients[c], C.Available(World(s), check);
            s'.clients[c] == b.(point := match b.point
              case WriteCheck(at) => if up then WriteRedis(at) else Return(Seen(Success(b.call), at), Own)
              case FlightCheck(f, seen) => if up then FlightSet(f, seen) else FlightDone(f, seen)
              case _ => if up then ReadRedis else Join)
  {
    ls', s' := Pass(ttl, s0, ls, s, c, check);
    ls', s' := Act(ttl, s0, ls', s', c, Check(c, check));
  }

  /** A Redis call of client c left it at this point, and Redis with these entries. */
  predicate Put(s: State, c: nat, s': State, entries: Storage.Entries, point: Point)
    requires s.hist != [] && c in s.clients && s.clients[c].Busy?
  {
    s'.hist != [] && Last(s').rows == Last(s).rows && Last(s').now == Last(s).now && Entries(s'.redis) == entries &&
    s'.downUntil == s.downUntil && s'.group == s.group && s'.flights == s.flights &&
    Readable(s', c, Last(s').now) && c in s'.clients && s'.clients[c] == s.clients[c].(point := point)
  }

  lemma WritePuts(ttl: int, s: State, c: nat, at: nat, outcome: Outcome)
    requires s.hist != [] && c in s.clients && s.clients[c].Busy? && s.clients[c].point == WriteRedis(at)
    requires !s.clients[c].call.GetCall?
    ensures var b, entries := s.clients[c], Entries(s.redis);
            Put(s, c, StepRedis(ttl, s, c, outcome),
                if b.call.SaveCall? then
                  AfterSet(entries, b.call.alias, Entry(b.call.url, Last(s).now + ttl), outcome)
                else AfterDel(entries, b.call.alias, outcome),
                if outcome.Answered? then Return(Seen(Success(b.call), at), Own) else WriteMark(at))
  {
    var b := s.clients[c];
    if b.call.SaveCall? {
      EntriesAfterSet(s.redis, b.call.alias, Item(b.call.url, Last(s).now + ttl, b.start, at, |s.hist|), outcome);
    } else {
      EntriesAfterDel(s.redis, b.call.alias);
    }
  }

  lemma FlightPuts(ttl: int, s: State, c: nat, f: nat, seen: Seen, outcome: Outcome)
    requires s.hist != [] && c in s.clients && s.clients[c].Busy? && s.clients[c].point == FlightSet(f, seen)
    requires seen.response.Found?
    ensures Put(s, c, StepRedis(ttl, s, c, outcome),
                AfterSet(Entries(s.redis), s.clients[c].call.alias, Entry(seen.response.url, Last(s).now + ttl),
                         outcome),
                if outcome.Answered? then FlightDone(f, seen) else FlightMark(f, seen))
  {
    var b := s.clients[c];
    EntriesAfterSet(s.redis, b.call.alias, Item(seen.response.url, Last(s).now + ttl, b.start, seen.at, |s.hist|),
                    outcome);
  }

  /** The Redis call of a write. */
  lemma PutWrite(ttl: int, s0: State, ls: seq<Label>, s: State, c: nat, at: nat, call: int, outcome: Outcome)
    returns (ls': seq<Label>, s': State)
    requires From(ttl, s0, ls, s, c) && c in s.clients && s.clients[c].Busy? && s.clients[c].point == WriteRedis(at)
    requires !s.clients[c].call.GetCall? && Last(s).now <= call
    ensures From(ttl, s0, ls', s', c) && Last(s').now == call && Last(s').rows == Last(s).rows
    ensures s'.downUntil == s.downUntil && s'.group == s.group && c in s'.clients
    ensures var b := s.clients[c];
            s'.clients[c] == b.(point :=
                  if outcome.Answered? then Return(Seen(Success(b.call), at), Own) else WriteMark(at)) &&
            Entries(s'.redis) ==
              if b.call.SaveCall? then AfterSet(Entries(s.redis), b.call.alias, Entry(b.call.url, call + ttl), outcome)
              else AfterDel(Entries(s.redis), b.call.alias, outcome)
  {
    ls', s' := Pass(ttl, s0, ls, s, c, call);
    WritePuts(ttl, s', c, at, outcome);
    ls', s' := Act(ttl, s0, ls', s', c, CallRedis(c, outcome));
  }

  /** The Redis call of a flight. */
  lemma PutFlight(ttl: int, s0: State, ls: seq<Label>, s: State, c: nat, f: nat, seen: Seen,
                  call: int, outcome: Outcome)
    returns (ls': seq<Label>, s': State)
    requires From(ttl, s0, ls, s, c) && c in s.clients && s.clients[c].Busy? && s.clients[c].point == FlightSet(f, seen)
    requires seen.response.Found? && Last(s).now <= call
    ensures From(ttl, s0, ls', s', c) && Last(s').now == call && Last(s').rows == Last(s).rows
    ensures s'.downUntil == s.downUntil && s'.group == s.group && s'.flights == s.flights && c in s'.clients
    ensures s'.clients[c] ==
              s.clients[c].(point := if outcome.Answered? then FlightDone(f, seen) else FlightMark(f, seen))
    ensures Entries(s'.redis) ==
            AfterSet(Entries(s.redis), s.clients[c].call.alias, Entry(seen.response.url, call + ttl), outcome)
  {
    ls', s' := Pass(ttl, s0, ls, s, c, call);
    FlightPuts(ttl, s', c, f, seen, outcome);
    ls', s' := Act(ttl, s0, ls', s', c, CallRedis(c, outcome));
  }

  /** The call and, if it fails, the mark. */
  lemma CallInWrite(ttl: int, s0: State, ls: seq<Label>, s: State, c: nat, at: nat, t: C.Try)
    returns (ls': seq<Label>, s': State)
    requires From(ttl, s0, ls, s, c) && c in s.clients && s.clients[c].Busy? && s.clients[c].point == WriteRedis(at)
    requires !s.clients[c].call.GetCall? && T.InOrder(t) && Last(s).now <= t.call
    ensures From(ttl, s0, ls', s', c) && s'.group == s.group && Last(s').now <= t.mark
    ensures c in s'.clients && s'.clients[c] ==
            s.clients[c].(point := Return(Seen(Success(s.clients[c].call), at), Own))
    ensures var call, w := s.clients[c].call, World(s);
            World(s') == C.World(w.rows,
              if call.SaveCall? then AfterSet(w.entries, call.alias, Entry(call.url, t.call + ttl), t.outcome)
              else AfterDel(w.entries, call.alias, t.outcome), C.Tripped(w, t))
  {
    ls', s' := PutWrite(ttl, s0, ls, s, c, at, t.call, t.outcome);
    if !t.outcome.Answered? {
      ls', s' := Trip(ttl, s0, ls', s', c, t.mark);
    }
  }

  lemma CallInFlight(ttl: int, s0: State, ls: seq<Label>, s: State, c: nat, f: nat, seen: Seen, t: C.Try)
    returns (ls': seq<Label>, s': State)
    requires From(ttl, s0, ls, s, c) && c in s.clients && s.clients[c].Busy? && s.clients[c].point == FlightSet(f, seen)
    requires seen.response.Found? && T.InOrder(t) && Last(s).now <= t.call
    ensures From(ttl, s0, ls', s', c) && s'.group == s.group && s'.flights == s.flights && Last(s').now <= t.mark
    ensures c in s'.clients && s'.clients[c] == s.clients[c].(point := FlightDone(f, seen))
    ensures var alias, w := s.clients[c].call.alias, World(s);
            World(s') == C.World(w.rows,
              AfterSet(w.entries, alias, Entry(seen.response.url, t.call + ttl), t.outcome), C.Tripped(w, t))
  {
    ls', s' := PutFlight(ttl, s0, ls, s, c, f, seen, t.call, t.outcome);
    if !t.outcome.Answered? {
      ls', s' := Trip(ttl, s0, ls', s', c, t.mark);
    }
  }

  /** After its statement, a write finishes as SetEntry or DelEntry says. */
  lemma WriteFinishes(ttl: int, s0: State, ls: seq<Label>, s: State, c: nat, call: Call, at: nat, t: C.Try)
    returns (ls': seq<Label>, s': State)
    requires From(ttl, s0, ls, s, c) && Alone(s, c, call, WriteCheck(at)) && !call.GetCall?
    requires T.InOrder(t) && Last(s).now <= t.check
    ensures From(ttl, s0, ls', s', c) && Alone(s', c, call, Return(Seen(Success(call), at), Own))
    ensures s'.group == s.group && Last(s').now <= t.mark
    ensures World(s') ==
              if call.SaveCall? then C.SetEntry(ttl, World(s), call.alias, call.url, t)
              else C.DelEntry(World(s), call.alias, t)
  {
    ls', s' := Gate(ttl, s0, ls, s, c, t.check);
    if C.Available(World(s), t.check) {
      ls', s' := CallInWrite(ttl, s0, ls', s', c, at, t);
    }
  }

  /** After its statement, a flight lands as SetEntry says. */
  lemma FlightFinishes(ttl: int, s0: State, ls: seq<Label>, s: State, c: nat, alias: string, f: nat, seen: Seen,
                       t: C.Try)
    returns (ls': seq<Label>, s': State)
    requires From(ttl, s0, ls, s, c) && c in s.clients && s.clients[c].Busy? && s.clients[c].call == GetCall(alias)
    requires s.clients[c].point == FlightCheck(f, seen) && seen.response.Found?
    requires T.InOrder(t) && Last(s).now <= t.check
    ensures From(ttl, s0, ls', s', c) && s'.group == s.group && s'.flights == s.flights && Last(s').now <= t.mark
    ensures c in s'.clients && s'.clients[c] == s.clients[c].(point := FlightDone(f, seen))
    ensures World(s') == C.SetEntry(ttl, World(s), alias, seen.response.url, t)
  {
    ls', s' := Gate(ttl, s0, ls, s, c, t.check);
    if C.Available(World(s), t.check) {
      ls', s' := CallInFlight(ttl, s0, ls', s', c, f, seen, t);
    }
  }

  /** The first look at Redis ends as ReadEntry says: with an answer, or on the way to a flight. */
  lemma ReadFinishes(ttl: int, s0: State, ls: seq<Label>, s: State, c: nat, alias: string, t: C.Try)
    returns (ls': seq<Label>, s': State)
    requires From(ttl, s0, ls, s, c) && Alone(s, c, GetCall(alias), ReadCheck) && T.InOrder(t) && Last(s).now <= t.check
    ensures From(ttl, s0, ls', s', c) && s'.group == s.group && c in s'.clients && Last(s').now <= t.mark
    ensures var (w, hit) := C.ReadEntry(World(s), alias, t);
            World(s') == w && s'.clients[c].Busy? && s'.clients[c].call == GetCall(alias) &&
            if hit.Some? then s'.clients[c].point.Return? && s'.clients[c].point.seen.response == Found(hit.value)
            else s'.clients[c].point == Join
  {
    ls', s' := Gate(ttl, s0, ls, s, c, t.check);
    if C.Available(World(s), t.check) {
      ls', s' := Look(ttl, s0, ls', s', c, t.call, t.outcome);
      if !t.outcome.Answered? {
        ls', s' := Trip(ttl, s0, ls', s', c, t.mark);
      }
    }
  }

  lemma Look(ttl: int, s0: State, ls: seq<Label>, s: State, c: nat, call: int, outcome: Outcome)
    returns (ls': seq<Label>, s': State)
    requires From(ttl, s0, ls, s, c) && c in s.clients && s.clients[c].Busy?
    requires s.clients[c].point == ReadRedis && Last(s).now <= call
    ensures From(ttl, s0, ls', s', c) && Last(s').now == call
    ensures World(s') == World(s) && s'.group == s.group && c in s'.clients
    ensures s'.clients[c].Busy?
    ensures var alias, point := s.clients[c].call.alias, s'.clients[c].point;
            s'.clients[c] == s.clients[c].(point := point) &&
            if !outcome.Answered? then point == ReadMark
            else if Live(Entries(s.redis), alias, call) then
              point.Return? && point.seen.response == Found(Entries(s.redis)[alias].url)
            else point == Join
  {
    ls', s' := Pass(ttl, s0, ls, s, c, call);
    ls', s' := Act(ttl, s0, ls', s', c, CallRedis(c, outcome));
  }

  /** A flight of one: the table's answer, and what SetEntry leaves when there is one. */
  lemma FlightFlies(ttl: int, s0: State, ls: seq<Label>, s: State, c: nat, alias: string, fault: bool, t: C.Try)
    returns (ls': seq<Label>, s': State)
    requires From(ttl, s0, ls, s, c) && Alone(s, c, GetCall(alias), Join) && T.InOrder(t) && Last(s).now <= t.check
    ensures From(ttl, s0, ls', s', c) && s'.group == s.group && Returning(s', c) && At(s', c).call == GetCall(alias)
    ensures Last(s').now <= t.mark
    ensures var r := Select(Last(s).rows, alias, fault);
            At(s', c).point.seen.response == r &&
            World(s') == if r.Found? then C.SetEntry(ttl, World(s), alias, r.url, t) else World(s)
  {
    ls', s' := Takeoff(ttl, s0, ls, s, c, alias);
    ls', s' := Ask(ttl, s0, ls', s', c, |s.flights|, fault);
    if Select(Last(s).rows, alias, fault).Found? {
      ls', s' := FlightFinishes(ttl, s0, ls', s', c, alias, |s.flights|, s'.clients[c].point.seen, t);
    }
    ls', s' := Touchdown(ttl, s0, ls', s', c, alias);
  }

  lemma Takeoff(ttl: int, s0: State, ls: seq<Label>, s: State, c: nat, alias: string)
    returns (ls': seq<Label>, s': State)
    requires From(ttl, s0, ls, s, c) && Alone(s, c, GetCall(alias), Join)
    ensures From(ttl, s0, ls', s', c) && World(s') == World(s) && Last(s').now == Last(s).now
    ensures s'.group == s.group[alias := |s.flights|] && |s'.flights| == |s.flights| + 1
    ensures c in s'.clients && s'.clients[c] == s.clients[c].(point := FlightRead(|s.flights|))
  {
    ls', s' := Act(ttl, s0, ls, s, c, Enter(c));
  }

  lemma Ask(ttl: int, s0: State, ls: seq<Label>, s: State, c: nat, f: nat, fault: bool)
    returns (ls': seq<Label>, s': State)
    requires From(ttl, s0, ls, s, c) && c in s.clients && s.clients[c].Busy? && s.clients[c].call.GetCall?
    requires s.clients[c].point == FlightRead(f)
    ensures From(ttl, s0, ls', s', c) && Last(s').now == Last(s).now && World(s') == World(s) && s'.group == s.group
    ensures s'.flights == s.flights && c in s'.clients
    ensures var seen := Seen(Select(Last(s).rows, s.clients[c].call.alias, fault), |s.hist|);
            s'.clients[c] == s.clients[c].(point :=
                  if seen.response.Found? then FlightCheck(f, seen) else FlightDone(f, seen))
  {
    ls', s' := Act(ttl, s0, ls, s, c, Query(c, fault));
  }

  lemma Touchdown(ttl: int, s0: State, ls: seq<Label>, s: State, c: nat, alias: string)
    returns (ls': seq<Label>, s': State)
    requires From(ttl, s0, ls, s, c) && c in s.clients && Enabled(s, Land(c)) && s.clients[c].call == GetCall(alias)
    requires alias in s.group
    ensures From(ttl, s0, ls', s', c) && World(s') == World(s)
    ensures s'.group == s.group - {alias} && Last(s').now == Last(s).now
    ensures Returning(s', c) && At(s', c).call == GetCall(alias) && At(s', c).point.seen == s.clients[c].point.seen
  {
    ls', s' := Act(ttl, s0, ls, s, c, Land(c));
  }

  /** The statement of a write. */
  lemma Write(ttl: int, s0: State, ls: seq<Label>, s: State, c: nat, call: Call, fault: bool)
    returns (ls': seq<Label>, s': State)
    requires From(ttl, s0, ls, s, c) && Alone(s, c, call, Point.Write) && !call.GetCall?
    ensures From(ttl, s0, ls', s', c) && s'.group == s.group && c in s'.clients && Last(s').now == Last(s).now
    ensures var (rows, r) := Statement(Last(s).rows, call, fault);
            World(s') == World(s).(rows := rows) &&
            s'.clients[c] == s.clients[c].(point :=
                  if r.Failed? then Return(Seen(r, |s.hist|), Own) else WriteCheck(|s.hist|))
  {
    ls', s' := Act(ttl, s0, ls, s, c, Query(c, fault));
  }

  function CallOf(op: C.Op): Call {
    match op
    case Save(url, alias, _, _) => SaveCall(url, alias)
    case Get(alias, _, _, _) => GetCall(alias)
    case Delete(alias, _, _) => DeleteCall(alias)
  }

  /** Every sequential operation is a run of the concurrent system by any client that moves alone, with the
      same answer and the same effect on the table, on Redis and on the breaker.  Other clients may be
      anywhere, and in flights of other aliases: they do not matter, and keep their places. */
  lemma OperationsAreRuns(ttl: int, s: State, c: nat, op: C.Op) returns (ls: seq<Label>, s': State)
    requires s.hist != [] && c !in s.clients && CallOf(op).alias !in s.group
    requires T.WellTimed(op) && Last(s).now <= T.Begin(op)
    ensures From(ttl, s, ls, s', c) && s'.group == s.group && Last(s').now <= T.End(op)
    ensures Returning(s', c) && At(s', c).call == CallOf(op)
    ensures (World(s'), At(s', c).point.seen.response) == C.Perform(ttl, World(s), op)
  {
    ls, s' := Act(ttl, s, [], s, c, Begin(c, CallOf(op)));
    assert World(s') == World(s) && Last(s').now == Last(s).now;
    match op {
      case Save(url, alias, fault, t) =>
        var k := |s'.hist|;
        ls, s' := Write(ttl, s, ls, s', c, CallOf(op), fault);
        if !Insert(Last(s).rows, url, alias, fault).1.Failed? {
          ls, s' := WriteFinishes(ttl, s, ls, s', c, CallOf(op), k, t);
        }
      case Delete(alias, fault, t) =>
        var k := |s'.hist|;
        ls, s' := Write(ttl, s, ls, s', c, CallOf(op), fault);
        if !Remove(Last(s).rows, alias, fault).1.Failed? {
          ls, s' := WriteFinishes(ttl, s, ls, s', c, CallOf(op), k, t);
        }
      case Get(alias, read, fault, t) =>
        ls, s' := ReadFinishes(ttl, s, ls, s', c, alias, read);
        if C.ReadEntry(World(s), alias, read).1.None? {
          ls, s' := FlightFlies(ttl, s, ls, s', c, alias, fault, t);
        }
    }
  }

  /** A client that has its answer goes away. */
  lemma GoesAway(ttl: int, s: State, c: nat) returns (ls: seq<Label>, s': State)
    requires s.hist != [] && Returning(s, c)
    ensures Reaches(ttl, s, ls, s') && s'.clients == s.clients - {c} && World(s') == World(s)
    ensures s'.group == s.group && Last(s').now == Last(s).now
  {
    ls, s' := Go(ttl, s, [], s, Leave(c));
  }

  predicate Reaches(ttl: int, s0: State, ls: seq<Label>, s: State) {
    s0.hist != [] && Runs(ttl, s0, ls) && After(ttl, s0, ls) == s && s.hist != []
  }

  lemma Joined(ttl: int, s0: State, ls: seq<Label>, s: State, more: seq<Label>, s': State) returns (ls': seq<Label>)
    requires Reaches(ttl, s0, ls, s) && Reaches(ttl, s, more, s')
    ensures ls' == ls + more && Reaches(ttl, s0, ls', s')
  {
    RunsConcat(ttl, s0, ls, more);
    ls' := ls + more;
  }

  /** So every sequential run is a run of the concurrent system, whichever clients take the operations and
      wherever all others are: after the first n operations, one after another, the table, Redis and the
      breaker are what `After` says, and the last answer is too.  What CacheTheorems proves thus holds of
      the concurrent system whenever operations do not overlap. */
  lemma {:induction false} SequencesAreRuns(ttl: int, s: State, ops: seq<C.Op>, cs: seq<nat>, n: nat)
    returns (ls: seq<Label>, s': State)
    requires s.hist != [] && T.Sequential(ops) && 0 < n <= |ops| == |cs| && Last(s).now <= T.Begin(ops[0])
    requires forall i | 0 <= i < |ops| :: cs[i] !in s.clients && CallOf(ops[i]).alias !in s.group
    ensures Reaches(ttl, s, ls, s') && Last(s').now <= T.End(ops[n - 1])
    ensures s'.group == s.group && s'.clients - {cs[n - 1]} == s.clients
    ensures Returning(s', cs[n - 1]) && At(s', cs[n - 1]).call == CallOf(ops[n - 1])
    ensures World(s') == T.After(ttl, World(s), ops, n)
    ensures At(s', cs[n - 1]).point.seen.response == T.Answer(ttl, World(s), ops, n - 1)
  {
    if n == 1 {
      ls, s' := OperationsAreRuns(ttl, s, cs[0], ops[0]);
      assert T.After(ttl, World(s), ops, 0) == World(s);
      assert s.clients - {cs[0]} == s.clients;
    } else {
      var before, idle, more;
      ls, before := SequencesAreRuns(ttl, s, ops, cs, n - 1);
      more, idle := GoesAway(ttl, before, cs[n - 2]);
      ls := Joined(ttl, s, ls, before, more, idle);
      more, s' := OperationsAreRuns(ttl, idle, cs[n - 1], ops[n - 1]);
      ls := Joined(ttl, s, ls, idle, more, s');
      assert s.clients - {cs[n - 1]} == s.clients;
    }
  }
}
