/** What one step of the concurrent cache does to its client and to the stores, and what it leaves alone,
    whatever all other clients are doing. */
module Steps {
  import opened Common
  import opened Storage
  import opened Interleaved
  import opened InterleavedInvariant
  import opened InterleavedTheorems

  predicate SameRow(rows: Rows, rows': Rows, alias: string) {
    (alias in rows <==> alias in rows') && (alias in rows ==> rows[alias] == rows'[alias])
  }

  predicate SameEntry(redis: map<string, Item>, redis': map<string, Item>, alias: string) {
    (alias in redis <==> alias in redis') && (alias in redis ==> redis[alias] == redis'[alias])
  }

  predicate SameFlight(group: map<string, nat>, group': map<string, nat>, alias: string) {
    (alias in group <==> alias in group') && (alias in group ==> group[alias] == group'[alias])
  }

  predicate SameClient(s: State, s': State, d: nat) {
    (d in s.clients <==> d in s'.clients) && (d in s.clients ==> s.clients[d] == s'.clients[d])
  }

  lemma OtherRowsStay(ttl: int, s: State, l: Label, alias: string)
    requires s.hist != [] && Enabled(s, l) && !l.Tick? && (l.Begin? || alias != At(s, l.c).call.alias)
    ensures var s' := Step(ttl, s, l);
            s'.hist != [] && SameRow(Last(s).rows, Last(s').rows, alias) && Last(s').now == Last(s).now
  {
  }

  lemma OtherEntriesStay(ttl: int, s: State, l: Label, alias: string)
    requires s.hist != [] && Enabled(s, l) && !l.Tick? && (l.Begin? || alias != At(s, l.c).call.alias)
    ensures SameEntry(s.redis, Step(ttl, s, l).redis, alias)
  {
    if !l.CallRedis? {
      OnlyCallsTouchRedis(ttl, s, l);
    }
  }

  lemma OtherFlightsStay(ttl: int, s: State, l: Label, alias: string)
    requires s.hist != [] && Enabled(s, l) && !l.Tick? && (l.Begin? || alias != At(s, l.c).call.alias)
    ensures SameFlight(s.group, Step(ttl, s, l).group, alias)
  {
    if !l.Enter? && !l.Land? {
      OnlyGroupStepsTouchFlights(ttl, s, l);
    }
  }

  lemma OtherClientsStay(ttl: int, s: State, l: Label, d: nat)
    requires s.hist != [] && Enabled(s, l) && !l.Tick? && d != l.c
    ensures SameClient(s, Step(ttl, s, l), d)
  {
    var s' := Step(ttl, s, l);
    OnlyOneMoves(ttl, s, l);
    assert d in s.clients - {l.c} <==> d in s.clients;
    assert d in s'.clients - {l.c} <==> d in s'.clients;
    if d in s.clients {
      assert s.clients[d] == (s.clients - {l.c})[d] == (s'.clients - {l.c})[d];
    }
  }

  /** Operations do not interfere: a step of client c, in an operation on its alias, leaves the row, the entry
      and the running flight of every other alias as they are, and every other client where it is. */
  lemma OthersAreLeftAlone(ttl: int, s: State, l: Label, alias: string, d: nat)
    requires s.hist != [] && Enabled(s, l) && !l.Tick?
    requires d != l.c && (l.Begin? || alias != At(s, l.c).call.alias)
    ensures var s' := Step(ttl, s, l);
            s'.hist != [] && SameRow(Last(s).rows, Last(s').rows, alias) && SameEntry(s.redis, s'.redis, alias) &&
            SameFlight(s.group, s'.group, alias) && SameClient(s, s', d) && Last(s').now == Last(s).now
  {
    OtherRowsStay(ttl, s, l, alias);
    OtherEntriesStay(ttl, s, l, alias);
    OtherFlightsStay(ttl, s, l, alias);
    OtherClientsStay(ttl, s, l, d);
  }

  /** Entries change only by Redis calls. */
  lemma OnlyCallsTouchRedis(ttl: int, s: State, l: Label)
    requires s.hist != [] && Enabled(s, l) && !l.CallRedis?
    ensures Step(ttl, s, l).redis == s.redis
  {
  }

  /** Flights only take off by joining, and land by landing. */
  lemma OnlyGroupStepsTouchFlights(ttl: int, s: State, l: Label)
    requires s.hist != [] && Enabled(s, l) && !l.Enter? && !l.Land?
    ensures Step(ttl, s, l).group == s.group && Step(ttl, s, l).flights == s.flights
  {
  }

  /** A Get is served from Redis exactly if Redis answers its call and has a live entry.  Otherwise it goes on
      to the table, after a mark if the call failed. */
  lemma ServedIffLive(ttl: int, s: State, c: nat, outcome: Outcome)
    requires s.hist != [] && Enabled(s, CallRedis(c, outcome)) && At(s, c).point.ReadRedis?
    ensures var s', alias := Step(ttl, s, CallRedis(c, outcome)), At(s, c).call.alias;
            var hit := outcome == Answered && alias in s.redis && Last(s).now < s.redis[alias].deadline;
            s'.redis == s.redis && At(s', c).Busy? &&
            (At(s', c).point.Return? <==> hit) &&
            (hit ==> At(s', c).point.seen.response == Found(s.redis[alias].url)) &&
            (At(s', c).point == Join <==> outcome == Answered && !hit) &&
            (At(s', c).point == ReadMark <==> outcome != Answered)
  {
  }

  /** The Set of a Save or of a flight installs exactly the url that was stored or read, for ttl from now, and
      the Del of a Delete removes the entry, unless the call fails before it takes effect. */
  lemma WritesReachRedis(ttl: int, s: State, c: nat, outcome: Outcome)
    requires s.hist != [] && Enabled(s, CallRedis(c, outcome)) && !At(s, c).point.ReadRedis?
    requires At(s, c).point.WriteRedis? ==> !At(s, c).call.GetCall?
    ensures var s', b := Step(ttl, s, CallRedis(c, outcome)), At(s, c);
            if outcome == FailedBefore then s'.redis == s.redis
            else if b.point.WriteRedis? && b.call.DeleteCall? then b.call.alias !in s'.redis
            else b.call.alias in s'.redis && s'.redis[b.call.alias].deadline == Last(s).now + ttl &&
                 (b.point.FlightSet? ==> Found(s'.redis[b.call.alias].url) == b.point.seen.response) &&
                 (b.point.WriteRedis? && b.call.SaveCall? ==> s'.redis[b.call.alias].url == b.call.url)
    ensures var s', b := Step(ttl, s, CallRedis(c, outcome)), At(s, c);
            At(s', c).Busy? &&
            (outcome == Answered ==> Succeeds(b, At(s', c).point)) &&
            (outcome != Answered ==> At(s', c).point.WriteMark? || At(s', c).point.FlightMark?)
  {
  }

  /** The operation goes on as if Redis had answered: a write reports success, a flight lands with what it
      read, and a Get goes to the table. */
  predicate Succeeds(b: Client, next: Point)
    requires b.Busy?
  {
    match b.point
    case WriteCheck(at) => Reports(b.call, at, next)
    case WriteRedis(at) => Reports(b.call, at, next)
    case WriteMark(at) => Reports(b.call, at, next)
    case FlightCheck(f, seen) => next == FlightDone(f, seen)
    case FlightSet(f, seen) => next == FlightDone(f, seen)
    case FlightMark(f, seen) => next == FlightDone(f, seen)
    case ReadCheck => next == Join
    case ReadMark => next == Join
    case _ => false
  }

  predicate Reports(call: Call, at: nat, next: Point) {
    next == Return(Seen(if call.SaveCall? then Stored else Removed, at), Own)
  }

  /** Redis never fails an operation: skipped by the breaker or failed and marked, the operation goes on as if
      Redis had answered. */
  lemma RedisIsOptional(ttl: int, s: State, c: nat, read: int)
    requires s.hist != []
    ensures Enabled(s, Check(c, read)) && read < s.downUntil ==>
              Succeeds(At(s, c), At(Step(ttl, s, Check(c, read)), c).point)
    ensures Enabled(s, Mark(c, read)) ==>
              var s' := Step(ttl, s, Mark(c, read));
              Succeeds(At(s, c), At(s', c).point) && s'.downUntil == read + 5_000_000_000
  {
  }
}
