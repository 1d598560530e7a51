/** The cache under concurrency: any number of clients, each somewhere inside a Save, Get or Delete,
    taking turns at the steps that touch shared state.

    A step is named by a label that also fixes what the environment decides: which client moves, the
    clock it read, whether the database errs, how a Redis call ends.  `hist` records the table and
    the clock after every step, and values carry the step at which the table held them; both exist
    only to state what is proved, and no step depends on them. */
module Interleaved {
  import opened Common
  import opened Storage
  import RedisCache

  datatype Call = SaveCall(url: string, alias: string) | GetCall(alias: string) | DeleteCall(alias: string)

  /** The table and the clock after a step, the client that took it, and if the step was a statement,
      whether the database erred. */
  datatype Snapshot = Snapshot(rows: Rows, now: int, actor: Option<nat>, erred: Option<bool>)

  /** A database answer and the step of the statement it came from. */
  datatype Seen = Seen(response: Response, at: nat)

  /** A Redis entry: put there at step `installed`, by an operation that began at step `start` and
      saw the url in the table at step `seen`. */
  datatype Item = Item(url: string, deadline: int, start: nat, seen: nat, installed: nat)

  /** One call of singleflight's function: its first step, and once it has landed its result and the
      step at which it was published. */
  datatype Flight = Flight(alias: string, leader: nat, born: nat, result: Option<Seen>, landed: nat)

  /** Where the answer of an operation came from: its own statement, a flight, or Redis at a step. */
  datatype Source = Own | Shared(flight: nat) | Hit(item: Item, step: nat)

  /** What a client does next. */
  datatype Point =
    | Write                                // next.Save or next.Delete
    | WriteCheck(at: nat)                  // the breaker, after the row changed at step `at`
    | WriteRedis(at: nat)                  // rdb.Set or rdb.Del
    | WriteMark(at: nat)                   // trip the breaker
    | ReadCheck
    | ReadRedis                            // rdb.Get
    | ReadMark
    | Join                                 // group.Do
    | Wait(flight: nat)
    | FlightRead(flight: nat)              // next.Get, by the leader
    | FlightCheck(flight: nat, seen: Seen)
    | FlightSet(flight: nat, seen: Seen)   // rdb.Set
    | FlightMark(flight: nat, seen: Seen)
    | FlightDone(flight: nat, seen: Seen)  // publish the result and forget the flight
    | Return(seen: Seen, source: Source)

  datatype Client = Idle | Busy(call: Call, start: nat, point: Point)

  datatype State = State(
    hist: seq<Snapshot>,
    redis: map<string, Item>,
    downUntil: int,
    group: map<string, nat>,   // the running flight of an alias
    flights: seq<Flight>,      // every flight there has been
    clients: map<nat, Client>,
    since: map<nat, int>)      // when a client took its last step: it reads the clock later than that

  datatype Label =
    | Tick(d: nat)
    | Begin(c: nat, call: Call)
    | Query(c: nat, fault: bool)
    | Check(c: nat, read: int)
    | CallRedis(c: nat, outcome: Outcome)
    | Mark(c: nat, read: int)
    | Enter(c: nat)
    | Land(c: nat)
    | Wake(c: nat)
    | Leave(c: nat)

  function Init(rows: Rows, now: int): State {
    State([Snapshot(rows, now, None, None)], map[], 0, map[], [], map[], map[])
  }

  function Last(s: State): Snapshot
    requires s.hist != []
  {
    s.hist[|s.hist| - 1]
  }

  function At(s: State, c: nat): Client {
    if c in s.clients then s.clients[c] else Idle
  }

  /** The client may read this from the clock between its last step and now. */
  predicate Readable(s: State, c: nat, read: int)
    requires s.hist != []
  {
    c in s.since && s.since[c] <= read <= Last(s).now
  }

  /** The client of the label is at a point where it can take this step. */
  predicate Enabled(s: State, l: Label)
    requires s.hist != []
  {
    match l
    case Tick(_) => true
    case Begin(c, _) => At(s, c).Idle?
    case Query(c, _) =>
      At(s, c).Busy? && if At(s, c).call.GetCall? then At(s, c).point.FlightRead? else At(s, c).point.Write?
    case Check(c, read) =>
      At(s, c).Busy? && Readable(s, c, read) &&
      (At(s, c).point.WriteCheck? || At(s, c).point.ReadCheck? || At(s, c).point.FlightCheck?)
    case CallRedis(c, _) =>
      At(s, c).Busy? &&
      (At(s, c).point.WriteRedis? || At(s, c).point.ReadRedis? ||
       (At(s, c).point.FlightSet? && At(s, c).point.seen.response.Found?))
    case Mark(c, read) =>
      At(s, c).Busy? && Readable(s, c, read) &&
      (At(s, c).point.WriteMark? || At(s, c).point.ReadMark? || At(s, c).point.FlightMark?)
    case Enter(c) => At(s, c).Busy? && At(s, c).point.Join?
    case Land(c) => At(s, c).Busy? && At(s, c).point.FlightDone? && At(s, c).point.flight < |s.flights|
    case Wake(c) =>
      At(s, c).Busy? && At(s, c).point.Wait? && At(s, c).point.flight < |s.flights| &&
      s.flights[At(s, c).point.flight].result.Some?
    case Leave(c) => At(s, c).Busy? && At(s, c).point.Return?
  }

  function First(call: Call): Point {
    if call.GetCall? then ReadCheck else Write
  }

  /** What the write operations answer once their row has changed. */
  function Success(call: Call): Response {
    if call.SaveCall? then Stored else Removed
  }

  /** The statement a write operation sends. */
  function Statement(rows: Rows, call: Call, fault: bool): (Rows, Response)
    requires !call.GetCall?
  {
    if call.SaveCall? then Insert(rows, call.url, call.alias, fault) else Remove(rows, call.alias, fault)
  }

  /** What is recorded of a step of the client that sends no statement. */
  function Note(s: State, c: nat): Snapshot
    requires s.hist != []
  {
    Snapshot(Last(s).rows, Last(s).now, Some(c), None)
  }

  /** A step that changes no row: the client moves on. */
  function Move(s: State, c: nat, point: Point): State
    requires s.hist != [] && At(s, c).Busy?
  {
    s.(hist := s.hist + [Note(s, c)], clients := s.clients[c := At(s, c).(point := point)],
       since := s.since[c := Last(s).now])
  }

  function StepQuery(s: State, c: nat, fault: bool): State
    requires s.hist != [] && Enabled(s, Query(c, fault))
  {
    var b, k := At(s, c), |s.hist|;
    if b.call.GetCall? then
      var seen := Seen(Select(Last(s).rows, b.call.alias, fault), k);
      var s' := Move(s, c, if seen.response.Found? then FlightCheck(b.point.flight, seen)
                           else FlightDone(b.point.flight, seen));
      s'.(hist := s.hist + [Note(s, c).(erred := Some(fault))])
    else
      var (rows, r) := Statement(Last(s).rows, b.call, fault);
      var s' := Move(s, c, if r.Failed? then Return(Seen(r, k), Own) else WriteCheck(k));
      s'.(hist := s.hist + [Snapshot(rows, Last(s).now, Some(c), Some(fault))])
  }

  function StepCheck(s: State, c: nat, read: int): State
    requires s.hist != [] && Enabled(s, Check(c, read))
  {
    var b := At(s, c);
    var up := read >= s.downUntil;
    match b.point
    case WriteCheck(at) => Move(s, c, if up then WriteRedis(at) else Return(Seen(Success(b.call), at), Own))
    case FlightCheck(f, seen) => Move(s, c, if up then FlightSet(f, seen) else FlightDone(f, seen))
    case _ => Move(s, c, if up then ReadRedis else Join)
  }

  function SetItem(redis: map<string, Item>, alias: string, item: Item, outcome: Outcome): map<string, Item> {
    if outcome.FailedBefore? then redis else redis[alias := item]
  }

  function StepRedis(ttl: int, s: State, c: nat, outcome: Outcome): State
    requires s.hist != [] && Enabled(s, CallRedis(c, outcome))
  {
    var b, k, now := At(s, c), |s.hist|, Last(s).now;
    var alias := b.call.alias;
    match b.point
    case WriteRedis(at) =>
      var s' := Move(s, c, if outcome.Answered? then Return(Seen(Success(b.call), at), Own) else WriteMark(at));
      if b.call.SaveCall? then
        s'.(redis := SetItem(s.redis, alias, Item(b.call.url, now + ttl, b.start, at, k), outcome))
      else s'.(redis := if outcome.FailedBefore? then s.redis else s.redis - {alias})
    case FlightSet(f, seen) =>
      var s' := Move(s, c, if outcome.Answered? then FlightDone(f, seen) else FlightMark(f, seen));
      s'.(redis := SetItem(s.redis, alias, Item(seen.response.url, now + ttl, b.start, seen.at, k), outcome))
    case _ =>
      if !outcome.Answered? then Move(s, c, ReadMark)
      else if alias in s.redis && now < s.redis[alias].deadline then
        Move(s, c, Return(Seen(Found(s.redis[alias].url), s.redis[alias].seen), Hit(s.redis[alias], k)))
      else Move(s, c, Join)
  }

  function StepMark(s: State, c: nat, read: int): State
    requires s.hist != [] && Enabled(s, Mark(c, read))
  {
    var b := At(s, c);
    var s' := match b.point
      case WriteMark(at) => Move(s, c, Return(Seen(Success(b.call), at), Own))
      case FlightMark(f, seen) => Move(s, c, FlightDone(f, seen))
      case _ => Move(s, c, Join);
    s'.(downUntil := read + RedisCache.COOLDOWN)
  }

  function StepEnter(s: State, c: nat): State
    requires s.hist != [] && Enabled(s, Enter(c))
  {
    var alias := At(s, c).call.alias;
    if alias in s.group then Move(s, c, Wait(s.group[alias]))
    else
      Move(s, c, FlightRead(|s.flights|)).(
        group := s.group[alias := |s.flights|],
        flights := s.flights + [Flight(alias, c, |s.hist|, None, 0)])
  }

  function StepLand(s: State, c: nat): State
    requires s.hist != [] && Enabled(s, Land(c))
  {
    var b := At(s, c);
    Move(s, c, Return(b.point.seen, Shared(b.point.flight))).(
      group := s.group - {b.call.alias},
      flights := s.flights[b.point.flight :=
          s.flights[b.point.flight].(result := Some(b.point.seen), landed := |s.hist|)])
  }

  function Step(ttl: int, s: State, l: Label): State
    requires s.hist != [] && Enabled(s, l)
  {
    match l
    case Tick(d) => s.(hist := s.hist + [Snapshot(Last(s).rows, Last(s).now + d, None, None)])
    case Begin(c, call) =>
      s.(hist := s.hist + [Note(s, c)], clients := s.clients[c := Busy(call, |s.hist|, First(call))],
         since := s.since[c := Last(s).now])
    case Query(c, fault) => StepQuery(s, c, fault)
    case Check(c, read) => StepCheck(s, c, read)
    case CallRedis(c, outcome) => StepRedis(ttl, s, c, outcome)
    case Mark(c, read) => StepMark(s, c, read)
    case Enter(c) => StepEnter(s, c)
    case Land(c) => StepLand(s, c)
    case Wake(c) =>
      var f := At(s, c).point.flight;
      Move(s, c, Return(s.flights[f].result.value, Shared(f)))
    case Leave(c) => s.(hist := s.hist + [Note(s, c)], clients := s.clients - {c})
  }

  /** Every step of the schedule is enabled when its turn comes. */
  predicate Runs(ttl: int, s: State, ls: seq<Label>)
    requires s.hist != []
    decreases ls
  {
    ls == [] || (Enabled(s, ls[0]) && Runs(ttl, Step(ttl, s, ls[0]), ls[1..]))
  }

  function After(ttl: int, s: State, ls: seq<Label>): (s': State)
    requires s.hist != [] && Runs(ttl, s, ls)
    ensures s'.hist != []
    decreases ls
  {
    if ls == [] then s else After(ttl, Step(ttl, s, ls[0]), ls[1..])
  }
}
