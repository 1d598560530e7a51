/** What every step of the concurrent cache keeps. */
module InterleavedInvariant {
  import opened Common
  import opened Storage
  import opened Interleaved

  /** The answer is that of a Get's statement at this step: an error exactly if the database erred, and
      otherwise what the table says. */
  predicate Truthful(hist: seq<Snapshot>, alias: string, seen: Seen) {
    seen.at < |hist| && hist[seen.at].erred.Some? &&
    seen.response ==
      if hist[seen.at].erred.value then Failed(DbError)
      else if alias in hist[seen.at].rows then Found(hist[seen.at].rows[alias])
      else Failed(UrlNotFound)
  }

  /** The write statement of this client took effect, with this answer, at step `at`. */
  predicate Committed(hist: seq<Snapshot>, c: nat, call: Call, start: nat, seen: Seen) {
    !call.GetCall? && start < seen.at < |hist| && hist[seen.at].actor == Some(c) && hist[seen.at].erred.Some? &&
    Answers(hist[seen.at - 1].rows, hist[seen.at].rows, call, hist[seen.at].erred.value, seen.response)
  }

  /** How a write changes the table and what it answers.  An error, a collision and a missing row leave the
      table alone. */
  predicate Answers(before: Rows, after: Rows, call: Call, erred: bool, response: Response)
    requires !call.GetCall?
  {
    if erred then response == Failed(DbError) && after == before
    else if call.SaveCall? then
      if call.alias in before then response == Failed(UrlExists) && after == before
      else response == Stored && after == before[call.alias := call.url]
    else
      if call.alias in before then response == Removed && after == before - {call.alias}
      else response == Failed(UrlNotFound) && after == before
  }

  /** The url was in the table between the start of the operation and the entry's installation,
      and the deadline is ttl after the latter. */
  predicate Genuine(ttl: int, hist: seq<Snapshot>, alias: string, item: Item) {
    item.start <= item.seen <= item.installed < |hist| &&
    alias in hist[item.seen].rows && hist[item.seen].rows[alias] == item.url &&
    item.deadline == hist[item.installed].now + ttl
  }

  /** A landed flight's answer was read inside the flight, by its leader. */
  predicate FlightOk(hist: seq<Snapshot>, f: Flight) {
    f.born < |hist| &&
    (f.result.Some? ==>
       f.born <= f.result.value.at < f.landed < |hist| && hist[f.result.value.at].actor == Some(f.leader) &&
       Truthful(hist, f.alias, f.result.value))
  }

  predicate Leads(point: Point) {
    point.FlightRead? || point.FlightCheck? || point.FlightSet? || point.FlightMark? || point.FlightDone?
  }

  predicate InFlight(hist: seq<Snapshot>, flights: seq<Flight>, alias: string, start: nat, f: nat, seen: Seen) {
    f < |flights| && flights[f].born <= seen.at && start <= flights[f].born && Truthful(hist, alias, seen) &&
    hist[seen.at].actor == Some(flights[f].leader)
  }

  predicate ReturnOk(ttl: int, hist: seq<Snapshot>, flights: seq<Flight>, c: nat,
                     call: Call, start: nat, seen: Seen, source: Source)
  {
    match source
    case Own => Committed(hist, c, call, start, seen)
    case Shared(f) =>
      call.GetCall? && f < |flights| && flights[f].alias == call.alias && flights[f].result == Some(seen) &&
      start < flights[f].landed
    case Hit(item, step) =>
      call.GetCall? && Genuine(ttl, hist, call.alias, item) && seen == Seen(Found(item.url), item.seen) &&
      start < step < |hist| && hist[step].now < item.deadline && item.installed < step
  }

  /** What holds of a busy client at each point; it only speaks of the past. */
  predicate ClientOk(ttl: int, hist: seq<Snapshot>, flights: seq<Flight>, c: nat, b: Client)
    requires b.Busy?
  {
    b.start < |hist| &&
    match b.point
    case Write => !b.call.GetCall?
    case WriteCheck(at) => Committed(hist, c, b.call, b.start, Seen(Success(b.call), at))
    case WriteRedis(at) => Committed(hist, c, b.call, b.start, Seen(Success(b.call), at))
    case WriteMark(at) => Committed(hist, c, b.call, b.start, Seen(Success(b.call), at))
    case ReadCheck => b.call.GetCall?
    case ReadRedis => b.call.GetCall?
    case ReadMark => b.call.GetCall?
    case Join => b.call.GetCall?
    case Wait(f) =>
      b.call.GetCall? && f < |flights| && flights[f].alias == b.call.alias &&
      (flights[f].result.Some? ==> b.start < flights[f].landed)
    case FlightRead(f) =>
      b.call.GetCall? && f < |flights| && b.start <= flights[f].born && flights[f].leader == c
    case FlightCheck(f, seen) =>
      b.call.GetCall? && InFlight(hist, flights, b.call.alias, b.start, f, seen) && seen.response.Found?
    case FlightSet(f, seen) =>
      b.call.GetCall? && InFlight(hist, flights, b.call.alias, b.start, f, seen) && seen.response.Found?
    case FlightMark(f, seen) =>
      b.call.GetCall? && InFlight(hist, flights, b.call.alias, b.start, f, seen) && seen.response.Found?
    case FlightDone(f, seen) => b.call.GetCall? && InFlight(hist, flights, b.call.alias, b.start, f, seen)
    case Return(seen, source) => ReturnOk(ttl, hist, flights, c, b.call, b.start, seen, source)
  }

  /** A leader's flight is the running flight of its alias, and its own. */
  predicate LeaderOk(group: map<string, nat>, flights: seq<Flight>, c: nat, b: Client)
    requires b.Busy?
  {
    Leads(b.point) ==>
      b.point.flight < |flights| && flights[b.point.flight].alias == b.call.alias &&
      flights[b.point.flight].leader == c && flights[b.point.flight].result.None? &&
      b.call.alias in group && group[b.call.alias] == b.point.flight
  }

  /** A running flight has its leader, somewhere inside it. */
  predicate GroupOk(s: State) {
    forall alias | alias in s.group :: Led(s, alias, s.group[alias])
  }

  predicate Led(s: State, alias: string, f: nat) {
    f < |s.flights| && s.flights[f].alias == alias && s.flights[f].leader in s.clients &&
    var b := s.clients[s.flights[f].leader];
    b.Busy? && Leads(b.point) && b.point.flight == f && b.call == GetCall(alias)
  }

  predicate ClockOk(hist: seq<Snapshot>) {
    forall i, j | 0 <= i <= j < |hist| :: hist[i].now <= hist[j].now
  }

  predicate ClientsOk(ttl: int, s: State) {
    forall c | c in s.clients ::
      s.clients[c].Busy? && ClientOk(ttl, s.hist, s.flights, c, s.clients[c]) &&
      LeaderOk(s.group, s.flights, c, s.clients[c])
  }

  predicate Inv(ttl: int, s: State) {
    s.hist != [] && ClockOk(s.hist) && GroupOk(s) && ClientsOk(ttl, s) &&
    (forall alias | alias in s.redis :: Genuine(ttl, s.hist, alias, s.redis[alias])) &&
    (forall f | 0 <= f < |s.flights| :: FlightOk(s.hist, s.flights[f]))
  }

  lemma InitInv(ttl: int, rows: Rows, now: int)
    ensures Inv(ttl, Init(rows, now))
  {
  }

  // ---------- The past does not change ----------

  /** Flights are only added, or landed at step `now`. */
  predicate FlightsGrow(flights: seq<Flight>, flights': seq<Flight>, now: nat) {
    |flights| <= |flights'| &&
    forall f | 0 <= f < |flights| ::
      flights'[f] == flights[f] ||
      (flights[f].result.None? && flights'[f].(result := None, landed := flights[f].landed) == flights[f] &&
       flights'[f].landed == now)
  }

  lemma ClientStaysOk(ttl: int, hist: seq<Snapshot>, hist': seq<Snapshot>,
                      flights: seq<Flight>, flights': seq<Flight>, c: nat, b: Client)
    requires b.Busy? && ClientOk(ttl, hist, flights, c, b)
    requires hist <= hist' && FlightsGrow(flights, flights', |hist|)
    ensures ClientOk(ttl, hist', flights', c, b)
  {
    if b.point.WriteCheck? || b.point.WriteRedis? || b.point.WriteMark? {
      CommittedStays(hist, hist', c, b.call, b.start, Seen(Success(b.call), b.point.at));
    } else if b.point.Return? && b.point.source.Own? {
      CommittedStays(hist, hist', c, b.call, b.start, b.point.seen);
    }
  }

  lemma CommittedStays(hist: seq<Snapshot>, hist': seq<Snapshot>, c: nat, call: Call, start: nat, seen: Seen)
    requires hist <= hist' && Committed(hist, c, call, start, seen)
    ensures Committed(hist', c, call, start, seen)
  {
    assert hist'[seen.at] == hist[seen.at] && hist'[seen.at - 1] == hist[seen.at - 1];
  }

  /** It is enough to look at the client that moved, and at what its step put into shared state. */
  lemma OthersStayOk(ttl: int, s: State, s': State, c: nat)
    requires Inv(ttl, s) && |s'.hist| == |s.hist| + 1 && s.hist <= s'.hist
    requires FlightsGrow(s.flights, s'.flights, |s.hist|)
    requires Last(s).now <= Last(s').now
    requires s'.clients - {c} == s.clients - {c}
    requires c in s'.clients ==> s'.clients[c].Busy? && ClientOk(ttl, s'.hist, s'.flights, c, s'.clients[c])
    requires GroupOk(s')
    requires forall d | d in s'.clients :: s'.clients[d].Busy? && LeaderOk(s'.group, s'.flights, d, s'.clients[d])
    requires forall alias | alias in s'.redis && (alias !in s.redis || s'.redis[alias] != s.redis[alias]) ::
               Genuine(ttl, s'.hist, alias, s'.redis[alias])
    requires forall f | 0 <= f < |s'.flights| && (f >= |s.flights| || s'.flights[f] != s.flights[f]) ::
               FlightOk(s'.hist, s'.flights[f])
    ensures Inv(ttl, s')
  {
    forall d | d in s'.clients
      ensures ClientOk(ttl, s'.hist, s'.flights, d, s'.clients[d])
    {
      if d != c {
        assert d in s'.clients - {c} && d in s.clients - {c};
        assert s'.clients[d] == (s'.clients - {c})[d] == (s.clients - {c})[d] == s.clients[d];
        ClientStaysOk(ttl, s.hist, s'.hist, s.flights, s'.flights, d, s.clients[d]);
      }
    }
    forall i, j | 0 <= i <= j < |s'.hist|
      ensures s'.hist[i].now <= s'.hist[j].now
    {
      assert i < |s.hist| ==> s'.hist[i] == s.hist[i] && s.hist[i].now <= Last(s).now;
      assert j < |s.hist| ==> s'.hist[j] == s.hist[j];
    }
    forall alias | alias in s'.redis
      ensures Genuine(ttl, s'.hist, alias, s'.redis[alias])
    {
      if alias in s.redis && s'.redis[alias] == s.redis[alias] {
        var item := s.redis[alias];
        assert Genuine(ttl, s.hist, alias, item);
        assert s'.hist[item.seen] == s.hist[item.seen] && s'.hist[item.installed] == s.hist[item.installed];
      }
    }
    forall f | 0 <= f < |s'.flights|
      ensures FlightOk(s'.hist, s'.flights[f])
    {
      if f < |s.flights| && s'.flights[f] == s.flights[f] {
        assert FlightOk(s.hist, s.flights[f]);
      }
    }
  }

  // ---------- Every step keeps the invariant ----------

  /** The client's own part of a step that leaves the group and the flights alone. */
  predicate GoodMove(ttl: int, s: State, s': State, c: nat)
    requires s.hist != [] && At(s, c).Busy?
  {
    var b := At(s, c);
    |s'.hist| == |s.hist| + 1 && s.hist <= s'.hist && Last(s).now == Last(s').now &&
    c in s'.clients && s'.clients == s.clients[c := s'.clients[c]] &&
    s'.clients[c].Busy? && s'.clients[c] == b.(point := s'.clients[c].point) &&
    s'.flights == s.flights && s'.group == s.group &&
    (Leads(s'.clients[c].point) <==> Leads(b.point)) &&
    (Leads(b.point) ==> s'.clients[c].point.flight == b.point.flight) &&
    ClientOk(ttl, s'.hist, s'.flights, c, s'.clients[c]) &&
    (s'.redis == s.redis || s'.redis == s.redis - {b.call.alias} ||
     (b.call.alias in s'.redis && s'.redis == s.redis[b.call.alias := s'.redis[b.call.alias]] &&
      Genuine(ttl, s'.hist, b.call.alias, s'.redis[b.call.alias])))
  }

  lemma MoveKeepsInv(ttl: int, s: State, s': State, c: nat)
    requires Inv(ttl, s) && At(s, c).Busy? && GoodMove(ttl, s, s', c)
    ensures Inv(ttl, s')
  {
    assert s'.clients - {c} == s.clients - {c};
    OthersStayOk(ttl, s, s', c);
  }

  lemma QueryIsGood(ttl: int, s: State, c: nat, fault: bool)
    requires s.hist != [] && Enabled(s, Query(c, fault)) && ClientOk(ttl, s.hist, s.flights, c, At(s, c))
    requires At(s, c).call.GetCall? ==> s.flights[At(s, c).point.flight].born < |s.hist|
    ensures GoodMove(ttl, s, StepQuery(s, c, fault), c)
  {
    var s' := StepQuery(s, c, fault);
    assert s'.hist[|s.hist| - 1] == Last(s);
    assert At(s, c).call.GetCall? ==> s'.hist[|s.hist|].rows == Last(s).rows;
  }

  lemma CheckIsGood(ttl: int, s: State, c: nat, read: int)
    requires s.hist != [] && Enabled(s, Check(c, read)) && ClientOk(ttl, s.hist, s.flights, c, At(s, c))
    ensures GoodMove(ttl, s, StepCheck(s, c, read), c)
  {
    ClientStaysOk(ttl, s.hist, StepCheck(s, c, read).hist, s.flights, s.flights, c, At(s, c));
  }

  lemma MarkIsGood(ttl: int, s: State, c: nat, read: int)
    requires s.hist != [] && Enabled(s, Mark(c, read)) && ClientOk(ttl, s.hist, s.flights, c, At(s, c))
    ensures GoodMove(ttl, s, StepMark(s, c, read), c)
  {
    ClientStaysOk(ttl, s.hist, StepMark(s, c, read).hist, s.flights, s.flights, c, At(s, c));
  }

  lemma GetIsGood(ttl: int, s: State, c: nat, outcome: Outcome)
    requires s.hist != [] && Enabled(s, CallRedis(c, outcome)) && ClientOk(ttl, s.hist, s.flights, c, At(s, c))
    requires At(s, c).point.ReadRedis?
    requires At(s, c).call.alias in s.redis ==> Genuine(ttl, s.hist, At(s, c).call.alias, s.redis[At(s, c).call.alias])
    ensures GoodMove(ttl, s, StepRedis(ttl, s, c, outcome), c)
  {
    var s', alias := StepRedis(ttl, s, c, outcome), At(s, c).call.alias;
    assert s'.hist[|s.hist|].now == Last(s).now;
    if alias in s.redis {
      var item := s.redis[alias];
      assert s'.hist[item.seen] == s.hist[item.seen] && s'.hist[item.installed] == s.hist[item.installed];
    }
  }

  lemma SaveIsGood(ttl: int, s: State, c: nat, outcome: Outcome)
    requires s.hist != [] && Enabled(s, CallRedis(c, outcome)) && ClientOk(ttl, s.hist, s.flights, c, At(s, c))
    requires At(s, c).point.WriteRedis? && At(s, c).call.SaveCall?
    ensures GoodMove(ttl, s, StepRedis(ttl, s, c, outcome), c)
  {
    var s', b := StepRedis(ttl, s, c, outcome), At(s, c);
    assert s'.hist[|s.hist|].now == Last(s).now && s'.hist[b.point.at] == s.hist[b.point.at];
    assert b.call.alias in s.hist[b.point.at].rows && s.hist[b.point.at].rows[b.call.alias] == b.call.url;
    CommittedStays(s.hist, s'.hist, c, b.call, b.start, Seen(Success(b.call), b.point.at));
  }

  lemma DelIsGood(ttl: int, s: State, c: nat, outcome: Outcome)
    requires s.hist != [] && Enabled(s, CallRedis(c, outcome)) && ClientOk(ttl, s.hist, s.flights, c, At(s, c))
    requires At(s, c).point.WriteRedis? && At(s, c).call.DeleteCall?
    ensures GoodMove(ttl, s, StepRedis(ttl, s, c, outcome), c)
  {
    var s', b := StepRedis(ttl, s, c, outcome), At(s, c);
    CommittedStays(s.hist, s'.hist, c, b.call, b.start, Seen(Success(b.call), b.point.at));
  }

  lemma SetIsGood(ttl: int, s: State, c: nat, outcome: Outcome)
    requires s.hist != [] && Enabled(s, CallRedis(c, outcome)) && ClientOk(ttl, s.hist, s.flights, c, At(s, c))
    requires At(s, c).point.FlightSet?
    ensures GoodMove(ttl, s, StepRedis(ttl, s, c, outcome), c)
  {
    var s', b := StepRedis(ttl, s, c, outcome), At(s, c);
    assert s'.hist[|s.hist|].now == Last(s).now && s'.hist[b.point.seen.at] == s.hist[b.point.seen.at];
  }

  lemma JoinKeepsInv(ttl: int, s: State, c: nat)
    requires Inv(ttl, s) && Enabled(s, Enter(c)) && At(s, c).call.alias in s.group
    ensures Inv(ttl, StepEnter(s, c))
  {
    assert Led(s, At(s, c).call.alias, s.group[At(s, c).call.alias]);
    assert ClientOk(ttl, s.hist, s.flights, c, At(s, c));
    MoveKeepsInv(ttl, s, StepEnter(s, c), c);
  }

  lemma TakeOffKeepsInv(ttl: int, s: State, c: nat)
    requires Inv(ttl, s) && Enabled(s, Enter(c)) && At(s, c).call.alias !in s.group
    ensures Inv(ttl, StepEnter(s, c))
  {
    var s' := StepEnter(s, c);
    assert ClientOk(ttl, s.hist, s.flights, c, At(s, c));
    assert s'.clients - {c} == s.clients - {c};
    forall d | d in s'.clients && d != c
      ensures s'.clients[d].Busy? && LeaderOk(s'.group, s'.flights, d, s'.clients[d])
    {
      assert LeaderOk(s.group, s.flights, d, s.clients[d]);
    }
    forall alias | alias in s'.group
      ensures Led(s', alias, s'.group[alias])
    {
      assert alias != At(s, c).call.alias ==> Led(s, alias, s.group[alias]);
    }
    OthersStayOk(ttl, s, s', c);
  }

  /** Another leader keeps its own flight when c's lands: it is the flight of another alias. */
  lemma OtherLeaderStays(group: map<string, nat>, flights: seq<Flight>, c: nat,
                         b: Client, d: nat, other: Client, landed: Flight)
    requires c != d && b.Busy? && other.Busy? && Leads(b.point)
    requires LeaderOk(group, flights, c, b) && LeaderOk(group, flights, d, other)
    ensures LeaderOk(group - {b.call.alias}, flights[b.point.flight := landed], d, other)
  {
  }

  lemma OtherFlightStaysLed(s: State, s': State, c: nat, alias: string)
    requires s.hist != [] && Enabled(s, Land(c)) && s' == StepLand(s, c)
    requires alias != At(s, c).call.alias && alias in s.group && Led(s, alias, s.group[alias])
    requires LeaderOk(s.group, s.flights, c, At(s, c))
    ensures Led(s', alias, s.group[alias])
  {
  }

  lemma LandKeepsLeaders(ttl: int, s: State, c: nat)
    requires s.hist != [] && GroupOk(s) && ClientsOk(ttl, s) && Enabled(s, Land(c))
    ensures GroupOk(StepLand(s, c))
    ensures var s' := StepLand(s, c);
            forall d | d in s'.clients :: s'.clients[d].Busy? && LeaderOk(s'.group, s'.flights, d, s'.clients[d])
  {
    var s', b := StepLand(s, c), At(s, c);
    assert LeaderOk(s.group, s.flights, c, b);
    forall d | d in s'.clients
      ensures s'.clients[d].Busy? && LeaderOk(s'.group, s'.flights, d, s'.clients[d])
    {
      if d != c {
        OtherLeaderStays(s.group, s.flights, c, b, d, s.clients[d], s'.flights[b.point.flight]);
      }
    }
    forall alias | alias in s'.group
      ensures Led(s', alias, s'.group[alias])
    {
      OtherFlightStaysLed(s, s', c, alias);
    }
  }

  lemma LandKeepsInv(ttl: int, s: State, c: nat)
    requires Inv(ttl, s) && Enabled(s, Land(c))
    ensures Inv(ttl, StepLand(s, c))
  {
    var s' := StepLand(s, c);
    assert ClientOk(ttl, s.hist, s.flights, c, At(s, c)) && LeaderOk(s.group, s.flights, c, At(s, c));
    assert s'.clients - {c} == s.clients - {c};
    LandKeepsLeaders(ttl, s, c);
    OthersStayOk(ttl, s, s', c);
  }

  lemma WakeKeepsInv(ttl: int, s: State, c: nat)
    requires Inv(ttl, s) && Enabled(s, Wake(c))
    ensures Inv(ttl, Step(ttl, s, Wake(c)))
  {
    var s' := Step(ttl, s, Wake(c));
    assert ClientOk(ttl, s.hist, s.flights, c, At(s, c));
    MoveKeepsInv(ttl, s, s', c);
  }

  lemma ElseKeepsInv(ttl: int, s: State, l: Label)
    requires Inv(ttl, s) && Enabled(s, l) && (l.Tick? || l.Begin? || l.Leave?)
    ensures Inv(ttl, Step(ttl, s, l))
  {
    var s' := Step(ttl, s, l);
    if l.Tick? {
      forall c | c in s.clients
        ensures ClientOk(ttl, s'.hist, s'.flights, c, s.clients[c])
      {
        ClientStaysOk(ttl, s.hist, s'.hist, s.flights, s'.flights, c, s.clients[c]);
      }
      OthersStayOk(ttl, s, s', 0);
    } else {
      assert s'.clients - {l.c} == s.clients - {l.c};
      OthersStayOk(ttl, s, s', l.c);
    }
  }

  lemma MovingKeepsInv(ttl: int, s: State, l: Label)
    requires Inv(ttl, s) && Enabled(s, l) && (l.Query? || l.Check? || l.CallRedis? || l.Mark?)
    ensures Inv(ttl, Step(ttl, s, l))
  {
    var b := At(s, l.c);
    assert ClientOk(ttl, s.hist, s.flights, l.c, b) && LeaderOk(s.group, s.flights, l.c, b);
    assert Leads(b.point) ==> FlightOk(s.hist, s.flights[b.point.flight]);
    match l {
      case Query(c, fault) => QueryIsGood(ttl, s, c, fault);
      case Check(c, read) => CheckIsGood(ttl, s, c, read);
      case CallRedis(c, outcome) =>
        if b.point.ReadRedis? { GetIsGood(ttl, s, c, outcome); }
        else if b.point.FlightSet? { SetIsGood(ttl, s, c, outcome); }
        else if b.call.SaveCall? { SaveIsGood(ttl, s, c, outcome); }
        else { DelIsGood(ttl, s, c, outcome); }
      case Mark(c, read) => MarkIsGood(ttl, s, c, read);
    }
    MoveKeepsInv(ttl, s, Step(ttl, s, l), l.c);
  }

  /** The invariant holds at every step of every run. */
  lemma StepKeepsInv(ttl: int, s: State, l: Label)
    requires Inv(ttl, s) && Enabled(s, l)
    ensures Inv(ttl, Step(ttl, s, l))
  {
    match l
    case Enter(c) => if At(s, c).call.alias in s.group { JoinKeepsInv(ttl, s, c); } else { TakeOffKeepsInv(ttl, s, c); }
    case Land(c) => LandKeepsInv(ttl, s, c);
    case Wake(c) => WakeKeepsInv(ttl, s, c);
    case Tick(_) => ElseKeepsInv(ttl, s, l);
    case Begin(_, _) => ElseKeepsInv(ttl, s, l);
    case Leave(_) => ElseKeepsInv(ttl, s, l);
    case _ => MovingKeepsInv(ttl, s, l);
  }

  lemma {:induction false} RunKeepsInv(ttl: int, s: State, ls: seq<Label>)
    requires Inv(ttl, s) && Runs(ttl, s, ls)
    ensures Inv(ttl, After(ttl, s, ls))
    decreases ls
  {
    if ls != [] {
      StepKeepsInv(ttl, s, ls[0]);
      RunKeepsInv(ttl, Step(ttl, s, ls[0]), ls[1..]);
    }
  }
}
