/** When a Get of the concurrent cache that begins after a Save can miss the saved url. */
module ReadYourWrites {
  import opened Common
  import opened Storage
  import opened Interleaved
  import opened InterleavedInvariant
  import opened InterleavedTheorems

  const MISS := Failed(UrlNotFound)

  /** Some run without a Delete of the alias lets a Get that begins after s answer that it is not there. */
  ghost predicate MayMiss(ttl: int, s: State, alias: string)
    requires s.hist != []
  {
    exists ls: seq<Label>, c: nat ::
      Runs(ttl, s, ls) && Deletes(ttl, s, ls, alias) == 0 && Misses(After(ttl, s, ls), c, alias, |s.hist|)
  }

  /** Client c, in a Get of the alias that began at step q or later, answers that it is not there. */
  predicate Misses(s: State, c: nat, alias: string, q: nat) {
    Returning(s, c) && At(s, c).call == GetCall(alias) && At(s, c).start >= q && At(s, c).point.seen.response == MISS
  }

  /** A flight that has not found the alias is about to land. */
  predicate MissInTheAir(s: State, alias: string) {
    exists c | c in s.clients :: HoldsMiss(s.clients[c], alias)
  }

  predicate HoldsMiss(b: Client, alias: string) {
    b.Busy? && b.call == GetCall(alias) && b.point.FlightDone? && b.point.seen.response == MISS
  }

  // ---------- Without a miss in the air none comes back ----------

  /** The row is there, no flight in the air holds a miss, and none has landed with one since step q. */
  predicate Found(s: State, alias: string, q: nat)
    requires s.hist != []
  {
    alias in Last(s).rows && !MissInTheAir(s, alias) && LandedFound(s.flights, alias, q)
  }

  predicate LandedFound(flights: seq<Flight>, alias: string, q: nat) {
    forall f | 0 <= f < |flights| && flights[f].alias == alias && flights[f].result.Some? && flights[f].landed >= q ::
      flights[f].result.value.response != MISS
  }

  /** The moving client comes to hold no miss. */
  lemma MoverFinds(ttl: int, s: State, l: Label, alias: string)
    requires s.hist != [] && Enabled(s, l) && alias in Last(s).rows && !l.Tick? && !HoldsMiss(At(s, l.c), alias)
    requires l.Begin? || ClientOk(ttl, s.hist, s.flights, l.c, At(s, l.c))
    ensures !HoldsMiss(At(Step(ttl, s, l), l.c), alias)
  {
  }

  lemma NobodyHoldsMiss(ttl: int, s: State, l: Label, alias: string)
    requires Inv(ttl, s) && Enabled(s, l) && alias in Last(s).rows && !MissInTheAir(s, alias)
    ensures !MissInTheAir(Step(ttl, s, l), alias)
  {
    var s' := Step(ttl, s, l);
    if l.Tick? {
      assert s'.clients == s.clients;
    } else {
      assert l.Begin? || ClientOk(ttl, s.hist, s.flights, l.c, At(s, l.c));
      MoverFinds(ttl, s, l, alias);
      OnlyOneMoves(ttl, s, l);
      forall c | c in s'.clients
        ensures !HoldsMiss(s'.clients[c], alias)
      {
        if c != l.c {
          assert c in s'.clients - {l.c} && s'.clients[c] == (s.clients - {l.c})[c] == s.clients[c];
        }
      }
    }
  }

  lemma FlightsStayFound(ttl: int, s: State, l: Label, alias: string, q: nat)
    requires s.hist != [] && Enabled(s, l) && LandedFound(s.flights, alias, q)
    requires l.Land? ==> At(s, l.c).call.GetCall? && LeaderOk(s.group, s.flights, l.c, At(s, l.c))
    requires l.Land? ==> !HoldsMiss(At(s, l.c), alias)
    ensures LandedFound(Step(ttl, s, l).flights, alias, q)
  {
  }

  lemma {:induction false} RunFinds(ttl: int, s: State, ls: seq<Label>, alias: string, q: nat)
    requires Inv(ttl, s) && Runs(ttl, s, ls) && Deletes(ttl, s, ls, alias) == 0 && Found(s, alias, q)
    ensures Found(After(ttl, s, ls), alias, q)
    decreases ls
  {
    if ls != [] {
      var l := ls[0];
      StepConserves(ttl, s, l, alias);
      NobodyHoldsMiss(ttl, s, l, alias);
      assert l.Land? ==> ClientOk(ttl, s.hist, s.flights, l.c, At(s, l.c));
      FlightsStayFound(ttl, s, l, alias, q);
      StepKeepsInv(ttl, s, l);
      RunFinds(ttl, Step(ttl, s, l), ls[1..], alias, q);
    }
  }

  lemma FoundIsReturned(ttl: int, s: State, c: nat, alias: string, q: nat)
    requires Inv(ttl, s) && Found(s, alias, q)
    ensures !Misses(s, c, alias, q)
  {
    if c in s.clients {
      assert ClientOk(ttl, s.hist, s.flights, c, At(s, c));
    }
  }

  // ---------- A miss in the air reaches a Get that begins now ----------

  /** A run in which no statement is sent, hence nothing deleted. */
  predicate NoQuery(ls: seq<Label>) {
    forall l | l in ls :: !l.Query?
  }

  lemma {:induction false} NoQueryDeletesNothing(ttl: int, s: State, ls: seq<Label>, alias: string)
    requires s.hist != [] && Runs(ttl, s, ls) && NoQuery(ls)
    ensures Deletes(ttl, s, ls, alias) == 0
    decreases ls
  {
    if ls != [] {
      NoQueryDeletesNothing(ttl, Step(ttl, s, ls[0]), ls[1..], alias);
    }
  }

  /** Only client d, now inside a Get that began at step q, has moved since s. */
  predicate Arriving(ttl: int, s: State, ls: seq<Label>, s': State, d: nat, alias: string, point: Point)
    requires s.hist != []
  {
    Runs(ttl, s, ls) && After(ttl, s, ls) == s' && NoQuery(ls) && s'.hist != [] &&
    s'.clients == s.clients[d := Busy(GetCall(alias), |s.hist|, point)] &&
    Readable(s', d, Last(s').now) && s'.group == s.group && s'.flights == s.flights
  }

  lemma Starts(ttl: int, s: State, d: nat, alias: string) returns (ls: seq<Label>, s': State)
    requires s.hist != [] && At(s, d).Idle?
    ensures Arriving(ttl, s, ls, s', d, alias, if Last(s).now >= s.downUntil then ReadRedis else Join)
  {
    ls, s' := Go(ttl, s, [], s, Begin(d, GetCall(alias)));
    var b := At(s', d);
    ls, s' := Go(ttl, s, ls, s', Check(d, Last(s').now));
    var after := b.(point := if Last(s).now >= s.downUntil then ReadRedis else Join);
    assert s'.clients == s.clients[d := b][d := after] == s.clients[d := after];
  }

  /** Its Redis call fails. */
  lemma CallFails(ttl: int, s: State, ls: seq<Label>, s1: State, d: nat, alias: string)
    returns (ls': seq<Label>, s': State)
    requires s.hist != [] && Arriving(ttl, s, ls, s1, d, alias, ReadRedis)
    ensures Arriving(ttl, s, ls', s', d, alias, ReadMark)
  {
    ls', s' := Go(ttl, s, ls, s1, CallRedis(d, FailedBefore));
  }

  /** It trips the breaker. */
  lemma Trips(ttl: int, s: State, ls: seq<Label>, s1: State, d: nat, alias: string)
    returns (ls': seq<Label>, s': State)
    requires s.hist != [] && Arriving(ttl, s, ls, s1, d, alias, ReadMark)
    ensures Arriving(ttl, s, ls', s', d, alias, Join)
  {
    ls', s' := Go(ttl, s, ls, s1, Mark(d, Last(s1).now));
  }

  /** An idle client begins a Get and comes to singleflight: the breaker keeps it from Redis, or the call
      fails. */
  lemma Arrives(ttl: int, s: State, d: nat, alias: string) returns (ls: seq<Label>, s': State)
    requires s.hist != [] && At(s, d).Idle?
    ensures Arriving(ttl, s, ls, s', d, alias, Join)
  {
    ls, s' := Starts(ttl, s, d, alias);
    if Last(s).now >= s.downUntil {
      ls, s' := CallFails(ttl, s, ls, s', d, alias);
      ls, s' := Trips(ttl, s, ls, s', d, alias);
    }
  }

  /** There is always one more client. */
  lemma {:induction false} SomeoneIsIdle(cs: set<nat>) returns (d: nat)
    ensures forall c | c in cs :: c < d
    decreases cs
  {
    d := 0;
    if cs != {} {
      var c :| c in cs;
      var e := SomeoneIsIdle(cs - {c});
      assert forall other | other in cs && other != c :: other in cs - {c};
      d := if e <= c then c + 1 else e;
    }
  }

  /** It joins the flight of leader c, the flight lands, and its miss is answered. */
  lemma JoinsTheMiss(ttl: int, s: State, ls: seq<Label>, s1: State, c: nat, d: nat, alias: string)
    returns (ls': seq<Label>)
    requires s.hist != [] && c != d && Arriving(ttl, s, ls, s1, d, alias, Join)
    requires c in s.clients && HoldsMiss(s.clients[c], alias) && LeaderOk(s.group, s.flights, c, s.clients[c])
    ensures Runs(ttl, s, ls') && NoQuery(ls') && Misses(After(ttl, s, ls'), d, alias, |s.hist|)
  {
    var s';
    ls', s' := Go(ttl, s, ls, s1, Enter(d));
    ls', s' := Go(ttl, s, ls', s', Land(c));
    ls', s' := Go(ttl, s, ls', s', Wake(d));
  }

  lemma MissReachesGet(ttl: int, s: State, alias: string) returns (ls: seq<Label>, d: nat)
    requires Inv(ttl, s) && MissInTheAir(s, alias)
    ensures Runs(ttl, s, ls) && NoQuery(ls) && Misses(After(ttl, s, ls), d, alias, |s.hist|)
  {
    var c :| c in s.clients && HoldsMiss(s.clients[c], alias);
    d := SomeoneIsIdle(s.clients.Keys);
    var before;
    ls, before := Arrives(ttl, s, d, alias);
    ls := JoinsTheMiss(ttl, s, ls, before, c, d, alias);
  }

  // ---------- Exactly when ----------

  /** Read your writes, exactly.  Once the alias is in the table and while it is not deleted, a Get that
      begins from now on can miss it if and only if a flight that read the table before is about to land
      with a miss.  So every Get that begins after a Save finds the url (or meets a database error) as soon
      as the flights that were in the air when the row was written have landed. */
  lemma ReadYourWritesIff(ttl: int, s: State, alias: string)
    requires Inv(ttl, s) && alias in Last(s).rows
    ensures MayMiss(ttl, s, alias) <==> MissInTheAir(s, alias)
  {
    if MissInTheAir(s, alias) {
      var ls, d := MissReachesGet(ttl, s, alias);
      NoQueryDeletesNothing(ttl, s, ls, alias);
    } else {
      forall f | 0 <= f < |s.flights|
        ensures FlightOk(s.hist, s.flights[f])
      {
      }
      forall ls: seq<Label>, c: nat | Runs(ttl, s, ls) && Deletes(ttl, s, ls, alias) == 0
        ensures !Misses(After(ttl, s, ls), c, alias, |s.hist|)
      {
        RunFinds(ttl, s, ls, alias, |s.hist|);
        RunKeepsInv(ttl, s, ls);
        FoundIsReturned(ttl, After(ttl, s, ls), c, alias, |s.hist|);
      }
    }
  }
}
