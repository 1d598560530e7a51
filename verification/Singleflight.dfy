/** When overlapping Gets of the concurrent cache share one read of the table. */
module Singleflight {
  import opened Common
  import opened Storage
  import opened Interleaved
  import opened InterleavedInvariant
  import opened InterleavedTheorems

  // ---------- Steps of flights ----------

  predicate TakesOff(s: State, l: Label, alias: string)
    requires s.hist != []
  {
    l.Enter? && Enabled(s, l) && At(s, l.c).call.alias == alias && alias !in s.group
  }

  predicate Lands(s: State, l: Label, alias: string)
    requires s.hist != []
  {
    l.Land? && Enabled(s, l) && At(s, l.c).call.alias == alias
  }

  /** This step is a Get's statement for the alias. */
  predicate Reads(s: State, l: Label, alias: string)
    requires s.hist != []
  {
    l.Query? && Enabled(s, l) && At(s, l.c).call == GetCall(alias)
  }

  /** How often steps of a kind happen in a run. */
  function TakeOffs(ttl: int, s: State, ls: seq<Label>, alias: string): nat
    requires s.hist != [] && Runs(ttl, s, ls)
    decreases ls
  {
    if ls == [] then 0
    else (if TakesOff(s, ls[0], alias) then 1 else 0) + TakeOffs(ttl, Step(ttl, s, ls[0]), ls[1..], alias)
  }

  function Landings(ttl: int, s: State, ls: seq<Label>, alias: string): nat
    requires s.hist != [] && Runs(ttl, s, ls)
    decreases ls
  {
    if ls == [] then 0
    else (if Lands(s, ls[0], alias) then 1 else 0) + Landings(ttl, Step(ttl, s, ls[0]), ls[1..], alias)
  }

  function TableReads(ttl: int, s: State, ls: seq<Label>, alias: string): nat
    requires s.hist != [] && Runs(ttl, s, ls)
    decreases ls
  {
    if ls == [] then 0
    else (if Reads(s, ls[0], alias) then 1 else 0) + TableReads(ttl, Step(ttl, s, ls[0]), ls[1..], alias)
  }

  // ---------- Every flight reads once ----------

  /** Flights of the alias in the air. */
  function Flying(s: State, alias: string): int {
    if alias in s.group then 1 else 0
  }

  /** Flights of the alias in the air that have not read the table yet. */
  function Unread(s: State, alias: string): int {
    if alias in s.group && s.group[alias] < |s.flights| &&
       var leader := At(s, s.flights[s.group[alias]].leader);
       leader.Busy? && leader.point.FlightRead? then 1 else 0
  }

  lemma StepFlies(ttl: int, s: State, l: Label, alias: string)
    requires s.hist != [] && Enabled(s, l)
    requires l.Land? ==> LeaderOk(s.group, s.flights, l.c, At(s, l.c))
    ensures Flying(Step(ttl, s, l), alias) ==
            Flying(s, alias) + (if TakesOff(s, l, alias) then 1 else 0) - if Lands(s, l, alias) then 1 else 0
  {
  }

  /** Flights taken off minus flights landed is the change of flights in the air, which is at most one. */
  lemma {:induction false} TakeOffsMinusLandings(ttl: int, s: State, ls: seq<Label>, alias: string)
    requires Inv(ttl, s) && Runs(ttl, s, ls)
    ensures TakeOffs(ttl, s, ls, alias) - Landings(ttl, s, ls, alias) ==
            Flying(After(ttl, s, ls), alias) - Flying(s, alias)
    decreases ls
  {
    if ls != [] {
      StepFlies(ttl, s, ls[0], alias);
      StepKeepsInv(ttl, s, ls[0]);
      TakeOffsMinusLandings(ttl, Step(ttl, s, ls[0]), ls[1..], alias);
    }
  }

  lemma StepReads(ttl: int, s: State, l: Label, alias: string)
    requires s.hist != [] && Enabled(s, l)
    requires !l.Tick? && At(s, l.c).Busy? ==> LeaderOk(s.group, s.flights, l.c, At(s, l.c))
    requires !l.Tick? && At(s, l.c).Busy? && At(s, l.c).point.FlightRead? ==> At(s, l.c).call.GetCall?
    requires alias in s.group ==> Led(s, alias, s.group[alias])
    ensures Unread(Step(ttl, s, l), alias) + (if Reads(s, l, alias) then 1 else 0) ==
            Unread(s, alias) + if TakesOff(s, l, alias) then 1 else 0
  {
  }

  /** Gets read the table exactly as often as flights take off, but for a read that is still to come. */
  lemma {:induction false} ReadsAreFlights(ttl: int, s: State, ls: seq<Label>, alias: string)
    requires Inv(ttl, s) && Runs(ttl, s, ls)
    ensures TableReads(ttl, s, ls, alias) + Unread(After(ttl, s, ls), alias) ==
            TakeOffs(ttl, s, ls, alias) + Unread(s, alias)
    decreases ls
  {
    if ls != [] {
      var l := ls[0];
      assert !l.Tick? && At(s, l.c).Busy? ==> ClientOk(ttl, s.hist, s.flights, l.c, At(s, l.c));
      StepReads(ttl, s, l, alias);
      StepKeepsInv(ttl, s, l);
      ReadsAreFlights(ttl, Step(ttl, s, l), ls[1..], alias);
    }
  }

  /** Between two instants at which no flight of the alias is in the air, as many reads of the table have
      been made as flights have taken off, and as many as have landed. */
  lemma OneReadPerFlight(ttl: int, s: State, ls: seq<Label>, alias: string)
    requires Reachable(ttl, s) && s.hist != [] && Runs(ttl, s, ls)
    requires alias !in s.group && alias !in After(ttl, s, ls).group
    ensures TableReads(ttl, s, ls, alias) == TakeOffs(ttl, s, ls, alias) == Landings(ttl, s, ls, alias)
  {
    ReachableInv(ttl, s);
    TakeOffsMinusLandings(ttl, s, ls, alias);
    ReadsAreFlights(ttl, s, ls, alias);
  }

  // ---------- Who joins a flight ----------

  lemma LandedStaysLanded(ttl: int, s: State, l: Label, f: nat)
    requires s.hist != [] && Enabled(s, l) && f < |s.flights| && s.flights[f].result.Some?
    ensures f < |Step(ttl, s, l).flights| && Step(ttl, s, l).flights[f].result.Some?
  {
  }

  /** A landed flight is not joined again. */
  lemma {:induction false} LandedIsForgotten(ttl: int, s: State, ls: seq<Label>, alias: string, f: nat)
    requires Inv(ttl, s) && Runs(ttl, s, ls) && f < |s.flights| && s.flights[f].result.Some?
    ensures alias in After(ttl, s, ls).group ==> After(ttl, s, ls).group[alias] != f
    decreases ls
  {
    if ls == [] {
      if alias in s.group {
        assert Led(s, alias, s.group[alias]);
        var c := s.flights[s.group[alias]].leader;
        assert LeaderOk(s.group, s.flights, c, s.clients[c]);
      }
    } else {
      LandedStaysLanded(ttl, s, ls[0], f);
      StepKeepsInv(ttl, s, ls[0]);
      LandedIsForgotten(ttl, Step(ttl, s, ls[0]), ls[1..], alias, f);
    }
  }

  lemma GroupStep(ttl: int, s: State, l: Label, alias: string)
    requires s.hist != [] && Enabled(s, l) && alias in s.group
    requires l.Land? ==> LeaderOk(s.group, s.flights, l.c, At(s, l.c))
    ensures var s' := Step(ttl, s, l);
            if Lands(s, l, alias) then s.group[alias] < |s'.flights| && s'.flights[s.group[alias]].result.Some?
            else alias in s'.group && s'.group[alias] == s.group[alias]
  {
  }

  /** A flight stays the running flight of its alias exactly until it lands. */
  lemma {:induction false} FlightUntilLanding(ttl: int, s: State, ls: seq<Label>, alias: string)
    requires Inv(ttl, s) && Runs(ttl, s, ls) && alias in s.group
    ensures var s' := After(ttl, s, ls);
            alias in s'.group && s'.group[alias] == s.group[alias] <==> Landings(ttl, s, ls, alias) == 0
    decreases ls
  {
    if ls != [] {
      var l, s' := ls[0], Step(ttl, s, ls[0]);
      GroupStep(ttl, s, l, alias);
      StepKeepsInv(ttl, s, l);
      if Lands(s, l, alias) {
        LandedIsForgotten(ttl, s', ls[1..], alias, s.group[alias]);
      } else {
        FlightUntilLanding(ttl, s', ls[1..], alias);
      }
    }
  }

  /** A Get that comes to singleflight later joins the flight that is running now exactly if no flight of
      the alias has landed in between. */
  lemma GetJoinsIffNotLanded(ttl: int, s: State, ls: seq<Label>, alias: string, c: nat)
    requires Reachable(ttl, s) && s.hist != [] && Runs(ttl, s, ls) && alias in s.group
    requires var s' := After(ttl, s, ls); Enabled(s', Enter(c)) && At(s', c).call.alias == alias
    ensures var s' := After(ttl, s, ls);
            At(Step(ttl, s', Enter(c)), c).point == Wait(s.group[alias]) <==> Landings(ttl, s, ls, alias) == 0
  {
    ReachableInv(ttl, s);
    FlightUntilLanding(ttl, s, ls, alias);
  }
}
