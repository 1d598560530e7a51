/** Runs that show what the concurrent cache does not promise, even when Redis never fails. */
module Races {
  import opened Common
  import opened Storage
  import opened Interleaved
  import opened InterleavedInvariant
  import opened InterleavedTheorems
  import opened Staleness
  import opened ReadYourWrites
  import opened Breaker

  /** No Redis call of the run fails, and no statement. */
  predicate Faultless(ls: seq<Label>) {
    forall l | l in ls :: (l.CallRedis? ==> l.outcome.Answered?) && (l.Query? ==> !l.fault)
  }

  const ONE := map["a" := "u"]

  /** The state of a run with client 1 at a point, client 2 away, and Redis empty and up. */
  predicate Scene(ttl: int, ls: seq<Label>, s: State, point: Point) {
    Runs(ttl, Init(ONE, 0), ls) && After(ttl, Init(ONE, 0), ls) == s && Faultless(ls) &&
    s.hist != [] && Last(s).rows == ONE && Last(s).now == s.downUntil == 0 && s.redis == map[] &&
    At(s, 1) == Busy(GetCall("a"), 1, point) && At(s, 2).Idle?
  }

  lemma GetMisses(ttl: int) returns (ls: seq<Label>, s: State)
    ensures Scene(ttl, ls, s, Join) && s.group == map[] && s.flights == []
  {
    var s0 := Init(ONE, 0);
    ls, s := Go(ttl, s0, [], s0, Begin(1, GetCall("a")));
    ls, s := Go(ttl, s0, ls, s, Check(1, 0));
    ls, s := Go(ttl, s0, ls, s, CallRedis(1, Answered));
  }

  /** It leads a flight. */
  lemma GetFlies(ttl: int) returns (ls: seq<Label>, s: State)
    ensures Scene(ttl, ls, s, FlightRead(0))
  {
    ls, s := GetMisses(ttl);
    ls, s := Go(ttl, Init(ONE, 0), ls, s, Enter(1));
  }

  /** A Get of a row, up to the point where it is about to install what it read. */
  lemma GetReads(ttl: int) returns (ls: seq<Label>, s: State, at: nat)
    ensures Scene(ttl, ls, s, FlightSet(0, Seen(Found("u"), at)))
  {
    ls, s := GetFlies(ttl);
    at := |s.hist|;
    ls, s := Go(ttl, Init(ONE, 0), ls, s, Query(1, false));
    ls, s := Go(ttl, Init(ONE, 0), ls, s, Check(1, 0));
  }

  /** Client 2 deletes the row. */
  lemma RowIsDeleted(ttl: int, ls: seq<Label>, s: State, point: Point) returns (ls': seq<Label>, s': State)
    requires Scene(ttl, ls, s, point)
    ensures Runs(ttl, Init(ONE, 0), ls') && After(ttl, Init(ONE, 0), ls') == s' && Faultless(ls')
    ensures s'.hist != [] && At(s', 1) == At(s, 1) && Last(s').rows == map[]
    ensures Last(s').now == s'.downUntil == 0 && s'.redis == map[]
    ensures At(s', 2).Busy? && At(s', 2).call == DeleteCall("a") && At(s', 2).point.WriteCheck?
    ensures Readable(s', 2, 0)
  {
    ls', s' := Go(ttl, Init(ONE, 0), ls, s, Begin(2, DeleteCall("a")));
    ls', s' := Go(ttl, Init(ONE, 0), ls', s', Query(2, false));
    assert ONE - {"a"} == map[];
  }

  /** A whole Delete by client 2, while client 1 keeps what it holds. */
  lemma DeleteRuns(ttl: int, ls: seq<Label>, s: State, point: Point) returns (ls': seq<Label>, s': State)
    requires Scene(ttl, ls, s, point)
    ensures Runs(ttl, Init(ONE, 0), ls') && After(ttl, Init(ONE, 0), ls') == s' && Faultless(ls')
    ensures Returning(s', 2) && At(s', 2).call == DeleteCall("a") && At(s', 2).point.seen.response == Removed
    ensures s'.hist != [] && At(s', 1) == At(s, 1) && Last(s').rows == map[] && Last(s').now == 0 && s'.redis == map[]
  {
    ls', s' := RowIsDeleted(ttl, ls, s, point);
    ls', s' := Go(ttl, Init(ONE, 0), ls', s', Check(2, 0));
    ls', s' := Go(ttl, Init(ONE, 0), ls', s', CallRedis(2, Answered));
  }

  /** A Get that has read the table puts back an entry that a Delete has just removed: a stale entry
      without any failure. */
  lemma DeletedUrlComesBack(ttl: int) returns (ls: seq<Label>, s: State)
    requires ttl > 0
    ensures Runs(ttl, Init(ONE, 0), ls) && After(ttl, Init(ONE, 0), ls) == s && Faultless(ls)
    ensures Returning(s, 2) && At(s, 2).call == DeleteCall("a") && At(s, 2).point.seen.response == Removed
    ensures !Agrees(s, "a")
  {
    var before, at;
    ls, before, at := GetReads(ttl);
    ls, before := DeleteRuns(ttl, ls, before, FlightSet(0, Seen(Found("u"), at)));
    ls, s := Go(ttl, Init(ONE, 0), ls, before, CallRedis(1, Answered));
    assert s.redis["a"].url == "u" && s.redis["a"].deadline == ttl;
    assert Last(s).rows == map[];
  }

  // ---------- A late miss starts a second flight ----------

  /** Two Gets of one alias that both began before either was answered may read the table twice, and it
      has not changed: the second Get finds the first one's flight already forgotten. */
  lemma OverlappingGetsMayFlyTwice(ttl: int) returns (ls: seq<Label>, s: State)
    ensures Runs(ttl, Init(ONE, 0), ls) && After(ttl, Init(ONE, 0), ls) == s && Faultless(ls)
    ensures s.flights != [] && |s.flights| == 2 && s.flights[0].alias == s.flights[1].alias == "a"
    ensures At(s, 2).Busy? && At(s, 2).point.FlightCheck? && At(s, 2).point.flight == 1
    ensures Returning(s, 1) && At(s, 1).point.source == Shared(0)
    ensures At(s, 2).start < At(s, 1).point.seen.at < At(s, 2).point.seen.at
    ensures At(s, 1).point.seen.response == At(s, 2).point.seen.response == Found("u")
  {
    ls, s := GetMisses(ttl);
    ls, s := SecondMisses(ttl, ls, s);
    ls, s := FirstFlies(ttl, ls, s);
    ls, s := Go(ttl, Init(ONE, 0), ls, s, Enter(2));
    ls, s := Go(ttl, Init(ONE, 0), ls, s, Query(2, false));
  }

  predicate BothMissed(ttl: int, ls: seq<Label>, s: State) {
    Runs(ttl, Init(ONE, 0), ls) && After(ttl, Init(ONE, 0), ls) == s && Faultless(ls) &&
    s.hist != [] && Last(s).rows == ONE && Last(s).now == s.downUntil == 0 && s.redis == map[] &&
    s.group == map[] && s.flights == [] && At(s, 1) == Busy(GetCall("a"), 1, Join) &&
    At(s, 2).Busy? && At(s, 2).call == GetCall("a") && At(s, 2).point == Join && At(s, 2).start < |s.hist|
  }

  lemma SecondMisses(ttl: int, ls: seq<Label>, s: State) returns (ls': seq<Label>, s': State)
    requires Scene(ttl, ls, s, Join) && s.group == map[] && s.flights == []
    ensures BothMissed(ttl, ls', s')
  {
    ls', s' := Go(ttl, Init(ONE, 0), ls, s, Begin(2, GetCall("a")));
    ls', s' := Go(ttl, Init(ONE, 0), ls', s', Check(2, 0));
    ls', s' := Go(ttl, Init(ONE, 0), ls', s', CallRedis(2, Answered));
  }

  lemma FirstReads(ttl: int, ls: seq<Label>, s: State) returns (ls': seq<Label>, s': State)
    requires BothMissed(ttl, ls, s)
    ensures Runs(ttl, Init(ONE, 0), ls') && After(ttl, Init(ONE, 0), ls') == s' && Faultless(ls')
    ensures s'.hist != [] && Last(s').now == s'.downUntil == 0 && At(s', 2) == At(s, 2)
    ensures Last(s').rows == ONE && |s'.hist| > |s.hist| + 1
    ensures s'.group == map["a" := 0] && |s'.flights| == 1 && s'.flights[0].alias == "a"
    ensures At(s', 1) == Busy(GetCall("a"), 1, FlightCheck(0, Seen(Found("u"), |s.hist| + 1)))
    ensures Readable(s', 1, 0)
  {
    ls', s' := Go(ttl, Init(ONE, 0), ls, s, Enter(1));
    ls', s' := Go(ttl, Init(ONE, 0), ls', s', Query(1, false));
  }

  lemma FirstChecks(ttl: int, ls: seq<Label>, s: State) returns (ls': seq<Label>, s': State)
    requires BothMissed(ttl, ls, s)
    ensures Runs(ttl, Init(ONE, 0), ls') && After(ttl, Init(ONE, 0), ls') == s' && Faultless(ls')
    ensures s'.hist != [] && At(s', 2) == At(s, 2) && Last(s').rows == ONE && |s'.hist| > |s.hist| + 1
    ensures s'.group == map["a" := 0] && |s'.flights| == 1 && s'.flights[0].alias == "a"
    ensures At(s', 1) == Busy(GetCall("a"), 1, FlightSet(0, Seen(Found("u"), |s.hist| + 1)))
  {
    ls', s' := FirstReads(ttl, ls, s);
    ls', s' := Go(ttl, Init(ONE, 0), ls', s', Check(1, 0));
  }

  lemma FirstSets(ttl: int, ls: seq<Label>, s: State) returns (ls': seq<Label>, s': State)
    requires BothMissed(ttl, ls, s)
    ensures Runs(ttl, Init(ONE, 0), ls') && After(ttl, Init(ONE, 0), ls') == s' && Faultless(ls')
    ensures s'.hist != [] && At(s', 2) == At(s, 2) && Last(s').rows == ONE && |s'.hist| > |s.hist| + 1
    ensures s'.group == map["a" := 0] && |s'.flights| == 1 && s'.flights[0].alias == "a"
    ensures At(s', 1) == Busy(GetCall("a"), 1, FlightDone(0, Seen(Found("u"), |s.hist| + 1)))
  {
    ls', s' := FirstChecks(ttl, ls, s);
    ls', s' := Go(ttl, Init(ONE, 0), ls', s', CallRedis(1, Answered));
  }

  lemma FirstFlies(ttl: int, ls: seq<Label>, s: State) returns (ls': seq<Label>, s': State)
    requires BothMissed(ttl, ls, s)
    ensures Runs(ttl, Init(ONE, 0), ls') && After(ttl, Init(ONE, 0), ls') == s' && Faultless(ls')
    ensures s'.hist != [] && At(s', 2) == At(s, 2) && "a" !in s'.group
    ensures |s'.flights| == 1 && s'.flights[0].alias == "a"
    ensures At(s', 1) == Busy(GetCall("a"), 1, Return(Seen(Found("u"), |s.hist| + 1), Shared(0)))
    ensures Last(s').rows == ONE && |s'.hist| > |s.hist| + 1
  {
    ls', s' := FirstSets(ttl, ls, s);
    ls', s' := Go(ttl, Init(ONE, 0), ls', s', Land(1));
  }

  // ---------- A saved url is missed ----------

  /** The state of a run from an empty table with client 1 at a point of a Get. */
  predicate Empty(ttl: int, ls: seq<Label>, s: State, point: Point) {
    Runs(ttl, Init(map[], 0), ls) && After(ttl, Init(map[], 0), ls) == s && Faultless(ls) &&
    s.hist != [] && Last(s).rows == map[] && Last(s).now == s.downUntil == 0 &&
    At(s, 1) == Busy(GetCall("a"), 1, point) && At(s, 2).Idle?
  }

  lemma EmptyMisses(ttl: int) returns (ls: seq<Label>, s: State)
    ensures Empty(ttl, ls, s, Join) && s.group == map[] && s.flights == []
  {
    var s0 := Init(map[], 0);
    ls, s := Go(ttl, s0, [], s0, Begin(1, GetCall("a")));
    ls, s := Go(ttl, s0, ls, s, Check(1, 0));
    ls, s := Go(ttl, s0, ls, s, CallRedis(1, Answered));
  }

  /** A Get has read that there is no row, and is about to say so. */
  lemma FindsNothing(ttl: int) returns (ls: seq<Label>, s: State, at: nat)
    ensures Empty(ttl, ls, s, FlightDone(0, Seen(MISS, at)))
  {
    ls, s := EmptyMisses(ttl);
    ls, s := Go(ttl, Init(map[], 0), ls, s, Enter(1));
    at := |s.hist|;
    ls, s := Go(ttl, Init(map[], 0), ls, s, Query(1, false));
  }

  lemma RowIsSaved(ttl: int, ls: seq<Label>, s: State, point: Point) returns (ls': seq<Label>, s': State)
    requires Empty(ttl, ls, s, point)
    ensures Runs(ttl, Init(map[], 0), ls') && After(ttl, Init(map[], 0), ls') == s' && Faultless(ls')
    ensures s'.hist != [] && At(s', 1) == At(s, 1) && Readable(s', 2, 0) && s'.downUntil == 0
    ensures At(s', 2).Busy? && At(s', 2).call == SaveCall("u", "a") && At(s', 2).point.WriteCheck?
  {
    ls', s' := Go(ttl, Init(map[], 0), ls, s, Begin(2, SaveCall("u", "a")));
    ls', s' := Go(ttl, Init(map[], 0), ls', s', Query(2, false));
  }

  /** A Save runs and returns while the Get keeps what it holds. */
  lemma SaveRuns(ttl: int, ls: seq<Label>, s: State, point: Point) returns (ls': seq<Label>, s': State)
    requires Empty(ttl, ls, s, point)
    ensures Runs(ttl, Init(map[], 0), ls') && After(ttl, Init(map[], 0), ls') == s' && Faultless(ls')
    ensures s'.hist != [] && At(s', 1) == At(s, 1)
    ensures Returning(s', 2) && At(s', 2).call == SaveCall("u", "a") && At(s', 2).point.seen.response == Stored
  {
    ls', s' := RowIsSaved(ttl, ls, s, point);
    ls', s' := Go(ttl, Init(map[], 0), ls', s', Check(2, 0));
    ls', s' := Go(ttl, Init(map[], 0), ls', s', CallRedis(2, Answered));
  }

  /** A Get that begins after a Save has returned, with nothing ever deleted, answers that there is no such
      alias: its own Redis call fails, and it joins a flight that had read the table before the Save. */
  lemma SavedUrlIsMissed(ttl: int) returns (ls: seq<Label>, s: State, ls': seq<Label>, d: nat)
    ensures Runs(ttl, Init(map[], 0), ls) && After(ttl, Init(map[], 0), ls) == s && s.hist != []
    ensures Returning(s, 2) && At(s, 2).call == SaveCall("u", "a") && At(s, 2).point.seen.response == Stored
    ensures Runs(ttl, s, ls') && NoQuery(ls') && Misses(After(ttl, s, ls'), d, "a", |s.hist|)
  {
    var at;
    ls, s, at := FindsNothing(ttl);
    ls, s := SaveRuns(ttl, ls, s, FlightDone(0, Seen(MISS, at)));
    InitInv(ttl, map[], 0);
    RunKeepsInv(ttl, Init(map[], 0), ls);
    assert HoldsMiss(s.clients[1], "a");
    ls', d := MissReachesGet(ttl, s, "a");
  }

  // ---------- Failures closer than a cooldown ----------

  /** The state of a run with both clients inside a Get of the alias, at instant 0. */
  predicate BothAt(ttl: int, ls: seq<Label>, s: State, point: Point) {
    Runs(ttl, Init(ONE, 0), ls) && After(ttl, Init(ONE, 0), ls) == s && s.hist != [] && Last(s).now == 0 &&
    s.downUntil == 0 && At(s, 1).Busy? && At(s, 1).point == point && At(s, 2).Busy? && At(s, 2).point == point &&
    At(s, 3).Idle? && Readable(s, 1, 0) && Readable(s, 2, 0)
  }

  lemma BothBegin(ttl: int) returns (ls: seq<Label>, s: State)
    ensures BothAt(ttl, ls, s, ReadCheck)
  {
    ls, s := Go(ttl, Init(ONE, 0), [], Init(ONE, 0), Begin(1, GetCall("a")));
    ls, s := Go(ttl, Init(ONE, 0), ls, s, Begin(2, GetCall("a")));
  }

  lemma BothPass(ttl: int) returns (ls: seq<Label>, s: State)
    ensures BothAt(ttl, ls, s, ReadRedis)
  {
    ls, s := BothBegin(ttl);
    ls, s := Go(ttl, Init(ONE, 0), ls, s, Check(1, 0));
    ls, s := Go(ttl, Init(ONE, 0), ls, s, Check(2, 0));
  }

  /** Two Redis calls fail at one instant: both clients have passed the breaker before either trips it. */
  lemma BothFail(ttl: int) returns (ls: seq<Label>, s: State)
    ensures BothAt(ttl, ls, s, ReadMark)
  {
    ls, s := BothPass(ttl);
    ls, s := Go(ttl, Init(ONE, 0), ls, s, CallRedis(1, FailedBefore));
    ls, s := Go(ttl, Init(ONE, 0), ls, s, CallRedis(2, FailedBefore));
  }

  /** Client 1 marks its failure at instant 1, and then client 2 does, having read the clock at 0. */
  lemma MarksCross(ttl: int) returns (ls: seq<Label>, s: State)
    ensures Runs(ttl, Init(ONE, 0), ls) && After(ttl, Init(ONE, 0), ls) == s
    ensures s.hist != [] && Last(s).now == 1 && s.downUntil == 5_000_000_000 && At(s, 3).Idle?
    ensures Mark(1, 1) in ls
  {
    ls, s := BothFail(ttl);
    ls, s := Go(ttl, Init(ONE, 0), ls, s, Tick(1));
    ls, s := Go(ttl, Init(ONE, 0), ls, s, Mark(1, 1));
    ls, s := Go(ttl, Init(ONE, 0), ls, s, Mark(2, 0));
  }

  /** A mark that overtakes an older one is lost: less than a cooldown after the failure marked at instant 1
      the breaker lets client 3 through. */
  lemma MarkIsOvertaken(ttl: int) returns (ls: seq<Label>, s: State)
    ensures Runs(ttl, Init(ONE, 0), ls) && After(ttl, Init(ONE, 0), ls) == s && s.hist != [] && Mark(1, 1) in ls
    ensures Enabled(s, Check(3, 5_000_000_000)) && LetsThrough(ttl, s, 3, 5_000_000_000)
  {
    ls, s := MarksCross(ttl);
    ls, s := Go(ttl, Init(ONE, 0), ls, s, Tick(5_000_000_000 - 1));
    ls, s := Go(ttl, Init(ONE, 0), ls, s, Begin(3, GetCall("a")));
  }
}
