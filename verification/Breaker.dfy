/** What the circuit breaker promises when operations overlap. */
module Breaker {
  import opened Common
  import opened Storage
  import opened Interleaved
  import opened InterleavedInvariant
  import opened InterleavedTheorems

  /** The client's next step is a Redis call. */
  predicate ToRedis(point: Point) {
    point.ReadRedis? || point.WriteRedis? || point.FlightSet?
  }

  /** Check(c, read) lets client c through. */
  predicate LetsThrough(ttl: int, s: State, c: nat, read: int)
    requires s.hist != [] && Enabled(s, Check(c, read))
  {
    At(Step(ttl, s, Check(c, read)), c).Busy? && ToRedis(At(Step(ttl, s, Check(c, read)), c).point)
  }

  lemma LetsThroughIff(ttl: int, s: State, c: nat, read: int)
    requires s.hist != [] && Enabled(s, Check(c, read))
    ensures LetsThrough(ttl, s, c, read) <==> read >= s.downUntil
  {
  }

  lemma OnlyMarksTrip(ttl: int, s: State, l: Label)
    requires s.hist != [] && Enabled(s, l)
    ensures Step(ttl, s, l).downUntil == if l.Mark? then l.read + 5_000_000_000 else s.downUntil
  {
  }

  predicate NoMark(ls: seq<Label>) {
    forall l | l in ls :: !l.Mark?
  }

  lemma {:induction false} BreakerStays(ttl: int, s: State, ls: seq<Label>)
    requires s.hist != [] && Runs(ttl, s, ls) && NoMark(ls)
    ensures After(ttl, s, ls).downUntil == s.downUntil
    decreases ls
  {
    if ls != [] {
      OnlyMarksTrip(ttl, s, ls[0]);
      BreakerStays(ttl, Step(ttl, s, ls[0]), ls[1..]);
    }
  }

  /** From a mark that read r to the next mark, a check lets its client through exactly if it reads r plus
      five seconds or later. */
  lemma BreakerIsExact(ttl: int, s: State, c: nat, r: int, ls: seq<Label>, d: nat, x: int)
    requires s.hist != [] && Enabled(s, Mark(c, r)) && Runs(ttl, Step(ttl, s, Mark(c, r)), ls) && NoMark(ls)
    requires Enabled(After(ttl, Step(ttl, s, Mark(c, r)), ls), Check(d, x))
    ensures LetsThrough(ttl, After(ttl, Step(ttl, s, Mark(c, r)), ls), d, x) <==> x >= r + 5_000_000_000
  {
    OnlyMarksTrip(ttl, s, Mark(c, r));
    BreakerStays(ttl, Step(ttl, s, Mark(c, r)), ls);
    LetsThroughIff(ttl, After(ttl, Step(ttl, s, Mark(c, r)), ls), d, x);
  }

  // ---------- Spacing ----------

  /** No mark of the run read the clock before r. */
  predicate NoneOvertaken(ls: seq<Label>, r: int) {
    forall l | l in ls && l.Mark? :: l.read >= r
  }

  lemma {:induction false} BreakerStaysDown(ttl: int, s: State, ls: seq<Label>, r: int)
    requires s.hist != [] && Runs(ttl, s, ls) && NoneOvertaken(ls, r) && s.downUntil >= r + 5_000_000_000
    ensures After(ttl, s, ls).downUntil >= r + 5_000_000_000
    decreases ls
  {
    if ls != [] {
      OnlyMarksTrip(ttl, s, ls[0]);
      BreakerStaysDown(ttl, Step(ttl, s, ls[0]), ls[1..], r);
    }
  }

  /** The client's last step, and the clock, are no earlier than t. */
  predicate Since(s: State, d: nat, t: int)
    requires s.hist != []
  {
    d in s.since && t <= s.since[d] && t <= Last(s).now
  }

  lemma StepKeepsSince(ttl: int, s: State, l: Label, d: nat, t: int)
    requires s.hist != [] && Enabled(s, l) && Since(s, d, t)
    ensures Since(Step(ttl, s, l), d, t)
  {
  }

  lemma {:induction false} RunKeepsSince(ttl: int, s: State, ls: seq<Label>, d: nat, t: int)
    requires s.hist != [] && Runs(ttl, s, ls) && Since(s, d, t)
    ensures Since(After(ttl, s, ls), d, t)
    decreases ls
  {
    if ls != [] {
      StepKeepsSince(ttl, s, ls[0], d, t);
      RunKeepsSince(ttl, Step(ttl, s, ls[0]), ls[1..], d, t);
    }
  }

  /** Breaker spacing under concurrency.  Client c marks a failure, reading r.  Later a check lets client d
      through, and d fails and marks that, reading r'.  Then the two are a cooldown apart, unless a mark
      between the first one and the check had read the clock before it.  So failures of any two clients
      come closer than a cooldown only if the second's check came before the first's mark, or if marks
      overtook each other. */
  lemma FailuresAreSpaced(ttl: int, s: State, c: nat, r: int, ls: seq<Label>, d: nat, x: int, ls': seq<Label>, r': int)
    requires s.hist != [] && Enabled(s, Mark(c, r))
    requires Runs(ttl, Step(ttl, s, Mark(c, r)), ls) && NoneOvertaken(ls, r)
    requires var s2 := After(ttl, Step(ttl, s, Mark(c, r)), ls);
             Enabled(s2, Check(d, x)) && LetsThrough(ttl, s2, d, x) &&
             Runs(ttl, Step(ttl, s2, Check(d, x)), ls') &&
             Enabled(After(ttl, Step(ttl, s2, Check(d, x)), ls'), Mark(d, r'))
    ensures r' - r >= 5_000_000_000
  {
    var s1 := Step(ttl, s, Mark(c, r));
    var s2 := After(ttl, s1, ls);
    OnlyMarksTrip(ttl, s, Mark(c, r));
    BreakerStaysDown(ttl, s1, ls, r);
    LetsThroughIff(ttl, s2, d, x);
    CheckSince(ttl, s2, d, x);
    RunKeepsSince(ttl, Step(ttl, s2, Check(d, x)), ls', d, x);
  }

  lemma CheckSince(ttl: int, s: State, d: nat, x: int)
    requires s.hist != [] && Enabled(s, Check(d, x))
    ensures Since(Step(ttl, s, Check(d, x)), d, x)
  {
  }
}
