/** What the rate limiter guarantees over every schedule of requests and sweeps. */
module RateLimitTheorems {
  import opened RateLimit

  predicate Sound(p: Params) {
    p.rate >= 0.0 && p.burst >= 0.0 && p.ttl > 0.0
  }

  function At(e: Event): real {
    if e.Request? then e.now else e.readAt
  }

  /** The clock never goes back: requests read it under the mutex, a sweep read it some time
      before its turn, so a later request cannot be earlier than either. */
  predicate Ordered(evs: seq<Event>) {
    forall i, j | 0 <= i < j < |evs| && evs[j].Request? :: At(evs[i]) <= evs[j].now
  }

  /** t is not before any of the first n events. */
  predicate Clock(evs: seq<Event>, n: nat, t: real)
    requires n <= |evs|
  {
    forall i | 0 <= i < n :: At(evs[i]) <= t
  }

  predicate Of(e: Event, key: string) {
    e.Request? && e.key == key
  }

  /** A bucket that idles past ttl has refilled completely. */
  predicate RefillsWhileIdle(p: Params) {
    p.rate * p.ttl >= p.burst
  }

  /** Sweeps only evict buckets that are full again, or there are none. */
  predicate Harmless(p: Params, evs: seq<Event>) {
    RefillsWhileIdle(p) || forall i | 0 <= i < |evs| :: evs[i].Request?
  }

  // ---------- The table along a run ----------

  predicate Upto(p: Params, table: Table, t: real) {
    forall k | k in table :: 0.0 <= table[k].tokens <= p.burst && table[k].lastSeen <= t
  }

  lemma Elapse(p: Params, a: real, b: real, c: real)
    ensures Gained(p, a, c) == Gained(p, a, b) + Gained(p, b, c)
    ensures Gained(p, a, a) == 0.0
  {
  }

  lemma NothingIsLost(p: Params, a: real, b: real)
    requires Sound(p) && a <= b
    ensures Gained(p, a, b) >= 0.0
  {
  }

  lemma AvailableInRange(p: Params, table: Table, key: string, now: real)
    requires Sound(p) && Upto(p, table, now)
    ensures 0.0 <= Available(p, table, key, now) <= p.burst
    ensures key !in table ==> Available(p, table, key, now) == p.burst
  {
    if key in table {
      NothingIsLost(p, table[key].lastSeen, now);
    } else {
      assert Gained(p, now, now) == 0.0;
    }
  }

  lemma RequestUpto(p: Params, table: Table, key: string, now: real)
    requires Sound(p) && Upto(p, table, now)
    ensures Upto(p, AfterRequest(p, table, key, now), now)
  {
    AvailableInRange(p, table, key, now);
  }

  lemma {:induction false} RunUpto(p: Params, evs: seq<Event>, n: nat, t: real)
    requires Sound(p) && Ordered(evs) && n <= |evs| && Clock(evs, n, t)
    ensures Upto(p, Run(p, evs, n), t)
  {
    if n > 0 {
      match evs[n - 1]
      case Request(key, now) =>
        RunUpto(p, evs, n - 1, now);
        RequestUpto(p, Run(p, evs, n - 1), key, now);
      case Sweep(_) =>
        RunUpto(p, evs, n - 1, t);
    }
  }

  /** Refilling in two steps is refilling once. */
  lemma RefillComposes(p: Params, level: Level, now: real, t: real)
    requires Sound(p) && level.lastSeen <= now <= t
    ensures Refill(p, Level(Refill(p, level, now), now), t) == Refill(p, level, t)
  {
    NothingIsLost(p, now, t);
    Elapse(p, level.lastSeen, now, t);
  }

  lemma LongerGainsMore(short: real, long: real, rate: real)
    requires short <= long && rate >= 0.0
    ensures rate * short <= long * rate
  {
    assert (long - short) * rate >= 0.0;
  }

  lemma IdleBucketIsFull(p: Params, level: Level, readAt: real, t: real)
    requires Sound(p) && RefillsWhileIdle(p)
    requires level.tokens >= 0.0 && level.lastSeen < readAt - p.ttl && readAt <= t
    ensures Refill(p, level, t) == p.burst
  {
    LongerGainsMore(p.ttl, t - level.lastSeen, p.rate);
    assert Gained(p, level.lastSeen, t) >= p.burst;
  }

  /** What one event does to the tokens `key` will find at any later instant t. */
  lemma StepAvailable(p: Params, table: Table, e: Event, key: string, t: real)
    requires Sound(p) && At(e) <= t
    requires e.Request? ==> Upto(p, table, e.now)
    requires e.Sweep? ==> Upto(p, table, t) && RefillsWhileIdle(p)
    ensures Available(p, Step(p, table, e), key, t) ==
            if Of(e, key) then
              var found := Available(p, table, key, e.now);
              Refill(p, Level(if found < 1.0 then found else found - 1.0, e.now), t)
            else Available(p, table, key, t)
    ensures Of(e, key) && !Allows(p, table, key, e.now) ==>
              Available(p, Step(p, table, e), key, t) == Available(p, table, key, t)
  {
    if Of(e, key) {
      NothingIsLost(p, e.now, t);
      if key in table {
        RefillComposes(p, table[key], e.now, t);
      }
    } else if e.Sweep? && key in table && table[key].lastSeen < e.readAt - p.ttl {
      IdleBucketIsFull(p, table[key], e.readAt, t);
    }
  }

  // ---------- Erasing events ----------

  /** The first n events of a schedule, keeping only those the mask keeps. */
  function Kept(evs: seq<Event>, keep: seq<bool>, n: nat): seq<Event>
    requires n <= |evs| == |keep|
  {
    if n == 0 then [] else Kept(evs, keep, n - 1) + if keep[n - 1] then [evs[n - 1]] else []
  }

  /** Where event i lands once the dropped events before it are gone. */
  function Rank(keep: seq<bool>, i: nat): nat
    requires i <= |keep|
  {
    if i == 0 then 0 else Rank(keep, i - 1) + if keep[i - 1] then 1 else 0
  }

  lemma {:induction false} KeptAt(evs: seq<Event>, keep: seq<bool>, i: nat, n: nat)
    requires i <= n <= |evs| == |keep|
    ensures |Kept(evs, keep, n)| == Rank(keep, n) && Rank(keep, i) <= Rank(keep, n)
    ensures Kept(evs, keep, i) <= Kept(evs, keep, n)
    ensures i < n && keep[i] ==> Rank(keep, i) < Rank(keep, n) && Kept(evs, keep, n)[Rank(keep, i)] == evs[i]
  {
    if i < n {
      KeptAt(evs, keep, i, n - 1);
    } else if n > 0 {
      KeptAt(evs, keep, n - 1, n - 1);
    }
  }

  /** Nothing that mattered to `key` is dropped: only requests of other keys and, when sweeps are
      harmless, sweeps and denied requests.  (A denied request keeps its bucket from being swept.) */
  predicate Erasable(p: Params, evs: seq<Event>, keep: seq<bool>, key: string)
    requires |keep| == |evs|
  {
    forall i | 0 <= i < |evs| && !keep[i] ::
      (evs[i].Request? && evs[i].key != key) ||
      (Harmless(p, evs) && !(Of(evs[i], key) && Admitted(p, evs, i)))
  }

  /** The run on the kept events, at the point that corresponds to the first n of all of them. */
  function KeptRun(p: Params, evs: seq<Event>, keep: seq<bool>, n: nat): Table
    requires n <= |evs| == |keep|
  {
    Run(p, Kept(evs, keep, n), |Kept(evs, keep, n)|)
  }

  lemma KeptRunStep(p: Params, evs: seq<Event>, keep: seq<bool>, n: nat)
    requires 0 < n <= |evs| == |keep|
    ensures KeptRun(p, evs, keep, n) ==
            if keep[n - 1] then Step(p, KeptRun(p, evs, keep, n - 1), evs[n - 1]) else KeptRun(p, evs, keep, n - 1)
  {
    var shorter := Kept(evs, keep, n - 1);
    if keep[n - 1] {
      RunIgnoresLaterEvents(p, shorter, [evs[n - 1]], |shorter|);
    } else {
      assert Kept(evs, keep, n) == shorter;
    }
  }

  lemma {:induction false} KeptUpto(p: Params, evs: seq<Event>, keep: seq<bool>, n: nat, t: real)
    requires Sound(p) && Ordered(evs) && n <= |evs| == |keep| && Clock(evs, n, t)
    ensures Upto(p, KeptRun(p, evs, keep, n), t)
  {
    if n > 0 {
      KeptRunStep(p, evs, keep, n);
      var e := evs[n - 1];
      if e.Request? {
        KeptUpto(p, evs, keep, n - 1, e.now);
        RequestUpto(p, KeptRun(p, evs, keep, n - 1), e.key, e.now);
      } else {
        KeptUpto(p, evs, keep, n - 1, t);
      }
    }
  }

  /** One event, kept or erased, leaves the two runs with the same tokens for `key`. */
  lemma SameAfterRequest(p: Params, full: Table, part: Table, e: Event, kept: bool, key: string, t: real)
    requires Sound(p) && e.Request? && e.now <= t && Upto(p, full, e.now) && Upto(p, part, e.now)
    requires Available(p, full, key, e.now) == Available(p, part, key, e.now)
    requires Available(p, full, key, t) == Available(p, part, key, t)
    requires kept || !Of(e, key) || !Allows(p, full, key, e.now)
    ensures Available(p, Step(p, full, e), key, t) == Available(p, if kept then Step(p, part, e) else part, key, t)
  {
    StepAvailable(p, full, e, key, t);
    if kept {
      StepAvailable(p, part, e, key, t);
    }
  }

  lemma SameAfterSweep(p: Params, full: Table, part: Table, e: Event, kept: bool, key: string, t: real)
    requires Sound(p) && RefillsWhileIdle(p) && e.Sweep? && e.readAt <= t && Upto(p, full, t) && Upto(p, part, t)
    requires Available(p, full, key, t) == Available(p, part, key, t)
    ensures Available(p, Step(p, full, e), key, t) == Available(p, if kept then Step(p, part, e) else part, key, t)
  {
    StepAvailable(p, full, e, key, t);
    if kept {
      StepAvailable(p, part, e, key, t);
    }
  }

  lemma {:induction false} SameAvailable(p: Params, evs: seq<Event>, keep: seq<bool>, key: string, n: nat, t: real)
    requires Sound(p) && Harmless(p, evs) && Ordered(evs) && n <= |evs| == |keep|
    requires Erasable(p, evs, keep, key) && Clock(evs, n, t)
    ensures Available(p, Run(p, evs, n), key, t) == Available(p, KeptRun(p, evs, keep, n), key, t)
  {
    if n > 0 {
      var e := evs[n - 1];
      var full, part, kept := Run(p, evs, n - 1), KeptRun(p, evs, keep, n - 1), keep[n - 1];
      var until := if e.Request? then e.now else t;
      KeptRunStep(p, evs, keep, n);
      RunUpto(p, evs, n - 1, until);
      KeptUpto(p, evs, keep, n - 1, until);
      SameAvailable(p, evs, keep, key, n - 1, t);
      if e.Request? {
        SameAvailable(p, evs, keep, key, n - 1, e.now);
        SameAfterRequest(p, full, part, e, kept, key, t);
      } else {
        SameAfterSweep(p, full, part, e, kept, key, t);
      }
    }
  }

  /** The two tables hold the same bucket for `key`, or none. */
  predicate SameBucket(table: Table, table': Table, key: string) {
    (key in table <==> key in table') && (key in table ==> table[key] == table'[key])
  }

  /** Requests of other keys do not touch the bucket of `key`, swept or not. */
  lemma {:induction false} OthersDoNotTouch(p: Params, evs: seq<Event>, keep: seq<bool>, key: string, n: nat)
    requires n <= |evs| == |keep|
    requires forall i | 0 <= i < |evs| && !keep[i] :: evs[i].Request? && evs[i].key != key
    ensures SameBucket(Run(p, evs, n), KeptRun(p, evs, keep, n), key)
  {
    if n > 0 {
      KeptRunStep(p, evs, keep, n);
      OthersDoNotTouch(p, evs, keep, key, n - 1);
      var full, part := Run(p, evs, n - 1), KeptRun(p, evs, keep, n - 1);
      assert forall now | SameBucket(full, part, key) :: Available(p, full, key, now) == Available(p, part, key, now);
    }
  }

  /** Dropping requests of other keys changes no decision on `key`; where sweeps are harmless, neither
      does dropping sweeps and denied requests. */
  lemma ErasureTheorem(p: Params, evs: seq<Event>, keep: seq<bool>, key: string, i: nat)
    requires Sound(p) && Ordered(evs) && |keep| == |evs|
    requires Erasable(p, evs, keep, key)
    requires i < |evs| && keep[i] && Of(evs[i], key)
    ensures var kept := Kept(evs, keep, |evs|);
            Rank(keep, i) < |kept| && kept[Rank(keep, i)] == evs[i] &&
            (Admitted(p, evs, i) <==> Admitted(p, kept, Rank(keep, i)))
  {
    KeptAt(evs, keep, i, |evs|);
    KeptAt(evs, keep, i, i);
    var kept, before := Kept(evs, keep, |evs|), Kept(evs, keep, i);
    assert kept == before + kept[|before|..];
    RunIgnoresLaterEvents(p, before, kept[|before|..], |before|);
    if Harmless(p, evs) {
      SameAvailable(p, evs, keep, key, i, evs[i].now);
    } else {
      OthersDoNotTouch(p, evs, keep, key, i);
    }
  }

  /** The mask of the requests of one key, and of the sweeps if asked for. */
  function OnlyKey(evs: seq<Event>, key: string, sweeps: bool): seq<bool> {
    seq(|evs|, i requires 0 <= i < |evs| => Of(evs[i], key) || (sweeps && evs[i].Sweep?))
  }

  /** Keys are independent: the shared table decides each key as a limiter that sees only that key's
      requests and the sweeps; and where sweeps are harmless, as one that never evicts. */
  lemma IndependentBuckets(p: Params, evs: seq<Event>, key: string, i: nat, sweeps: bool)
    requires Sound(p) && Ordered(evs) && i < |evs| && Of(evs[i], key)
    requires sweeps || Harmless(p, evs)
    ensures var mask := OnlyKey(evs, key, sweeps);
            var alone := Kept(evs, mask, |evs|);
            (forall e | e in alone :: Of(e, key) || (sweeps && e.Sweep?)) && Rank(mask, i) < |alone| &&
            (Admitted(p, evs, i) <==> Admitted(p, alone, Rank(mask, i)))
  {
    ErasureTheorem(p, evs, OnlyKey(evs, key, sweeps), key, i);
    OnlyKeyKeepsKey(evs, key, sweeps, |evs|);
  }

  lemma {:induction false} OnlyKeyKeepsKey(evs: seq<Event>, key: string, sweeps: bool, n: nat)
    requires n <= |evs|
    ensures forall e | e in Kept(evs, OnlyKey(evs, key, sweeps), n) :: Of(e, key) || (sweeps && e.Sweep?)
  {
    if n > 0 {
      OnlyKeyKeepsKey(evs, key, sweeps, n - 1);
    }
  }

  // ---------- Buckets driven by a selection ----------

  /** The limiter's own selection of the events of a schedule. */
  function Decisions(p: Params, evs: seq<Event>): seq<bool> {
    seq(|evs|, i requires 0 <= i < |evs| => Admitted(p, evs, i))
  }

  /** Requests of `key` selected among the events j .. n-1. */
  function Count(evs: seq<Event>, sel: seq<bool>, key: string, j: nat, n: nat): nat
    requires n <= |evs| == |sel|
  {
    if n <= j then 0
    else Count(evs, sel, key, j, n - 1) + if Of(evs[n - 1], key) && sel[n - 1] then 1 else 0
  }

  /** Event k sweeps the bucket of `key` away: none of the requests before it is recent. */
  predicate Forgets(p: Params, evs: seq<Event>, k: nat, key: string)
    requires k < |evs|
  {
    evs[k].Sweep? && forall j | 0 <= j < k && Of(evs[j], key) :: evs[j].now < evs[k].readAt - p.ttl
  }

  /** No sweep among the events j .. n-1 sweeps the bucket away. */
  predicate Remembered(p: Params, evs: seq<Event>, key: string, j: nat, n: nat)
    requires n <= |evs|
  {
    forall k | j <= k < n :: !Forgets(p, evs, k, key)
  }

  /** The tokens of `key` at t when exactly the selected requests are served; negative when the
      selection overdraws the bucket.  A bucket that is swept away comes back full. */
  function Left(p: Params, evs: seq<Event>, sel: seq<bool>, key: string, n: nat, t: real): real
    requires n <= |evs| == |sel|
  {
    if n == 0 then p.burst
    else
      var e := evs[n - 1];
      if Of(e, key) then
        var left := Left(p, evs, sel, key, n - 1, e.now);
        Refill(p, Level(if sel[n - 1] then left - 1.0 else left, e.now), t)
      else if Forgets(p, evs, n - 1, key) then p.burst
      else Left(p, evs, sel, key, n - 1, t)
  }

  /** A bucket was last seen at the latest request of its key. */
  lemma {:induction false} LastSeenIsLatest(p: Params, evs: seq<Event>, key: string, n: nat)
    requires Ordered(evs) && n <= |evs| && key in Run(p, evs, n)
    ensures var seen := Run(p, evs, n)[key].lastSeen;
            (exists j :: 0 <= j < n && Of(evs[j], key) && evs[j].now == seen) &&
            forall j | 0 <= j < n && Of(evs[j], key) :: evs[j].now <= seen
  {
    if !Of(evs[n - 1], key) {
      LastSeenIsLatest(p, evs, key, n - 1);
    }
  }

  /** A sweep evicts the bucket of `key`, if there is one, exactly when it forgets it. */
  lemma SweepForgets(p: Params, evs: seq<Event>, key: string, n: nat, t: real)
    requires Sound(p) && Ordered(evs) && 0 < n <= |evs| && evs[n - 1].Sweep?
    ensures Available(p, Run(p, evs, n), key, t) ==
            if Forgets(p, evs, n - 1, key) then p.burst else Available(p, Run(p, evs, n - 1), key, t)
  {
    assert Gained(p, t, t) == 0.0;
    if key in Run(p, evs, n - 1) {
      LastSeenIsLatest(p, evs, key, n - 1);
    }
  }

  /** The limiter is the bucket driven by its own decisions. */
  lemma {:induction false} AvailableIsLeft(p: Params, evs: seq<Event>, key: string, n: nat, t: real)
    requires Sound(p) && Ordered(evs) && n <= |evs| && Clock(evs, n, t)
    ensures Available(p, Run(p, evs, n), key, t) == Left(p, evs, Decisions(p, evs), key, n, t)
  {
    if n == 0 {
      assert Gained(p, t, t) == 0.0;
    } else {
      var e := evs[n - 1];
      if e.Sweep? {
        SweepForgets(p, evs, key, n, t);
        AvailableIsLeft(p, evs, key, n - 1, t);
      } else {
        RunUpto(p, evs, n - 1, e.now);
        StepAvailable(p, Run(p, evs, n - 1), e, key, t);
        AvailableIsLeft(p, evs, key, n - 1, if Of(e, key) then e.now else t);
      }
    }
  }

  /** What the tokens spent since request j leave of a bucket that was full then. */
  function Allowance(p: Params, evs: seq<Event>, sel: seq<bool>, key: string, j: nat, n: nat, t: real): real
    requires j < |evs| == |sel| && n <= |evs| && evs[j].Request?
  {
    p.burst + Gained(p, evs[j].now, t) - Count(evs, sel, key, j, n) as real
  }

  lemma AllowanceMoves(p: Params, evs: seq<Event>, sel: seq<bool>, key: string, j: nat, n: nat, t: real)
    requires j < n - 1 && n <= |evs| == |sel| && Of(evs[j], key) && Of(evs[n - 1], key)
    ensures Allowance(p, evs, sel, key, j, n, t) ==
            Allowance(p, evs, sel, key, j, n - 1, evs[n - 1].now) + Gained(p, evs[n - 1].now, t)
            - (if sel[n - 1] then 1.0 else 0.0)
  {
    Elapse(p, evs[j].now, evs[n - 1].now, t);
  }

  /** The tokens left are the least allowance over the requests since the bucket was last swept away:
      w is the request that attains it, or -1 when the bucket is full. */
  lemma {:induction false} LeftIsLeastAllowance(p: Params, evs: seq<Event>, sel: seq<bool>,
                                                key: string, n: nat, t: real)
    returns (w: int)
    requires n <= |evs| == |sel|
    ensures Left(p, evs, sel, key, n, t) <= p.burst
    ensures forall j | 0 <= j < n && Of(evs[j], key) && Remembered(p, evs, key, j, n) ::
              Left(p, evs, sel, key, n, t) <= Allowance(p, evs, sel, key, j, n, t)
    ensures w == -1 || (0 <= w < n && Of(evs[w], key) && Remembered(p, evs, key, w, n))
    ensures Left(p, evs, sel, key, n, t) == if w == -1 then p.burst else Allowance(p, evs, sel, key, w, n, t)
  {
    w := -1;
    if n > 0 {
      var e := evs[n - 1];
      if Of(e, key) {
        var v := LeftIsLeastAllowance(p, evs, sel, key, n - 1, e.now);
        forall j | 0 <= j < n - 1 && Of(evs[j], key) {
          AllowanceMoves(p, evs, sel, key, j, n, t);
        }
        assert forall j | 0 <= j < n && Remembered(p, evs, key, j, n) :: Remembered(p, evs, key, j, n - 1);
        assert Count(evs, sel, key, n - 1, n - 1) == 0;
        if Left(p, evs, sel, key, n, t) != p.burst {
          w := if v == -1 then n - 1 else v;
        }
      } else if !Forgets(p, evs, n - 1, key) {
        w := LeftIsLeastAllowance(p, evs, sel, key, n - 1, t);
      }
    }
  }

  // ---------- Exact admission ----------

  lemma AllowanceAtOnce(p: Params, evs: seq<Event>, sel: seq<bool>, key: string, i: nat)
    requires i < |evs| == |sel| && evs[i].Request?
    ensures Allowance(p, evs, sel, key, i, i, evs[i].now) == p.burst
  {
    assert Gained(p, evs[i].now, evs[i].now) == 0.0;
  }

  /** The requests selected since request j and request i fit into burst and what comes back between. */
  predicate Room(p: Params, evs: seq<Event>, sel: seq<bool>, key: string, j: nat, i: nat)
    requires j <= i < |evs| == |sel| && evs[j].Request? && evs[i].Request?
  {
    Count(evs, sel, key, j, i) as real + 1.0 <= p.burst + Gained(p, evs[j].now, evs[i].now)
  }

  /** A whole token is left iff every window from a remembered request has room for one more. */
  lemma TokenLeftIff(p: Params, evs: seq<Event>, sel: seq<bool>, key: string, i: nat)
    requires i < |evs| == |sel| && Of(evs[i], key)
    ensures Left(p, evs, sel, key, i, evs[i].now) >= 1.0 <==>
            forall j | 0 <= j <= i && Of(evs[j], key) && Remembered(p, evs, key, j, i) :: Room(p, evs, sel, key, j, i)
  {
    var w := LeftIsLeastAllowance(p, evs, sel, key, i, evs[i].now);
    AllowanceAtOnce(p, evs, sel, key, i);
    forall j | 0 <= j <= i && Of(evs[j], key)
      ensures Room(p, evs, sel, key, j, i) <==> Allowance(p, evs, sel, key, j, i, evs[i].now) >= 1.0
    {
    }
    if Room(p, evs, sel, key, i, i) {
      assert Remembered(p, evs, key, i, i);
    }
  }

  /** Exact admission, for every limiter and schedule: a request passes iff no window that starts at a
      request of its key since the bucket was last swept away, and ends with it, would hold more than
      burst plus what the window refills. */
  lemma ExactAdmission(p: Params, evs: seq<Event>, key: string, i: nat)
    requires Sound(p) && Ordered(evs) && i < |evs| && Of(evs[i], key)
    ensures Admitted(p, evs, i) <==>
            forall j | 0 <= j <= i && Of(evs[j], key) && Remembered(p, evs, key, j, i) ::
              Room(p, evs, Decisions(p, evs), key, j, i)
  {
    AvailableIsLeft(p, evs, key, i, evs[i].now);
    TokenLeftIff(p, evs, Decisions(p, evs), key, i);
  }

  // ---------- Selections ----------

  /** Serving exactly this selection never takes a token that is not there. */
  predicate Feasible(p: Params, evs: seq<Event>, sel: seq<bool>, key: string)
    requires |sel| == |evs|
  {
    forall i | 0 <= i < |evs| && Of(evs[i], key) && sel[i] :: Left(p, evs, sel, key, i, evs[i].now) >= 1.0
  }

  lemma DecisionsAreFeasible(p: Params, evs: seq<Event>, key: string)
    requires Sound(p) && Ordered(evs)
    ensures Feasible(p, evs, Decisions(p, evs), key)
  {
    forall i | 0 <= i < |evs| && Of(evs[i], key) && Decisions(p, evs)[i]
      ensures Left(p, evs, Decisions(p, evs), key, i, evs[i].now) >= 1.0
    {
      AvailableIsLeft(p, evs, key, i, evs[i].now);
    }
  }

  /** A limiter with the burst of p that refills no slower and is swept no later. */
  predicate AsGenerous(q: Params, p: Params) {
    q.burst == p.burst && q.rate >= p.rate && q.ttl <= p.ttl
  }

  lemma FasterGainsMore(p: Params, q: Params, from: real, to: real)
    requires p.rate <= q.rate && from <= to
    ensures Gained(p, from, to) <= Gained(q, from, to)
  {
    assert (to - from) * (q.rate - p.rate) >= 0.0;
  }

  lemma {:induction false} GenerousLeavesMore(p: Params, q: Params, evs: seq<Event>, sel: seq<bool>,
                                              key: string, n: nat, t: real)
    requires AsGenerous(q, p) && Ordered(evs) && n <= |evs| == |sel| && Clock(evs, n, t)
    ensures Left(p, evs, sel, key, n, t) <= Left(q, evs, sel, key, n, t)
  {
    if n > 0 {
      var e := evs[n - 1];
      if Of(e, key) {
        GenerousLeavesMore(p, q, evs, sel, key, n - 1, e.now);
        FasterGainsMore(p, q, e.now, t);
      } else if !Forgets(p, evs, n - 1, key) {
        var _ := LeftIsLeastAllowance(p, evs, sel, key, n - 1, t);
        GenerousLeavesMore(p, q, evs, sel, key, n - 1, t);
      } else {
        assert Forgets(q, evs, n - 1, key);
      }
    }
  }

  lemma GenerousIsFeasible(p: Params, q: Params, evs: seq<Event>, sel: seq<bool>, key: string)
    requires AsGenerous(q, p) && Ordered(evs) && |evs| == |sel| && Feasible(p, evs, sel, key)
    ensures Feasible(q, evs, sel, key)
  {
    forall i | 0 <= i < |evs| && Of(evs[i], key) && sel[i]
      ensures Left(q, evs, sel, key, i, evs[i].now) >= 1.0
    {
      GenerousLeavesMore(p, q, evs, sel, key, i, evs[i].now);
    }
  }

  // ---------- Windows of time ----------

  lemma {:induction false} LeftIsNotNegative(p: Params, evs: seq<Event>, sel: seq<bool>, key: string, n: nat, t: real)
    requires Sound(p) && Ordered(evs) && n <= |evs| == |sel| && Clock(evs, n, t) && Feasible(p, evs, sel, key)
    ensures Left(p, evs, sel, key, n, t) >= 0.0
  {
    if n > 0 {
      var e := evs[n - 1];
      if Of(e, key) {
        LeftIsNotNegative(p, evs, sel, key, n - 1, e.now);
        NothingIsLost(p, e.now, t);
      } else {
        LeftIsNotNegative(p, evs, sel, key, n - 1, t);
      }
    }
  }

  /** Where a bucket refills within ttl, one that is old enough to be swept is full. */
  lemma {:induction false} OldBucketIsFull(p: Params, evs: seq<Event>, sel: seq<bool>, key: string,
                                           n: nat, readAt: real, t: real)
    requires Sound(p) && RefillsWhileIdle(p) && Ordered(evs) && n <= |evs| == |sel| && Clock(evs, n, t)
    requires Feasible(p, evs, sel, key) && readAt <= t
    requires forall j | 0 <= j < n && Of(evs[j], key) :: evs[j].now < readAt - p.ttl
    ensures Left(p, evs, sel, key, n, t) == p.burst
  {
    if n > 0 {
      var e := evs[n - 1];
      if Of(e, key) {
        LeftIsNotNegative(p, evs, sel, key, n - 1, e.now);
        var left := Left(p, evs, sel, key, n - 1, e.now);
        IdleBucketIsFull(p, Level(if sel[n - 1] then left - 1.0 else left, e.now), readAt, t);
      } else {
        OldBucketIsFull(p, evs, sel, key, n - 1, readAt, t);
      }
    }
  }

  /** Where sweeps are harmless, every window counts: not only those since the last sweep. */
  lemma {:induction false} LeftBelowAllowance(p: Params, evs: seq<Event>, sel: seq<bool>, key: string,
                                              j: nat, n: nat, t: real)
    requires Sound(p) && Harmless(p, evs) && Ordered(evs) && j < n <= |evs| == |sel| && Clock(evs, n, t)
    requires Feasible(p, evs, sel, key) && Of(evs[j], key)
    ensures Left(p, evs, sel, key, n, t) <= Allowance(p, evs, sel, key, j, n, t)
  {
    var e := evs[n - 1];
    if Of(e, key) {
      if j < n - 1 {
        LeftBelowAllowance(p, evs, sel, key, j, n - 1, e.now);
        AllowanceMoves(p, evs, sel, key, j, n, t);
      } else {
        var _ := LeftIsLeastAllowance(p, evs, sel, key, n, t);
        assert Remembered(p, evs, key, j, n);
      }
    } else {
      LeftBelowAllowance(p, evs, sel, key, j, n - 1, t);
      if Forgets(p, evs, n - 1, key) {
        OldBucketIsFull(p, evs, sel, key, n - 1, e.readAt, t);
      }
    }
  }

  /** What p admits fits into the windows of any limiter q as generous whose sweeps are harmless. */
  lemma AdmittedHasRoom(p: Params, q: Params, evs: seq<Event>, key: string, j: nat, i: nat)
    requires Sound(p) && Sound(q) && AsGenerous(q, p) && Harmless(q, evs) && Ordered(evs)
    requires j <= i < |evs| && Of(evs[j], key) && Of(evs[i], key) && Admitted(p, evs, i)
    ensures Room(q, evs, Decisions(p, evs), key, j, i)
  {
    var own := Decisions(p, evs);
    DecisionsAreFeasible(p, evs, key);
    GenerousIsFeasible(p, q, evs, own, key);
    assert Left(q, evs, own, key, i, evs[i].now) >= 1.0;
    if j < i {
      LeftBelowAllowance(q, evs, own, key, j, i, evs[i].now);
    } else {
      var _ := LeftIsLeastAllowance(q, evs, own, key, i, evs[i].now);
      AllowanceAtOnce(q, evs, own, key, i);
    }
  }

  /** Exact admission where sweeps are harmless: a request passes iff every window from an earlier
      request of its key has room for it. */
  lemma HarmlessAdmission(p: Params, evs: seq<Event>, key: string, i: nat)
    requires Sound(p) && Harmless(p, evs) && Ordered(evs) && i < |evs| && Of(evs[i], key)
    ensures Admitted(p, evs, i) <==>
            forall j | 0 <= j <= i && Of(evs[j], key) :: Room(p, evs, Decisions(p, evs), key, j, i)
  {
    ExactAdmission(p, evs, key, i);
    if Admitted(p, evs, i) {
      forall j | 0 <= j <= i && Of(evs[j], key)
        ensures Room(p, evs, Decisions(p, evs), key, j, i)
      {
        AdmittedHasRoom(p, p, evs, key, j, i);
      }
    }
  }

  /** Admitted requests of `key`, among the first n events, at instants in [from, to]. */
  function AdmittedWithin(p: Params, evs: seq<Event>, key: string, from: real, to: real, n: nat): nat
    requires n <= |evs|
  {
    if n == 0 then 0
    else AdmittedWithin(p, evs, key, from, to, n - 1) +
         if Of(evs[n - 1], key) && Admitted(p, evs, n - 1) && from <= evs[n - 1].now <= to then 1 else 0
  }

  lemma WindowEndingAt(p: Params, q: Params, evs: seq<Event>, key: string, from: real, to: real, i: nat)
    requires Sound(p) && Sound(q) && AsGenerous(q, p) && Harmless(q, evs) && Ordered(evs)
    requires i < |evs| && Of(evs[i], key) && Admitted(p, evs, i) && from <= evs[i].now <= to
    ensures AdmittedWithin(p, evs, key, from, to, i) as real + 1.0 <= p.burst + Gained(q, from, to)
  {
    var j := FirstSince(p, evs, key, from, to, i);
    AdmittedHasRoom(p, q, evs, key, j, i);
    WiderWindow(q, from, evs[j].now, evs[i].now, to);
    FewerFit(p.burst, AdmittedWithin(p, evs, key, from, to, i), Count(evs, Decisions(p, evs), key, j, i),
             Gained(q, evs[j].now, evs[i].now), Gained(q, from, to));
  }

  lemma FewerFit(burst: real, a: nat, c: nat, x: real, y: real)
    requires a <= c && c as real + 1.0 <= burst + x && x <= y
    ensures a as real + 1.0 <= burst + y
  {
  }

  lemma WiderWindow(p: Params, a: real, b: real, c: real, d: real)
    requires Sound(p) && a <= b && c <= d
    ensures Gained(p, b, c) <= Gained(p, a, d)
  {
    assert ((d - a) - (c - b)) * p.rate >= 0.0;
  }

  /** No window of time ever admits more than burst plus what `rate` refills in it, for any rate that is
      at least the limiter's own and at which sweeps would be harmless. */
  lemma {:induction false} WindowBound(p: Params, rate: real, evs: seq<Event>, key: string,
                                       from: real, to: real, n: nat)
    requires Sound(p) && rate >= p.rate && Harmless(p.(rate := rate), evs)
    requires Ordered(evs) && n <= |evs| && from <= to
    ensures AdmittedWithin(p, evs, key, from, to, n) as real <= p.burst + Gained(p.(rate := rate), from, to)
  {
    var q := p.(rate := rate);
    NothingIsLost(q, from, to);
    if n > 0 {
      var e := evs[n - 1];
      if Of(e, key) && Admitted(p, evs, n - 1) && from <= e.now <= to {
        WindowEndingAt(p, q, evs, key, from, to, n - 1);
      } else {
        WindowBound(p, rate, evs, key, from, to, n - 1);
      }
    }
  }

  /** The rate at which tokens can come back, by refilling or by being swept. */
  function EffectiveRate(p: Params): real
    requires Sound(p)
  {
    if RefillsWhileIdle(p) then p.rate else p.burst / p.ttl
  }

  lemma EffectiveRateCovers(p: Params)
    requires Sound(p)
    ensures EffectiveRate(p) >= p.rate && RefillsWhileIdle(p.(rate := EffectiveRate(p)))
  {
    if !RefillsWhileIdle(p) {
      Quotient(p.burst, p.ttl, p.rate);
    }
  }

  lemma Quotient(a: real, b: real, c: real)
    requires b > 0.0
    ensures a / b * b == a
    ensures c * b < a ==> c < a / b
  {
  }

  /** So every limiter is bounded in every schedule, whatever its constants. */
  lemma EveryWindowIsBounded(p: Params, evs: seq<Event>, key: string, from: real, to: real)
    requires Sound(p) && Ordered(evs) && from <= to
    ensures AdmittedWithin(p, evs, key, from, to, |evs|) as real
              <= p.burst + Gained(p.(rate := EffectiveRate(p)), from, to)
  {
    EffectiveRateCovers(p);
    WindowBound(p, EffectiveRate(p), evs, key, from, to, |evs|);
  }

  /** The first request of `key` since `from`: every admitted one in the window is counted from it. */
  lemma {:induction false} FirstSince(p: Params, evs: seq<Event>, key: string, from: real, to: real, n: nat)
    returns (j: nat)
    requires n < |evs| && Of(evs[n], key) && from <= evs[n].now
    ensures j <= n && Of(evs[j], key) && from <= evs[j].now
    ensures AdmittedWithin(p, evs, key, from, to, n) <= Count(evs, Decisions(p, evs), key, j, n)
  {
    j := 0;
    while !(Of(evs[j], key) && from <= evs[j].now)
      invariant j <= n
      invariant forall k | 0 <= k < j :: !(Of(evs[k], key) && from <= evs[k].now)
      decreases n - j
    {
      j := j + 1;
    }
    CountCovers(p, evs, key, from, to, j, n);
  }

  lemma {:induction false} CountCovers(p: Params, evs: seq<Event>, key: string, from: real, to: real, j: nat, n: nat)
    requires j <= |evs| && n <= |evs|
    requires forall k | 0 <= k < j :: !(Of(evs[k], key) && from <= evs[k].now)
    ensures AdmittedWithin(p, evs, key, from, to, n) <= Count(evs, Decisions(p, evs), key, j, n)
  {
    if n > 0 {
      CountCovers(p, evs, key, from, to, j, n - 1);
    }
  }

  // ---------- Greedy optimality ----------

  /** One request, by numbers: c and x are the served count and the tokens of the greedy bucket,
      c' and x' those of the other one, d is the refill that follows. */
  lemma GreedyStep(burst: real, d: real, c: nat, c': nat, x: real, x': real, takes: bool, takes': bool)
    requires d >= 0.0 && c >= c' && c as real + x >= c' as real + x'
    requires (takes <==> x >= 1.0) && (takes' ==> x' >= 1.0)
    ensures var n := c + if takes then 1 else 0;
            var n' := c' + if takes' then 1 else 0;
            var y := Min(burst, (if takes then x - 1.0 else x) + d);
            var y' := Min(burst, (if takes' then x' - 1.0 else x') + d);
            n >= n' && n as real + y >= n' as real + y'
  {
    if takes' && !takes {
      assert c as real > c' as real;
    }
  }

  /** One request, by its gain d: the refill between it and t. */
  lemma Gain(p: Params, evs: seq<Event>, sel: seq<bool>, key: string, n: nat, t: real) returns (d: real)
    requires Sound(p) && 0 < n <= |evs| == |sel| && Of(evs[n - 1], key) && evs[n - 1].now <= t
    ensures d == Gained(p, evs[n - 1].now, t) && d >= 0.0
    ensures Left(p, evs, sel, key, n, t) ==
            var left := Left(p, evs, sel, key, n - 1, evs[n - 1].now);
            Min(p.burst, (if sel[n - 1] then left - 1.0 else left) + d)
  {
    d := Gained(p, evs[n - 1].now, t);
    NothingIsLost(p, evs[n - 1].now, t);
  }

  /** `own` has served no fewer than `sel`, and what it has served and what it has left exceed the same of `sel`. */
  predicate Ahead(evs: seq<Event>, sel: seq<bool>, key: string, own: seq<bool>, n: nat, left: real, ownLeft: real)
    requires n <= |evs| == |sel| == |own|
  {
    var c, c' := Count(evs, own, key, 0, n), Count(evs, sel, key, 0, n);
    c >= c' && c as real + ownLeft >= c' as real + left
  }

  lemma GreedyLeadsRequest(p: Params, evs: seq<Event>, sel: seq<bool>, key: string, n: nat, t: real)
    requires Sound(p) && Ordered(evs) && 0 < n <= |evs| == |sel| && Of(evs[n - 1], key) && Clock(evs, n, t)
    requires Feasible(p, evs, sel, key)
    requires var own, now := Decisions(p, evs), evs[n - 1].now;
             Ahead(evs, sel, key, own, n - 1, Left(p, evs, sel, key, n - 1, now), Left(p, evs, own, key, n - 1, now))
    ensures Ahead(evs, sel, key, Decisions(p, evs), n, Left(p, evs, sel, key, n, t),
                  Left(p, evs, Decisions(p, evs), key, n, t))
  {
    var own, now := Decisions(p, evs), evs[n - 1].now;
    AvailableIsLeft(p, evs, key, n - 1, now);
    assert own[n - 1] <==> Left(p, evs, own, key, n - 1, now) >= 1.0;
    var d := Gain(p, evs, own, key, n, t);
    var _ := Gain(p, evs, sel, key, n, t);
    GreedyStep(p.burst, d, Count(evs, own, key, 0, n - 1), Count(evs, sel, key, 0, n - 1),
               Left(p, evs, own, key, n - 1, now), Left(p, evs, sel, key, n - 1, now), own[n - 1], sel[n - 1]);
  }

  lemma {:induction false} GreedyLeads(p: Params, evs: seq<Event>, sel: seq<bool>, key: string, n: nat, t: real)
    requires Sound(p) && Ordered(evs) && n <= |evs| == |sel| && Clock(evs, n, t)
    requires Feasible(p, evs, sel, key)
    ensures Ahead(evs, sel, key, Decisions(p, evs), n, Left(p, evs, sel, key, n, t),
                  Left(p, evs, Decisions(p, evs), key, n, t))
  {
    if n > 0 {
      var e := evs[n - 1];
      if Of(e, key) {
        GreedyLeads(p, evs, sel, key, n - 1, e.now);
        GreedyLeadsRequest(p, evs, sel, key, n, t);
      } else {
        GreedyLeads(p, evs, sel, key, n - 1, t);
      }
    }
  }

  /** The limiter's decisions overdraw nothing, and no selection that overdraws nothing has served more
      after any prefix; nor has one for a slower bucket, or one swept later or never. */
  lemma GreedyIsOptimal(p: Params, q: Params, evs: seq<Event>, sel: seq<bool>, key: string, n: nat)
    requires Sound(p) && Ordered(evs) && n <= |evs| == |sel|
    requires AsGenerous(p, q) && Feasible(q, evs, sel, key)
    ensures Feasible(p, evs, Decisions(p, evs), key)
    ensures Count(evs, sel, key, 0, n) <= Count(evs, Decisions(p, evs), key, 0, n)
  {
    DecisionsAreFeasible(p, evs, key);
    GenerousIsFeasible(q, p, evs, sel, key);
    GreedyLeads(p, evs, sel, key, n, Latest(evs, n));
  }

  function Latest(evs: seq<Event>, n: nat): (t: real)
    requires n <= |evs|
    ensures Clock(evs, n, t)
  {
    if n == 0 then 0.0
    else
      var t := Latest(evs, n - 1);
      if t <= At(evs[n - 1]) then At(evs[n - 1]) else t
  }

  // ---------- A client that spaces its requests ----------

  predicate Spaced(p: Params, evs: seq<Event>, key: string) {
    forall i, j | 0 <= i < j < |evs| && Of(evs[i], key) && Of(evs[j], key) :: Gained(p, evs[i].now, evs[j].now) >= 1.0
  }

  lemma OneTokenComesBack(p: Params, table: Table, key: string, now: real, t: real)
    requires Sound(p) && p.burst >= 1.0 && Upto(p, table, now) && now <= t && Gained(p, now, t) >= 1.0
    ensures Available(p, AfterRequest(p, table, key, now), key, t) >= 1.0
  {
    AvailableInRange(p, table, key, now);
    StepAvailable(p, table, Request(key, now), key, t);
  }

  lemma OthersLeaveTheToken(p: Params, table: Table, e: Event, key: string, t: real)
    requires p.burst >= 1.0 && !Of(e, key) && Available(p, table, key, t) >= 1.0
    ensures Available(p, Step(p, table, e), key, t) >= 1.0
  {
    assert Gained(p, t, t) == 0.0;
  }

  lemma {:induction false} RestedBucketHasAToken(p: Params, evs: seq<Event>, key: string, n: nat, t: real)
    requires Sound(p) && Ordered(evs) && n <= |evs| && Clock(evs, n, t) && p.burst >= 1.0
    requires forall i | 0 <= i < n && Of(evs[i], key) :: Gained(p, evs[i].now, t) >= 1.0
    ensures Available(p, Run(p, evs, n), key, t) >= 1.0
  {
    if n == 0 {
      assert Gained(p, t, t) == 0.0;
    } else {
      var e := evs[n - 1];
      var table := Run(p, evs, n - 1);
      RunUpto(p, evs, n - 1, if e.Request? then e.now else t);
      if Of(e, key) {
        OneTokenComesBack(p, table, key, e.now, t);
      } else {
        RestedBucketHasAToken(p, evs, key, n - 1, t);
        OthersLeaveTheToken(p, table, e, key, t);
      }
    }
  }

  /** A client whose requests are at least 1/rate apart is never denied, however often it is swept. */
  lemma SpacedClientIsNeverDenied(p: Params, evs: seq<Event>, key: string, i: nat)
    requires Sound(p) && Ordered(evs) && p.burst >= 1.0
    requires Spaced(p, evs, key) && i < |evs| && Of(evs[i], key)
    ensures Admitted(p, evs, i)
  {
    RestedBucketHasAToken(p, evs, key, i, evs[i].now);
  }
}
