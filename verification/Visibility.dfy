/** When the sweeper and denied requests leave no trace in the decisions of the rate limiter. */
module Visibility {
  import opened RateLimit
  import opened RateLimitTheorems

  // ---------- When sweeping is invisible ----------

  function Requests(evs: seq<Event>): seq<bool> {
    seq(|evs|, i requires 0 <= i < |evs| => evs[i].Request?)
  }

  /** Dropping every sweep changes no decision, in any schedule. */
  ghost predicate SweepsInvisible(p: Params) {
    forall evs: seq<Event>, i: nat | Ordered(evs) && i < |evs| && evs[i].Request? ::
      KeptAt(evs, Requests(evs), i, |evs|);
      Admitted(p, evs, i) <==> Admitted(p, Kept(evs, Requests(evs), |evs|), Rank(Requests(evs), i))
  }

  // The schedule that tells a swept bucket apart: n requests at once and, when the bucket refills
  // at all, one more as soon as it holds a token again; then a sweep; then the same once more.

  /** n requests at `at`, then one at `next` if there is one. */
  function Volley(n: nat, at: real, next: seq<real>): seq<Event> {
    seq(n, _ => Request("", at)) + seq(|next|, i requires 0 <= i < |next| => Request("", next[i]))
  }

  predicate AllAdmitted(p: Params, evs: seq<Event>, lo: nat, hi: nat)
    requires hi <= |evs|
  {
    forall i | lo <= i < hi :: Admitted(p, evs, i)
  }

  /** m requests at one instant all pass a bucket that is not there yet, if burst allows m. */
  lemma {:induction false} BurstPasses(p: Params, evs: seq<Event>, base: nat, at: real, m: nat)
    requires Sound(p) && base + m <= |evs| && "" !in Run(p, evs, base) && m as real <= p.burst
    requires forall i | base <= i < base + m :: evs[i] == Request("", at)
    ensures AllAdmitted(p, evs, base, base + m)
    ensures m > 0 ==> "" in Run(p, evs, base + m) && Run(p, evs, base + m)[""] == Level(p.burst - m as real, at)
  {
    if m > 0 {
      BurstPasses(p, evs, base, at, m - 1);
      Elapse(p, at, at, at);
    }
  }

  /** A whole volley passes a bucket that is not there yet. */
  lemma VolleyPasses(p: Params, evs: seq<Event>, base: nat, n: nat, at: real, next: seq<real>)
    requires Sound(p) && 0 < n && n as real <= p.burst < n as real + 1.0 && |next| <= 1
    requires |next| == 1 ==> at <= next[0] && p.burst - n as real + Gained(p, at, next[0]) == 1.0
    requires base + n + |next| <= |evs| && "" !in Run(p, evs, base)
    requires evs[base..base + n + |next|] == Volley(n, at, next)
    ensures AllAdmitted(p, evs, base, base + n + |next|)
    ensures "" in Run(p, evs, base + n + |next|)
    ensures Run(p, evs, base + n + |next|)[""] ==
            if next == [] then Level(p.burst - n as real, at) else Level(0.0, next[0])
  {
    forall i | base <= i < base + n
      ensures evs[i] == Request("", at)
    {
      assert evs[i] == evs[base..base + n + |next|][i - base];
    }
    BurstPasses(p, evs, base, at, n);
    if |next| == 1 {
      assert evs[base + n] == evs[base..base + n + |next|][n] == Request("", next[0]);
    }
  }

  lemma {:induction false} WhereKept(evs: seq<Event>, keep: seq<bool>, n: nat, r: nat) returns (i: nat)
    requires n <= |evs| == |keep| && r < |Kept(evs, keep, n)|
    ensures i < n && keep[i] && Rank(keep, i) == r && Kept(evs, keep, n)[r] == evs[i]
  {
    KeptAt(evs, keep, n - 1, n - 1);
    if r < |Kept(evs, keep, n - 1)| {
      i := WhereKept(evs, keep, n - 1, r);
    } else {
      i := n - 1;
    }
  }

  lemma KeptOrdered(evs: seq<Event>, keep: seq<bool>)
    requires |keep| == |evs| && Ordered(evs)
    ensures Ordered(Kept(evs, keep, |evs|))
  {
    var kept := Kept(evs, keep, |evs|);
    forall r, q | 0 <= r < q < |kept| && kept[q].Request?
      ensures At(kept[r]) <= kept[q].now
    {
      var i := WhereKept(evs, keep, |evs|, r);
      var j := WhereKept(evs, keep, |evs|, q);
      if j <= i {
        KeptAt(evs[..i], keep[..i], j, i);
        RankPrefix(keep, i, i);
        RankPrefix(keep, i, j);
      }
    }
  }

  lemma {:induction false} RankPrefix(keep: seq<bool>, n: nat, i: nat)
    requires i <= n <= |keep|
    ensures Rank(keep[..n], i) == Rank(keep, i)
  {
    if i > 0 {
      RankPrefix(keep, n, i - 1);
    }
  }

  lemma {:induction false} RankWithOneDropped(keep: seq<bool>, d: nat, n: nat)
    requires n <= |keep| && d < |keep| && forall i | 0 <= i < |keep| :: keep[i] <==> i != d
    ensures Rank(keep, n) == if n <= d then n else n - 1
  {
    if n > 0 {
      RankWithOneDropped(keep, d, n - 1);
    }
  }

  lemma {:induction false} AllWithin(p: Params, evs: seq<Event>, from: real, to: real, n: nat)
    requires n <= |evs| && AllAdmitted(p, evs, 0, |evs|)
    requires forall i | 0 <= i < |evs| :: Of(evs[i], "") && from <= evs[i].now <= to
    ensures AdmittedWithin(p, evs, "", from, to, n) == n
  {
    if n > 0 {
      AllWithin(p, evs, from, to, n - 1);
    }
  }

  lemma SteadyBurst(p: Params, evs: seq<Event>, end: real)
    requires Sound(p) && Ordered(evs) && 0.0 <= end
    requires forall i | 0 <= i < |evs| :: Of(evs[i], "") && 0.0 <= evs[i].now <= end && Admitted(p, evs, i)
    ensures |evs| as real <= p.burst + Gained(p, 0.0, end)
  {
    AllWithin(p, evs, 0.0, end, |evs|);
    assert p.(rate := p.rate) == p;
    WindowBound(p, p.rate, evs, "", 0.0, end, |evs|);
  }

  /** If sweeping were invisible, a schedule of one key with one sweep that admits all its requests
      would hold no more than the window bound. */
  lemma InvisibleSweepKeepsBound(p: Params, evs: seq<Event>, d: nat, end: real)
    requires Sound(p) && SweepsInvisible(p) && Ordered(evs) && 0.0 <= end
    requires d < |evs|
    requires forall i | 0 <= i < |evs| && i != d :: Of(evs[i], "") && 0.0 <= evs[i].now <= end && Admitted(p, evs, i)
    requires evs[d].Sweep?
    ensures |evs| as real - 1.0 <= p.burst + Gained(p, 0.0, end)
  {
    var keep := Requests(evs);
    var kept := Kept(evs, keep, |evs|);
    KeptOrdered(evs, keep);
    KeptAt(evs, keep, |evs|, |evs|);
    RankWithOneDropped(keep, d, |evs|);
    forall r | 0 <= r < |kept|
      ensures Of(kept[r], "") && 0.0 <= kept[r].now <= end && Admitted(p, kept, r)
    {
      var i := WhereKept(evs, keep, |evs|, r);
    }
    SteadyBurst(p, kept, end);
  }

  /** Two volleys with a sweep between them. */
  function SweptSchedule(n: nat, next: seq<real>, u: real, next': seq<real>): seq<Event> {
    Volley(n, 0.0, next) + [Sweep(u)] + Volley(n, u, next')
  }

  lemma SweptScheduleShape(n: nat, next: seq<real>, u: real, next': seq<real>, end: real)
    requires |next| == |next'| <= 1 && 0.0 <= u <= end
    requires next != [] ==> 0.0 <= next[0] <= u <= next'[0] <= end
    ensures var evs := SweptSchedule(n, next, u, next');
            |evs| == 2 * (n + |next|) + 1 && evs[n + |next|] == Sweep(u) && Ordered(evs) &&
            forall i | 0 <= i < |evs| && i != n + |next| :: Of(evs[i], "") && 0.0 <= evs[i].now <= end
  {
  }

  /** The second volley passes as the first did, because the sweep is just late enough to evict. */
  lemma SweptScheduleAdmitsAll(p: Params, n: nat, next: seq<real>, u: real, next': seq<real>)
    requires Sound(p) && 0 < n && n as real <= p.burst < n as real + 1.0 && |next| == |next'| <= 1
    requires 0.0 < u - p.ttl
    requires next != [] ==> 0.0 <= next[0] < u - p.ttl && u <= next'[0]
    requires next != [] ==> p.burst - n as real + Gained(p, 0.0, next[0]) == 1.0
    requires next != [] ==> p.burst - n as real + Gained(p, u, next'[0]) == 1.0
    ensures var evs, size := SweptSchedule(n, next, u, next'), n + |next|;
            AllAdmitted(p, evs, 0, size) && AllAdmitted(p, evs, size + 1, size + 1 + size)
  {
    var evs, size := SweptSchedule(n, next, u, next'), n + |next|;
    assert evs[0..size] == Volley(n, 0.0, next);
    assert evs[size + 1..size + 1 + size] == Volley(n, u, next');
    VolleyPasses(p, evs, 0, n, 0.0, next);
    assert Run(p, evs, size + 1) == AfterSweep(p, Run(p, evs, size), u);
    VolleyPasses(p, evs, size + 1, n, u, next');
  }

  /** When to ask again: after `wait` the remainder of a spent burst has grown to one token, and
      `idle` is longer than ttl, but by less than a token takes, and too short to refill the bucket. */
  lemma VolleyTimes(p: Params, n: nat) returns (wait: real, idle: real)
    requires Sound(p) && p.rate > 0.0 && !RefillsWhileIdle(p) && n as real <= p.burst < n as real + 1.0
    ensures wait >= 0.0 && idle > p.ttl && (idle - p.ttl) * p.rate < 1.0
    ensures wait * p.rate == 1.0 - (p.burst - n as real) && idle * p.rate < p.burst
  {
    var missing := Min(1.0, p.burst - p.rate * p.ttl) / 2.0;
    wait := (1.0 - (p.burst - n as real)) / p.rate;
    idle := p.ttl + missing / p.rate;
    assert missing / p.rate > 0.0;
    assert (idle - p.ttl) * p.rate == missing;
    assert idle * p.rate == p.ttl * p.rate + missing;
  }

  lemma GainedOverVolleys(p: Params, wait: real, idle: real)
    ensures Gained(p, 0.0, wait) == wait * p.rate
    ensures Gained(p, wait + idle, wait + idle + wait) == wait * p.rate
    ensures Gained(p, 0.0, wait + idle + wait) == 2.0 * (wait * p.rate) + idle * p.rate
  {
    Elapse(p, 0.0, wait, wait + idle);
    Elapse(p, 0.0, wait + idle, wait + idle + wait);
    assert (wait + idle - wait) * p.rate == idle * p.rate;
    assert (wait + idle + wait - (wait + idle)) * p.rate == wait * p.rate;
  }

  lemma SweepVisible(p: Params)
    requires Sound(p) && !RefillsWhileIdle(p) && p.burst >= 1.0
    ensures !SweepsInvisible(p)
  {
    var n: nat := p.burst.Floor;
    if SweepsInvisible(p) {
      if p.rate == 0.0 {
        var u := p.ttl + 1.0;
        SweptScheduleShape(n, [], u, [], u);
        SweptScheduleAdmitsAll(p, n, [], u, []);
        InvisibleSweepKeepsBound(p, SweptSchedule(n, [], u, []), n, u);
      } else {
        var wait, idle := VolleyTimes(p, n);
        SweepVisibleWhileRefilling(p, n, wait, idle);
      }
    }
  }

  lemma SweepVisibleWhileRefilling(p: Params, n: nat, wait: real, idle: real)
    requires Sound(p) && 0 < n && n as real <= p.burst < n as real + 1.0
    requires wait >= 0.0 && idle > p.ttl
    requires wait * p.rate == 1.0 - (p.burst - n as real) && idle * p.rate < p.burst
    ensures !SweepsInvisible(p)
  {
    var u := wait + idle;
    var evs := SweptSchedule(n, [wait], u, [u + wait]);
    GainedOverVolleys(p, wait, idle);
    SweptScheduleShape(n, [wait], u, [u + wait], u + wait);
    SweptScheduleAdmitsAll(p, n, [wait], u, [u + wait]);
    if SweepsInvisible(p) {
      InvisibleSweepKeepsBound(p, evs, n + 1, u + wait);
    }
  }

  /** Sweeping is invisible exactly when an idle bucket refills within ttl, or no request is ever
      admitted anyway. */
  lemma SweepsInvisibleIff(p: Params)
    requires Sound(p)
    ensures SweepsInvisible(p) <==> RefillsWhileIdle(p) || p.burst < 1.0
  {
    if RefillsWhileIdle(p) || p.burst < 1.0 {
      forall evs: seq<Event>, i: nat | Ordered(evs) && i < |evs| && evs[i].Request?
        ensures (KeptAt(evs, Requests(evs), i, |evs|);
                 Admitted(p, evs, i) <==> Admitted(p, Kept(evs, Requests(evs), |evs|), Rank(Requests(evs), i)))
      {
        KeptAt(evs, Requests(evs), i, |evs|);
        if RefillsWhileIdle(p) {
          ErasureTheorem(p, evs, Requests(evs), evs[i].key, i);
        }
      }
    } else {
      SweepVisible(p);
    }
  }

  // ---------- When denied requests leave no trace ----------

  /** Only denied requests are dropped. */
  predicate DropsDenied(p: Params, evs: seq<Event>, keep: seq<bool>) {
    |keep| == |evs| && forall k | 0 <= k < |evs| && !keep[k] :: evs[k].Request? && !Admitted(p, evs, k)
  }

  /** Dropping any denied requests changes no decision, in any schedule. */
  ghost predicate DenialsInvisible(p: Params) {
    forall evs: seq<Event>, keep: seq<bool>, i: nat |
      Ordered(evs) && DropsDenied(p, evs, keep) && i < |evs| && keep[i] && evs[i].Request? ::
      KeptAt(evs, keep, i, |evs|);
      Admitted(p, evs, i) <==> Admitted(p, Kept(evs, keep, |evs|), Rank(keep, i))
  }

  // The schedule that tells a denial apart is the one above with a denied request just recent enough to
  // keep the bucket from being swept: with it the second volley is not served in full.

  function Insert(evs: seq<Event>, k: nat, e: Event): (more: seq<Event>)
    requires k <= |evs|
    ensures |more| == |evs| + 1 && more[k] == e
  {
    evs[..k] + [e] + evs[k..]
  }

  function AllBut(n: nat, k: nat): seq<bool> {
    seq(n, i => i != k)
  }

  /** Dropping what was inserted gives the old schedule back. */
  lemma {:induction false} InsertedAndDropped(evs: seq<Event>, k: nat, e: Event, n: nat)
    requires k <= |evs| && n <= |evs| + 1
    ensures Kept(Insert(evs, k, e), AllBut(|evs| + 1, k), n) == if n <= k then evs[..n] else evs[..n - 1]
  {
    if n > 0 {
      InsertedAndDropped(evs, k, e, n - 1);
    }
  }

  lemma DropInserted(evs: seq<Event>, k: nat, e: Event, i: nat)
    requires k <= |evs| && i <= |evs|
    ensures Kept(Insert(evs, k, e), AllBut(|evs| + 1, k), |evs| + 1) == evs
    ensures Rank(AllBut(|evs| + 1, k), i) == if i <= k then i else i - 1
  {
    InsertedAndDropped(evs, k, e, |evs| + 1);
    assert evs[..|evs|] == evs;
    RankWithOneDropped(AllBut(|evs| + 1, k), k, i);
  }

  /** A denied request may be inserted without changing any decision. */
  lemma DenialInserted(p: Params, evs: seq<Event>, k: nat, e: Event, i: nat)
    requires DenialsInvisible(p) && k <= |evs| && e.Request? && Ordered(Insert(evs, k, e))
    requires DeniedAt(p, evs, k, e)
    requires i <= |evs| && i != k && Insert(evs, k, e)[i].Request?
    ensures Admitted(p, Insert(evs, k, e), i) <==> Admitted(p, evs, if i < k then i else i - 1)
  {
    var more, keep := Insert(evs, k, e), AllBut(|evs| + 1, k);
    forall j | 0 <= j < |keep| && !keep[j]
      ensures more[j].Request? && !Admitted(p, more, j)
    {
      assert j == k;
    }
    DenialErased(p, more, keep, i);
    DropInserted(evs, k, e, i);
  }

  lemma DenialErased(p: Params, evs: seq<Event>, keep: seq<bool>, i: nat)
    requires DenialsInvisible(p) && Ordered(evs) && DropsDenied(p, evs, keep)
    requires i < |evs| && keep[i] && evs[i].Request?
    ensures Rank(keep, i) < |Kept(evs, keep, |evs|)|
    ensures Admitted(p, evs, i) <==> Admitted(p, Kept(evs, keep, |evs|), Rank(keep, i))
  {
    KeptAt(evs, keep, i, |evs|);
  }

  lemma InsertOrdered(evs: seq<Event>, k: nat, e: Event)
    requires k <= |evs| && e.Request? && Ordered(evs)
    requires forall i | 0 <= i < k :: At(evs[i]) <= e.now
    requires forall j | k <= j < |evs| && evs[j].Request? :: e.now <= evs[j].now
    ensures Ordered(Insert(evs, k, e))
  {
    var more := Insert(evs, k, e);
    forall i, j | 0 <= i < j < |more| && more[j].Request?
      ensures At(more[i]) <= more[j].now
    {
      if i != k && j != k {
        assert more[i] == evs[if i < k then i else i - 1] && more[j] == evs[if j < k then j else j - 1];
      }
    }
  }

  /** The bucket has less than a token left at the instant that is just recent enough. */
  lemma ThenIsDenied(p: Params, n: nat, next: seq<real>, u: real, next': seq<real>)
    requires Served(p, n, next, u, next') && Short(p, n, next, u)
    ensures DeniedAt(p, SweptSchedule(n, next, u, next'), n + |next|, Request("", u - p.ttl))
  {
    var evs, size := SweptSchedule(n, next, u, next'), n + |next|;
    assert evs[0..size] == Volley(n, 0.0, next);
    VolleyPasses(p, evs, 0, n, 0.0, next);
    SameBefore(p, evs, size, Request("", u - p.ttl));
  }

  lemma SameBefore(p: Params, evs: seq<Event>, k: nat, e: Event)
    requires k <= |evs|
    ensures Run(p, Insert(evs, k, e), k) == Run(p, evs, k)
  {
    var more := Insert(evs, k, e);
    assert evs == evs[..k] + evs[k..] && more == evs[..k] + more[k..];
    RunIgnoresLaterEvents(p, evs[..k], evs[k..], k);
    RunIgnoresLaterEvents(p, evs[..k], more[k..], k);
  }

  predicate DeniedAt(p: Params, evs: seq<Event>, k: nat, e: Event) {
    k <= |evs| && !Admitted(p, Insert(evs, k, e), k)
  }

  /** The volleys fit around the sweep as SweptScheduleAdmitsAll has it. */
  predicate Served(p: Params, n: nat, next: seq<real>, u: real, next': seq<real>) {
    Sound(p) && 0 < n && n as real <= p.burst < n as real + 1.0 && |next| == |next'| <= 1 && 0.0 < u - p.ttl &&
    (next != [] ==>
       0.0 <= next[0] < u - p.ttl && u <= next'[0] &&
       p.burst - n as real + Gained(p, 0.0, next[0]) == 1.0 && p.burst - n as real + Gained(p, u, next'[0]) == 1.0)
  }

  /** Less than a token has come back by the last instant that is recent enough for the sweep. */
  predicate Short(p: Params, n: nat, next: seq<real>, u: real) {
    if next == [] then p.burst - n as real + Gained(p, 0.0, u - p.ttl) < 1.0
    else Gained(p, next[0], u - p.ttl) < 1.0
  }

  lemma {:induction false} CountAllButTwo(evs: seq<Event>, sel: seq<bool>, k: nat, n: nat)
    requires n <= |evs| == |sel|
    requires forall i | 0 <= i < n && i != k && i != k + 1 :: Of(evs[i], "") && sel[i]
    ensures Count(evs, sel, "", 0, n) >= n - (if n > k then 1 else 0) - if n > k + 1 then 1 else 0
  {
    if n > 0 {
      CountAllButTwo(evs, sel, k, n - 1);
    }
  }

  /** A schedule of one key with one sweep, at k. */
  predicate OneSweep(evs: seq<Event>, k: nat) {
    0 < k < |evs| - 1 && evs[k].Sweep? && forall i | 0 <= i < |evs| && i != k :: Of(evs[i], "")
  }

  lemma InsertedSweep(evs: seq<Event>, k: nat, e: Event)
    requires OneSweep(evs, k) && Of(e, "")
    ensures OneSweep(Insert(evs, k, e), k + 1)
    ensures var more := Insert(evs, k, e);
            more[0] == evs[0] && more[k + 1] == evs[k] && more[|evs|] == evs[|evs| - 1]
  {
  }

  lemma InsertedPass(p: Params, evs: seq<Event>, k: nat, e: Event, i: nat)
    requires DenialsInvisible(p) && OneSweep(evs, k) && Of(e, "") && Ordered(Insert(evs, k, e))
    requires DeniedAt(p, evs, k, e)
    requires AllAdmitted(p, evs, 0, k) && AllAdmitted(p, evs, k + 1, |evs|)
    requires i <= |evs| && i != k && i != k + 1
    ensures Passes(p, Insert(evs, k, e), i)
  {
    InsertedSweep(evs, k, e);
    DenialInserted(p, evs, k, e, i);
  }

  /** If denials were invisible, the schedule would be served although its bucket is never swept: more
      than the bucket holds. */
  lemma InvisibleDenialKeepsBound(p: Params, evs: seq<Event>, k: nat, e: Event)
    requires Sound(p) && DenialsInvisible(p) && OneSweep(evs, k) && Of(e, "") && Ordered(Insert(evs, k, e))
    requires DeniedAt(p, evs, k, e) && e.now >= evs[k].readAt - p.ttl
    requires AllAdmitted(p, evs, 0, k) && AllAdmitted(p, evs, k + 1, |evs|)
    ensures (|evs| - 2) as real + 1.0 <= p.burst + Gained(p, evs[0].now, evs[|evs| - 1].now)
  {
    var more := Insert(evs, k, e);
    InsertedSweep(evs, k, e);
    forall i: nat | i < |more| && i != k && i != k + 1
      ensures Passes(p, more, i)
    {
      InsertedPass(p, evs, k, e, i);
    }
    NeverSweptBound(p, more, k);
  }

  lemma SweptEnds(n: nat, next: seq<real>, u: real, next': seq<real>)
    requires 0 < n && |next| == |next'| <= 1
    ensures var evs := SweptSchedule(n, next, u, next');
            |evs| == 2 * (n + |next|) + 1 && evs[n + |next|] == Sweep(u) && evs[0] == Request("", 0.0) &&
            evs[|evs| - 1] == Request("", if next == [] then u else next'[0])
  {
  }

  lemma DenialFits(p: Params, n: nat, next: seq<real>, u: real, next': seq<real>)
    requires Served(p, n, next, u, next')
    ensures var size, evs := n + |next|, SweptSchedule(n, next, u, next');
            OneSweep(evs, size) && Ordered(Insert(evs, size, Request("", u - p.ttl)))
  {
    var evs, size := SweptSchedule(n, next, u, next'), n + |next|;
    SweptScheduleShape(n, next, u, next', if next == [] then u else next'[0]);
    assert forall i | 0 <= i < size :: At(evs[i]) <= u - p.ttl;
    assert forall j | size < j < |evs| :: u <= evs[j].now;
    InsertOrdered(evs, size, Request("", u - p.ttl));
  }

  /** On the schedule above that is too much. */
  lemma DenialVisibleOn(p: Params, n: nat, next: seq<real>, u: real, next': seq<real>)
    requires Served(p, n, next, u, next') && Short(p, n, next, u) && DenialsInvisible(p)
    ensures (2 * (n + |next|) - 1) as real + 1.0 <= p.burst + Gained(p, 0.0, if next == [] then u else next'[0])
  {
    var evs, size, e := SweptSchedule(n, next, u, next'), n + |next|, Request("", u - p.ttl);
    SweptEnds(n, next, u, next');
    assert |evs| == size + 1 + size;
    assert DeniedAt(p, evs, size, e) by {
      ThenIsDenied(p, n, next, u, next');
    }
    assert AllAdmitted(p, evs, 0, size) && AllAdmitted(p, evs, size + 1, |evs|) by {
      SweptScheduleAdmitsAll(p, n, next, u, next');
    }
    DenialFits(p, n, next, u, next');
    InvisibleDenialKeepsBound(p, evs, size, e);
  }

  lemma NeverForgotten(p: Params, evs: seq<Event>, k: nat)
    requires k + 2 < |evs| && Of(evs[k], "") && forall i | 0 <= i < |evs| && i != k + 1 :: evs[i].Request?
    requires evs[k + 1].Sweep? && evs[k].now >= evs[k + 1].readAt - p.ttl
    ensures Remembered(p, evs, "", 0, |evs| - 1)
  {
  }

  lemma LastHasRoom(p: Params, evs: seq<Event>, k: nat)
    requires Sound(p) && Ordered(evs) && k + 2 < |evs| && Of(evs[k], "")
    requires forall i | 0 <= i < |evs| && i != k + 1 :: evs[i].Request?
    requires evs[k + 1].Sweep? && evs[k].now >= evs[k + 1].readAt - p.ttl
    requires Of(evs[0], "") && Of(evs[|evs| - 1], "") && Admitted(p, evs, |evs| - 1)
    ensures Room(p, evs, Decisions(p, evs), "", 0, |evs| - 1)
  {
    NeverForgotten(p, evs, k);
    ExactAdmission(p, evs, "", |evs| - 1);
  }

  predicate Passes(p: Params, evs: seq<Event>, i: nat)
    requires i < |evs|
  {
    Of(evs[i], "") && Admitted(p, evs, i)
  }

  /** Every event passes but the two at k. */
  predicate AllButTwoPass(p: Params, evs: seq<Event>, k: nat) {
    forall i: nat | i < |evs| && i != k && i != k + 1 :: Passes(p, evs, i)
  }

  lemma AllButTwoCount(p: Params, evs: seq<Event>, k: nat)
    requires k + 2 < |evs| && AllButTwoPass(p, evs, k)
    ensures Count(evs, Decisions(p, evs), "", 0, |evs| - 1) >= |evs| - 3
  {
    forall i | 0 <= i < |evs| - 1 && i != k && i != k + 1
      ensures Of(evs[i], "") && Decisions(p, evs)[i]
    {
      assert Passes(p, evs, i);
    }
    CountAllButTwo(evs, Decisions(p, evs), k, |evs| - 1);
  }

  lemma RoomIsBounded(p: Params, evs: seq<Event>, sel: seq<bool>, c: nat)
    requires 0 < |evs| == |sel| && evs[0].Request? && evs[|evs| - 1].Request?
    requires Room(p, evs, sel, "", 0, |evs| - 1) && c <= Count(evs, sel, "", 0, |evs| - 1)
    ensures c as real + 1.0 <= p.burst + Gained(p, evs[0].now, evs[|evs| - 1].now)
  {
  }

  /** A bucket that a request kept from its one sweep serves no more than it holds. */
  lemma NeverSweptBound(p: Params, evs: seq<Event>, k: nat)
    requires Sound(p) && Ordered(evs) && 0 < k && k + 2 < |evs| && Of(evs[k], "")
    requires forall i | 0 <= i < |evs| && i != k + 1 :: evs[i].Request?
    requires evs[k + 1].Sweep? && evs[k].now >= evs[k + 1].readAt - p.ttl
    requires AllButTwoPass(p, evs, k)
    ensures (|evs| - 3) as real + 1.0 <= p.burst + Gained(p, evs[0].now, evs[|evs| - 1].now)
  {
    assert Passes(p, evs, 0) && Passes(p, evs, |evs| - 1);
    LastHasRoom(p, evs, k);
    AllButTwoCount(p, evs, k);
    RoomIsBounded(p, evs, Decisions(p, evs), |evs| - 3);
  }

  lemma DenialVisible(p: Params)
    requires Sound(p) && !RefillsWhileIdle(p) && p.burst >= 1.0
    ensures !DenialsInvisible(p)
  {
    var n: nat := p.burst.Floor;
    if DenialsInvisible(p) {
      if p.rate == 0.0 {
        var u := p.ttl + 1.0;
        DenialVisibleOn(p, n, [], u, []);
      } else {
        var wait, idle := VolleyTimes(p, n);
        var u := wait + idle;
        GainedOverVolleys(p, wait, idle);
        assert Gained(p, wait, u - p.ttl) == (idle - p.ttl) * p.rate;
        DenialVisibleOn(p, n, [wait], u, [u + wait]);
      }
    }
  }

  /** Denied requests leave no trace exactly when an idle bucket refills within ttl, or no request is ever
      admitted anyway.  Otherwise a denial may keep its bucket from being swept, and full again. */
  lemma DenialsInvisibleIff(p: Params)
    requires Sound(p)
    ensures DenialsInvisible(p) <==> RefillsWhileIdle(p) || p.burst < 1.0
  {
    if RefillsWhileIdle(p) || p.burst < 1.0 {
      forall evs: seq<Event>, keep: seq<bool>, i: nat |
        Ordered(evs) && DropsDenied(p, evs, keep) && i < |evs| && keep[i] && evs[i].Request?
        ensures (KeptAt(evs, keep, i, |evs|);
                 Admitted(p, evs, i) <==> Admitted(p, Kept(evs, keep, |evs|), Rank(keep, i)))
      {
        KeptAt(evs, keep, i, |evs|);
        if RefillsWhileIdle(p) {
          ErasureTheorem(p, evs, keep, evs[i].key, i);
        }
      }
    } else {
      DenialVisible(p);
    }
  }

  // ---------- The deployed limiters ----------

  /** The deployed limiters: rate and burst of the write and auth endpoints, and ttl in seconds. */
  const WRITE_LIMIT := Params(5.0, 20.0, 600.0)
  const AUTH_LIMIT := Params(1.0, 5.0, 600.0)

  lemma WindowInNumbers(p: Params, evs: seq<Event>, key: string, from: real, to: real, rate: real, burst: real)
    requires Sound(p) && RefillsWhileIdle(p) && p.rate == rate && p.burst == burst && Ordered(evs) && from <= to
    ensures AdmittedWithin(p, evs, key, from, to, |evs|) as real <= burst + rate * (to - from)
  {
    assert p.(rate := rate) == p;
    WindowBound(p, rate, evs, key, from, to, |evs|);
    GainedInNumbers(p, from, to, rate);
  }

  lemma GainedInNumbers(p: Params, from: real, to: real, rate: real)
    requires p.rate == rate
    ensures Gained(p, from, to) == rate * (to - from)
  {
  }

  /** What they promise a client, in requests and seconds: at most 20 at once and 5 a second, and at most 5 at
      once and 1 a second. */
  lemma DeployedWindows(evs: seq<Event>, key: string, from: real, to: real)
    requires Ordered(evs) && from <= to
    ensures AdmittedWithin(WRITE_LIMIT, evs, key, from, to, |evs|) as real <= 20.0 + 5.0 * (to - from)
    ensures AdmittedWithin(AUTH_LIMIT, evs, key, from, to, |evs|) as real <= 5.0 + 1.0 * (to - from)
  {
    WindowInNumbers(WRITE_LIMIT, evs, key, from, to, 5.0, 20.0);
    WindowInNumbers(AUTH_LIMIT, evs, key, from, to, 1.0, 5.0);
  }

  /** No less than that: a first volley of 20 or 5 requests passes, and so does a client that sends a request
      every fifth of a second, or every second. */
  lemma DeployedAdmissions(evs: seq<Event>, at: real, key: string, i: nat)
    requires Ordered(evs) && i < |evs| && Of(evs[i], key)
    ensures |evs| <= 20 && (forall k | 0 <= k < |evs| :: evs[k] == Request("", at)) ==> Admitted(WRITE_LIMIT, evs, i)
    ensures |evs| <= 5 && (forall k | 0 <= k < |evs| :: evs[k] == Request("", at)) ==> Admitted(AUTH_LIMIT, evs, i)
    ensures Apart(evs, key, 0.2) ==> Admitted(WRITE_LIMIT, evs, i)
    ensures Apart(evs, key, 1.0) ==> Admitted(AUTH_LIMIT, evs, i)
  {
    if forall k | 0 <= k < |evs| :: evs[k] == Request("", at) {
      if |evs| <= 20 {
        BurstPasses(WRITE_LIMIT, evs, 0, at, |evs|);
      }
      if |evs| <= 5 {
        BurstPasses(AUTH_LIMIT, evs, 0, at, |evs|);
      }
    }
    if Apart(evs, key, 0.2) {
      ApartIsSpaced(WRITE_LIMIT, evs, key, 0.2);
      SpacedClientIsNeverDenied(WRITE_LIMIT, evs, key, i);
    }
    if Apart(evs, key, 1.0) {
      ApartIsSpaced(AUTH_LIMIT, evs, key, 1.0);
      SpacedClientIsNeverDenied(AUTH_LIMIT, evs, key, i);
    }
  }

  /** The requests of the key come at least d after one another. */
  predicate Apart(evs: seq<Event>, key: string, d: real) {
    forall i, j | 0 <= i < j < |evs| && Of(evs[i], key) && Of(evs[j], key) :: evs[j].now - evs[i].now >= d
  }

  lemma ApartIsSpaced(p: Params, evs: seq<Event>, key: string, d: real)
    requires Sound(p) && Apart(evs, key, d) && d * p.rate >= 1.0
    ensures Spaced(p, evs, key)
  {
    forall i, j | 0 <= i < j < |evs| && Of(evs[i], key) && Of(evs[j], key)
      ensures Gained(p, evs[i].now, evs[j].now) >= 1.0
    {
      LongerGainsMore(d, evs[j].now - evs[i].now, p.rate);
    }
  }

  /** Their sweeper evicts what has been idle for more than ten minutes, and nothing else. */
  lemma DeployedSweeper(table: Table, readAt: real, key: string)
    requires key in table
    ensures key in AfterSweep(WRITE_LIMIT, table, readAt) <==> readAt - table[key].lastSeen <= 600.0
    ensures key in AfterSweep(AUTH_LIMIT, table, readAt) <==> readAt - table[key].lastSeen <= 600.0
  {
  }

  lemma DeployedSweepsAreInvisible()
    ensures SweepsInvisible(WRITE_LIMIT) && SweepsInvisible(AUTH_LIMIT)
    ensures DenialsInvisible(WRITE_LIMIT) && DenialsInvisible(AUTH_LIMIT)
  {
    SweepsInvisibleIff(WRITE_LIMIT);
    SweepsInvisibleIff(AUTH_LIMIT);
    DenialsInvisibleIff(WRITE_LIMIT);
    DenialsInvisibleIff(AUTH_LIMIT);
  }
}
