/** The per-key token bucket of the HTTP rate limiter, with its idle-entry sweeper.

    `Limiter` keeps the mutable buckets of the program.  `Run` is the value of the bucket
    table after a schedule of requests and sweeps; the class keeps the two equal, so what
    RateLimitTheorems proves about every schedule holds of every state a `Limiter` reaches.
    Tokens and instants are `real`: rounding is not modelled. */
module RateLimit {

  datatype Params = Params(rate: real, burst: real, ttl: real)

  /** The contents of one bucket. */
  datatype Level = Level(tokens: real, lastSeen: real)

  type Table = map<string, Level>

  /** What takes the mutex: a request at the instant read under the lock, or a sweep whose
      clock was read at `readAt`, before the lock was taken. */
  datatype Event = Request(key: string, now: real) | Sweep(readAt: real)

  function Min(a: real, b: real): real {
    if a <= b then a else b
  }

  /** The tokens that come back between two instants. */
  function Gained(p: Params, from: real, to: real): real {
    (to - from) * p.rate
  }

  function Refill(p: Params, level: Level, now: real): real {
    Min(p.burst, level.tokens + Gained(p, level.lastSeen, now))
  }

  /** The tokens a request of `key` finds at `now`; an unknown key starts with a full bucket. */
  function Available(p: Params, table: Table, key: string, now: real): real {
    Refill(p, if key in table then table[key] else Level(p.burst, now), now)
  }

  predicate Allows(p: Params, table: Table, key: string, now: real) {
    Available(p, table, key, now) >= 1.0
  }

  function AfterRequest(p: Params, table: Table, key: string, now: real): Table {
    var tokens := Available(p, table, key, now);
    table[key := Level(if tokens < 1.0 then tokens else tokens - 1.0, now)]
  }

  function AfterSweep(p: Params, table: Table, readAt: real): Table {
    map key | key in table && !(table[key].lastSeen < readAt - p.ttl) :: table[key]
  }

  function Step(p: Params, table: Table, e: Event): Table {
    match e
    case Request(key, now) => AfterRequest(p, table, key, now)
    case Sweep(readAt) => AfterSweep(p, table, readAt)
  }

  /** The table after the first n events of a schedule, starting empty. */
  function Run(p: Params, evs: seq<Event>, n: nat): Table
    requires n <= |evs|
  {
    if n == 0 then map[] else Step(p, Run(p, evs, n - 1), evs[n - 1])
  }

  /** Event i is a request, and the limiter lets it through. */
  predicate Admitted(p: Params, evs: seq<Event>, i: nat)
    requires i < |evs|
  {
    evs[i].Request? && Allows(p, Run(p, evs, i), evs[i].key, evs[i].now)
  }

  lemma {:induction false} RunIgnoresLaterEvents(p: Params, evs: seq<Event>, more: seq<Event>, n: nat)
    requires n <= |evs|
    ensures Run(p, evs + more, n) == Run(p, evs, n)
  {
    if n > 0 {
      RunIgnoresLaterEvents(p, evs, more, n - 1);
    }
  }

  lemma FullIsImplicit(p: Params, table: Table, key: string, now: real)
    ensures var made := table[key := if key in table then table[key] else Level(p.burst, now)];
            Available(p, made, key, now) == Available(p, table, key, now) &&
            AfterRequest(p, made, key, now) == AfterRequest(p, table, key, now)
  {
  }

  class Bucket {
    var tokens: real
    var lastSeen: real

    constructor (tokens: real, lastSeen: real)
      ensures this.tokens == tokens && this.lastSeen == lastSeen
    {
      this.tokens := tokens;
      this.lastSeen := lastSeen;
    }

    function Value(): Level
      reads this
    {
      Level(tokens, lastSeen)
    }

    /** Refills the bucket lazily, then takes one token if there is a whole one. */
    method Take(p: Params, now: real) returns (ok: bool)
      modifies this
      ensures lastSeen == now
      ensures var found := Refill(p, old(Value()), now);
              ok == (found >= 1.0) && tokens == if found < 1.0 then found else found - 1.0
    {
      var elapsed := now - lastSeen;
      assert elapsed * p.rate == Gained(p, lastSeen, now);
      tokens := Min(p.burst, tokens + elapsed * p.rate);
      lastSeen := now;
      ok := !(tokens < 1.0);
      if ok {
        tokens := tokens - 1.0;
      }
    }
  }

  class Limiter {
    var buckets: map<string, Bucket>
    const rate: real
    const burst: real
    const ttl: real
    ghost var history: seq<Event>  // every event since construction

    function P(): Params {
      Params(rate, burst, ttl)
    }

    ghost function Contents(): Table
      reads this, buckets.Values
    {
      map key | key in buckets :: buckets[key].Value()
    }

    /** No two keys share a bucket object. */
    ghost predicate Unshared()
      reads this
    {
      forall k1, k2 | k1 in buckets && k2 in buckets && k1 != k2 :: buckets[k1] != buckets[k2]
    }

    ghost predicate Valid()
      reads this, buckets.Values
    {
      Unshared() && Contents() == Run(P(), history, |history|)
    }

    constructor (rate: real, burst: real, ttl: real)
      ensures Valid() && P() == Params(rate, burst, ttl) && history == [] && Contents() == map[]
    {
      this.rate, this.burst, this.ttl := rate, burst, ttl;
      buckets := map[];
      history := [];
    }

    /** The bucket of `key`, created full when there is none. */
    method BucketOf(key: string, now: real) returns (b: Bucket)
      requires Unshared()
      modifies this`buckets
      ensures Unshared() && key in buckets && buckets[key] == b
      ensures b in old(buckets.Values) || fresh(b)
      ensures buckets.Values <= old(buckets.Values) + {b}
      ensures Contents() ==
              old(Contents())[key := if key in old(buckets) then old(Contents())[key] else Level(burst, now)]
      ensures b.Value() == Contents()[key]
    {
      if key !in buckets {
        b := new Bucket(burst, now);
        buckets := buckets[key := b];
      } else {
        b := buckets[key];
      }
    }

    /** Takes a token of bucket `b`, which is the bucket of `key`. */
    method Spend(key: string, b: Bucket, now: real) returns (ok: bool)
      requires Unshared() && key in buckets && buckets[key] == b
      modifies b
      ensures ok == Allows(P(), old(Contents()), key, now)
      ensures Contents() == AfterRequest(P(), old(Contents()), key, now)
    {
      ghost var before := Contents();
      ok := b.Take(P(), now);
      assert forall k | k in buckets && k != key :: buckets[k] != b && Contents()[k] == before[k];
    }

    method Touch(key: string, now: real) returns (ok: bool)
      requires Unshared()
      modifies this`buckets, buckets.Values
      ensures Unshared() && fresh(buckets.Values - old(buckets.Values))
      ensures ok == Allows(P(), old(Contents()), key, now)
      ensures Contents() == AfterRequest(P(), old(Contents()), key, now)
    {
      FullIsImplicit(P(), Contents(), key, now);
      var b := BucketOf(key, now);
      ok := Spend(key, b, now);
    }

    /** One request of `key`; `now` is the clock, read while the mutex is held. */
    method Allow(key: string, now: real) returns (ok: bool)
      requires Valid()
      modifies this, buckets.Values
      ensures Valid() && fresh(buckets.Values - old(buckets.Values))
      ensures history == old(history) + [Request(key, now)]
      ensures ok <==> Admitted(P(), history, |old(history)|)
      ensures Contents() == AfterRequest(P(), old(Contents()), key, now)
    {
      ghost var table := Contents();
      HistoryGrows(history, Request(key, now));
      history := history + [Request(key, now)];
      assert Contents() == table;
      ok := Touch(key, now);
    }

    /** Deletes every bucket last seen before `cutoff`. */
    method Evict(cutoff: real)
      modifies this`buckets
      ensures buckets == map key | key in old(buckets) && !(old(buckets)[key].lastSeen < cutoff) :: old(buckets)[key]
    {
      var pending := buckets.Keys;
      ghost var was := buckets;
      while pending != {}
        invariant pending <= was.Keys
        invariant forall key :: key in buckets <==>
                    key in was && (key in pending || !(was[key].lastSeen < cutoff))
        invariant forall key | key in buckets :: buckets[key] == was[key]
        decreases pending
      {
        var key :| key in pending;
        if buckets[key].lastSeen < cutoff {
          buckets := buckets - {key};
        }
        pending := pending - {key};
      }
    }

    /** One tick of the sweeper; `readAt` is the clock, read before the mutex is taken. */
    method SweepOnce(readAt: real)
      requires Valid()
      modifies this
      ensures Valid() && buckets.Values <= old(buckets.Values)
      ensures history == old(history) + [Sweep(readAt)]
      ensures Contents() == AfterSweep(P(), old(Contents()), readAt)
    {
      HistoryGrows(history, Sweep(readAt));
      history := history + [Sweep(readAt)];
      Evict(readAt - ttl);
    }

    lemma HistoryGrows(was: seq<Event>, e: Event)
      ensures Run(P(), was + [e], |was + [e]|) == Step(P(), Run(P(), was, |was|), e)
      ensures e.Request? ==> Admitted(P(), was + [e], |was|) == Allows(P(), Run(P(), was, |was|), e.key, e.now)
    {
      RunIgnoresLaterEvents(P(), was, [e], |was|);
    }
  }
}
