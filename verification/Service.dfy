/** The URL service over the cached storage: trimmed arguments, and generated aliases retried on
    collision. */
module Service {
  import opened Common
  import opened Random
  import opened Storage
  import opened RedisCache

  // ---------- Trimming ----------

  /** Unicode white space. */
  predicate IsSpace(c: char) {
    var n := c as int;
    9 <= n <= 13 || n == 32 || n == 0x85 || n == 0xA0 || n == 0x1680 || 0x2000 <= n <= 0x200A ||
    n == 0x2028 || n == 0x2029 || n == 0x202F || n == 0x205F || n == 0x3000
  }

  function TrimLeft(s: string): string {
    if s != "" && IsSpace(s[0]) then TrimLeft(s[1..]) else s
  }

  function TrimRight(s: string): string {
    if s != "" && IsSpace(s[|s| - 1]) then TrimRight(s[..|s| - 1]) else s
  }

  function Trim(s: string): string {
    TrimRight(TrimLeft(s))
  }

  // ---------- What the service computes ----------

  datatype Why = InvalidUrl | EmptyAlias | Cancelled | NoAlias | Exhausted | Repository(error: Error)

  datatype Reply = Alias(alias: string) | Url(url: string) | Gone | Fails(why: Why)

  /** What the environment decides for one attempt at saving: the state of the context, whether the
      statement errs, and the Redis write. */
  datatype Attempt = Attempt(cancelled: bool, fault: bool, set_: Try)

  /** The storage and the unread entropy. */
  datatype System = System(world: World, entropy: seq<byte>)

  datatype Request =
    | SaveRequest(url: string, alias: string, attempts: seq<Attempt>)
    | GetRequest(alias: string, read: Try, fault: bool, set_: Try)
    | DeleteRequest(alias: string, fault: bool, del: Try)

  function SaveAlias(ttl: int, sys: System, url: string, alias: string, a: Attempt): (System, Reply) {
    var (w, r) := Perform(ttl, sys.world, Op.Save(url, alias, a.fault, a.set_));
    (sys.(world := w), if r.Failed? then Fails(Repository(r.error)) else Alias(alias))
  }

  /** One attempt after another, each with a fresh draw, until one does not collide. */
  function SaveGenerated(ttl: int, size: nat, sys: System, url: string, attempts: seq<Attempt>): (System, Reply)
    decreases attempts
  {
    if attempts == [] then (sys, Fails(Exhausted))
    else if attempts[0].cancelled then (sys, Fails(Cancelled))
    else
      var drawn := sys.(entropy := AfterDraw(sys.entropy, size));
      match Draw(sys.entropy, size)
      case None => (drawn, Fails(NoAlias))
      case Some(alias) =>
        var (sys', reply) := SaveAlias(ttl, drawn, url, alias, attempts[0]);
        if reply == Fails(Repository(UrlExists)) then SaveGenerated(ttl, size, sys', url, attempts[1..])
        else (sys', reply)
  }

  function Serve(ttl: int, size: nat, sys: System, q: Request): (System, Reply)
    requires q.SaveRequest? ==> q.attempts != []
  {
    match q
    case SaveRequest(url, alias, attempts) =>
      if Trim(url) == "" then (sys, Fails(InvalidUrl))
      else if Trim(alias) != "" then SaveAlias(ttl, sys, Trim(url), Trim(alias), attempts[0])
      else SaveGenerated(ttl, size, sys, Trim(url), attempts)
    case GetRequest(alias, read, fault, t) =>
      if Trim(alias) == "" then (sys, Fails(EmptyAlias))
      else
        var (w, r) := Perform(ttl, sys.world, Op.Get(Trim(alias), read, fault, t));
        (sys.(world := w), if r.Found? then Url(r.url) else Fails(Repository(r.error)))
    case DeleteRequest(alias, fault, t) =>
      if Trim(alias) == "" then (sys, Fails(EmptyAlias))
      else
        var (w, r) := Perform(ttl, sys.world, Op.Delete(Trim(alias), fault, t));
        (sys.(world := w), if r.Failed? then Fails(Repository(r.error)) else Gone)
  }

  // ---------- The service ----------

  class Service {
    const repository: Cache
    const generator: Generator
    const maxRetries: nat

    ghost predicate Valid()
      reads generator.entropyReader
    {
      maxRetries > 0 && generator.entropyReader.Valid()
    }

    ghost function State(): System
      requires Valid()
      reads repository, repository.next, repository.rdb, generator.entropyReader
    {
      System(repository.State(), generator.entropyReader.Rest())
    }

    /** Config.validate refuses a retry budget that is not positive. */
    constructor (repository: Cache, generator: Generator, maxRetries: int)
      requires maxRetries > 0 && generator.entropyReader.Valid()
      ensures Valid()
      ensures this.repository == repository && this.generator == generator && this.maxRetries == maxRetries
    {
      this.repository, this.generator, this.maxRetries := repository, generator, maxRetries;
    }

    method Save(url: string, alias: string, attempts: seq<Attempt>) returns (reply: Reply)
      requires Valid() && |attempts| == maxRetries
      modifies repository, repository.next, repository.rdb, generator.entropyReader
      ensures Valid()
      ensures (State(), reply) == Serve(repository.ttl, generator.size, old(State()), SaveRequest(url, alias, attempts))
    {
      var trimmedUrl, trimmedAlias := Trim(url), Trim(alias);
      if trimmedUrl == "" {
        return Fails(InvalidUrl);
      }
      if trimmedAlias != "" {
        reply := SaveChosen(trimmedUrl, trimmedAlias, attempts[0]);
      } else {
        reply := SaveRolled(trimmedUrl, attempts);
      }
    }

    method Get(alias: string, read: Try, fault: bool, t: Try) returns (reply: Reply)
      requires Valid()
      modifies repository, repository.rdb
      ensures Valid()
      ensures (State(), reply) == Serve(repository.ttl, generator.size, old(State()), GetRequest(alias, read, fault, t))
    {
      var trimmed := Trim(alias);
      if trimmed == "" {
        return Fails(EmptyAlias);
      }
      var r := repository.Get(trimmed, read, fault, t);
      reply := if r.Found? then Url(r.url) else Fails(Repository(r.error));
    }

    method Delete(alias: string, fault: bool, t: Try) returns (reply: Reply)
      requires Valid()
      modifies repository, repository.next, repository.rdb
      ensures Valid()
      ensures (State(), reply) == Serve(repository.ttl, generator.size, old(State()), DeleteRequest(alias, fault, t))
    {
      var trimmed := Trim(alias);
      if trimmed == "" {
        return Fails(EmptyAlias);
      }
      var r := repository.Delete(trimmed, fault, t);
      reply := if r.Failed? then Fails(Repository(r.error)) else Gone;
    }

    method SaveChosen(url: string, alias: string, a: Attempt) returns (reply: Reply)
      requires Valid()
      modifies repository, repository.next, repository.rdb
      ensures Valid()
      ensures (State(), reply) == SaveAlias(repository.ttl, old(State()), url, alias, a)
    {
      var r := repository.Save(url, alias, a.fault, a.set_);
      reply := if r.Failed? then Fails(Repository(r.error)) else Alias(alias);
    }

    method SaveRolled(url: string, attempts: seq<Attempt>) returns (reply: Reply)
      requires Valid() && |attempts| == maxRetries
      modifies repository, repository.next, repository.rdb, generator.entropyReader
      ensures Valid()
      ensures (State(), reply) == SaveGenerated(repository.ttl, generator.size, old(State()), url, attempts)
    {
      ghost var result := SaveGenerated(repository.ttl, generator.size, State(), url, attempts);
      for attempt := 0 to maxRetries
        invariant Valid()
        invariant SaveGenerated(repository.ttl, generator.size, State(), url, attempts[attempt..]) == result
      {
        if attempts[attempt].cancelled {
          return Fails(Cancelled);
        }
        assert attempts[attempt..][1..] == attempts[attempt + 1..];
        var alias, _ := generator.Generate();
        if alias.None? {
          return Fails(NoAlias);
        }
        reply := SaveChosen(url, alias.value, attempts[attempt]);
        if reply != Fails(Repository(UrlExists)) {
          return;
        }
      }
      return Fails(Exhausted);
    }
  }
}
