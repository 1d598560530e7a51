# Verification of the URL shortener

A Dafny model of the stateful parts of the URL shortener, with proofs about every run of them:

- the per-key token-bucket **rate limiter** and its idle-entry sweeper (`RateLimit`, `RateLimitTheorems`,
  `Visibility`);
- the **alias generator**, rejection sampling over a 62-letter alphabet (`Random`, `Uniformity`);
- the **Redis-fronted storage** over Postgres with a circuit breaker, one operation at a time (`Storage`,
  `RedisCache`, `CacheTheorems`);
- the same storage **under concurrency**, with singleflight: any number of clients, each moving one step at a time
  (`Interleaved`, `InterleavedInvariant`, `InterleavedTheorems`, `Steps`, `Staleness`, `ReadYourWrites`,
  `Singleflight`, `Breaker`, `Races`); `Atomicity` proves that every run of the sequential model is a run of this one;
- the **service** with its trimmed arguments and its collision retry (`Service`, `ServiceTheorems`).

`dafny verify dfyconfig.toml` checks the whole project.

## How to read it

Code that updates objects is modelled by classes: `Limiter` and `Bucket`, `EntropyReader` and `Generator`,
`PostgresRepo`, `Redis` and `Cache`, `Service`. Each method is proved equal to a function on values (`AfterRequest`,
`AfterSweep`, `Draw`, `Insert`, `Perform`, `Serve`), and the theorems are about runs of those functions. The concurrent
cache is a state machine: a run is a sequence of labels, each naming the client that moves and what its environment
decides.

Assumptions stated as `requires`:

- Instants come from a clock that does not go back. The limiter reads it under its mutex, the sweeper before taking it.
  A limiter has `rate >= 0`, `burst >= 0`, `ttl > 0` (a ticker refuses other periods). Tokens are reals.
- Cache `ttl` is positive wherever a theorem speaks of deadlines: Redis takes 0 for "no expiry".
- Redis starts empty, or (`Settled`, `Coherent`) with right entries, or, for convergence, with any entries that ttl bounds.

Assumptions built into the model:

- A database statement either takes effect and answers, or errs without effect (`fault`). A Redis call answers, or fails
  before or after it took effect (`Outcome`). A Redis entry is live strictly before its deadline.
- Singleflight is taken by its contract: one running call per key, its result shared with everyone who joined, the key
  forgotten when the call completes.
- An entropy source is any finite byte sequence followed by an error; this covers infinite sources, since an answer
  depends only on the bytes read.

What the model shows that the code's comments and tests do not say:

- Sweeping hands out a full bucket. It is invisible if and only if `rate * ttl >= burst` or `burst < 1`
  (`SweepsInvisibleIff`), and so are denied requests, which can keep a bucket from being swept (`DenialsInvisibleIff`).
  The deployed limiters meet this. Without it the windows to count are those since the bucket was last swept away
  (`ExactAdmission`), and the effective rate is `burst / ttl` (`EveryWindowIsBounded`).
- "Postgres remains the source of truth" does not keep Redis from serving a deleted url (`DeletedUrlIsServed`). Without
  overlap the only cause is a Delete whose `Del` was skipped or failed (`StaleOnlyAfterLostDel`). With overlap a Get can
  put a deleted url back although nothing fails (`DeletedUrlComesBack`); an entry is stale exactly if a Delete has
  overtaken it (`AgreesIffNotOvertaken`), and these are the two ways (`StaleEntryWasOvertaken`). Either way it is gone
  after ttl (`ConvergenceAfterLastWrite`).
- A Get that begins after a Save need not find the saved url. With overlap it can answer "not found" (`SavedUrlIsMissed`),
  exactly if a flight that read the table before the Save has not landed yet (`ReadYourWritesIff`). Without overlap it
  can answer an older url (`OldUrlIsServed`), exactly if an entry of an earlier row outlives both the Save's lost `Set`
  and the breaker (`SaveIsReadableIff`).
- The breaker keeps failing Redis calls a cooldown apart if operations do not overlap (`BreakerSpacing`). If they do, two
  failures come closer only if the second call passed the breaker before the first failure was marked (`BothFail`), or
  if marks overtook each other (`MarkIsOvertaken`); otherwise not (`FailuresAreSpaced`).
- The singleflight test expects one read for ten overlapping Gets. The code does not promise it: a late miss flies again
  (`OverlappingGetsMayFlyTwice`). A Get shares a running flight exactly if none has landed by the time it comes
  (`GetJoinsIffNotLanded`), and there is one read per flight (`OneReadPerFlight`).
- With an alias length of 0 the generated alias is empty, can be saved once (`EmptyAliasIsSaved`), and cannot be looked
  up; for every other alias a Save can be read back (`SaveThenPaddedGet`).

## Model

| member | source | states |
|---|---|---|
| RateLimit.Limiter.Allow | internal/transport/http/middleware/ratelimit/ratelimit.go:42-62 | one request: a missing bucket is created full, the refill is capped at burst, a token is taken only if there is a whole one, `lastSeen` moves even on denial; no other key changes, and the table stays the one the whole history produces |
| RateLimit.Limiter.SweepOnce | internal/transport/http/middleware/ratelimit/ratelimit.go:64-78 | one tick deletes exactly the buckets last seen before the cutoff and leaves the others untouched |
| RateLimit.Bucket.Take | internal/transport/http/middleware/ratelimit/ratelimit.go:53-61 | the bucket's lazy refill and its spending |
| RateLimitTheorems.ExactAdmission | internal/transport/http/middleware/ratelimit/ratelimit.go:42-62 | for every limiter and schedule: a request passes iff for every request of its key since the bucket was last swept away, itself included, the requests admitted since that one, plus this one, fit into burst plus rate times the elapsed time |
| RateLimitTheorems.HarmlessAdmission | internal/transport/http/middleware/ratelimit/ratelimit.go:42-62 | if an idle bucket refills within ttl, or nothing sweeps, the same counts from every earlier request of the key, swept or not |
| RateLimitTheorems.WindowBound | internal/transport/http/middleware/ratelimit/ratelimit.go:17-26 | no window of time admits more than burst plus its length times a rate that is at least the limiter's own and refills an idle bucket within ttl; the limiter's own rate if nothing sweeps |
| RateLimitTheorems.EveryWindowIsBounded | internal/transport/http/middleware/ratelimit/ratelimit.go:17-26 | so every limiter is bounded in every schedule: by its rate where that refills an idle bucket within ttl, else by burst / ttl |
| RateLimitTheorems.GreedyIsOptimal | internal/transport/http/middleware/ratelimit/ratelimit.go:53-61 | for every limiter and after every prefix of a schedule, no other selection that never overdraws the bucket has admitted more, whether that bucket is swept as often, less often or never |
| RateLimitTheorems.ErasureTheorem | internal/transport/http/middleware/ratelimit/ratelimit.go:42-78 | erasing any set of requests of other keys leaves every decision on a key as it was; so does erasing sweeps and denied requests, if an idle bucket refills within ttl or nothing sweeps (and Visibility proves the condition on the constants necessary) |
| RateLimitTheorems.IndependentBuckets | internal/transport/http/middleware/ratelimit/ratelimit.go:47-51 | the shared table decides each key as a limiter that sees only that key and the sweeps; if an idle bucket refills within ttl, or nothing sweeps, as one that sees only that key and never evicts |
| Visibility.SweepsInvisibleIff | internal/transport/http/middleware/ratelimit/ratelimit.go:64-78 | sweeping changes no decision in any schedule iff an idle bucket refills within ttl or burst is below one token |
| Visibility.DenialsInvisibleIff | internal/transport/http/middleware/ratelimit/ratelimit.go:47-61 | dropping any denied requests changes no other decision in any schedule iff an idle bucket refills within ttl or burst is below one token |
| Visibility.DeployedSweepsAreInvisible | internal/transport/http/ratelimit_config.go:6-10 | the deployed write and auth limiters (ttl of internal/transport/http/router.go:20) meet that condition, for sweeps and for denials |
| Visibility.DeployedWindows | internal/transport/http/ratelimit_config.go:6-10 | no window of the write limiter admits more than 20 requests plus 5 a second, and none of the auth limiter more than 5 plus 1 a second |
| Visibility.DeployedAdmissions | internal/transport/http/ratelimit_config.go:6-10 | no less either: a first volley of 20 or 5 requests passes, and so does every request of a client that spaces them by a fifth of a second, or a second |
| Visibility.DeployedSweeper | internal/transport/http/router.go:20 | their sweeper evicts exactly the buckets idle for more than ten minutes |
| RateLimitTheorems.SpacedClientIsNeverDenied | internal/transport/http/middleware/ratelimit/ratelimit.go:53-61 | with burst at least 1, a client whose requests are at least 1/rate apart is never denied, whatever is swept |
| Random.EntropyReader.ReadFull | pkg/random/random.go:44 | fills the buffer with the next bytes, or fails when too few are left |
| Random.Generator.Generate | pkg/random/random.go:39-63 | answers the first `size` letters of the accepted bytes of the stream, after the fewest blocks that suffice, or the error of a source that ends first; it terminates on every finite source |
| Random.Generator.Translate | pkg/random/random.go:48-59 | the inner loop: appends one block's letters in order and stops when the result is full |
| Random.EnoughBlocks | pkg/random/random.go:43-60 | the answer depends only on the blocks that suffice, not on what follows them |
| Random.TooFewBlocks | pkg/random/random.go:44-46 | if the last whole block does not suffice the draw is an error |
| Uniformity.FairCutoff | pkg/random/random.go:9-11 | a cutoff gives all residues modulo k the same number of preimages iff it is a multiple of k, and M - M % k is the greatest fair one up to M |
| Uniformity.ShareBelowCutoff | pkg/random/random.go:9-11 | below M - M % k each residue has exactly M/k preimages |
| Uniformity.SpellingsPerAlias | pkg/random/random.go:48-53 | every alias of n letters is spelled by exactly 4^n accepted byte strings of length n |
| Uniformity.DrawIsUniform | pkg/random/random.go:39-63 | of all byte streams of a given length, exactly as many make Generate answer one alias as any other, rejections and blocks included |
| Uniformity.DrawsAreUniform | pkg/random/random.go:39-63 | successive draws are jointly uniform: as many streams of a given length yield one sequence of aliases as any other |
| Uniformity.DrawnIsAlias | pkg/random/random.go:39-63 | an answered alias has the asked length and only letters of the alphabet |
| Storage.PostgresRepo.Save | internal/storage/postgres/repository.go:78-101 | inserts a row only if the alias is free (UNIQUE, migrations/000001_init.up.sql:5); otherwise answers the collision and changes nothing |
| Storage.PostgresRepo.Get | internal/storage/postgres/repository.go:103-120 | answers the row's url, or not found |
| Storage.PostgresRepo.Delete | internal/storage/postgres/repository.go:122-138 | removes the row, or answers not found when no row was affected |
| RedisCache.Cache.Save | internal/storage/redis/cache.go:58-73 | writes the table first; only on success, and only if the breaker is closed, sets the entry with ttl; a failed set trips the breaker and is not an error |
| RedisCache.Cache.Get | internal/storage/redis/cache.go:76-114 | a live entry wins; a miss, a failure or an open breaker falls back to the table, whose url alone is cached after a second breaker check |
| RedisCache.Cache.Delete | internal/storage/redis/cache.go:116-131 | deletes the row first, then the entry unless the breaker is open; a failed Del trips the breaker and is not an error |
| CacheTheorems.TableIsTransparent | internal/storage/redis/cache.go:58-131 | over any run the table evolves as if there were no cache; Get never changes it |
| CacheTheorems.WritesAreTransparent | internal/storage/redis/cache.go:58-131 | every Save and Delete answers what the bare storage would, and a Get does unless a live entry serves it |
| CacheTheorems.AnswersAreExact | internal/storage/redis/cache.go:58-131 | in every state and whatever fails: a Get answers the live entry that Redis serves, and otherwise every operation answers what the table calls for, a database error exactly if the database errs; an error of a write changes nothing |
| CacheTheorems.RedisFollowsTheTable | internal/storage/redis/cache.go:58-131 | an operation touches only the entry of its alias, and that only after the table answered without an error, the breaker let the call through and the call took effect: then a stored or found url is there for ttl, a deleted one gone |
| CacheTheorems.AgreementBreaksIff | internal/storage/redis/cache.go:58-131 | one operation makes a live entry disagree with the table iff it is a successful Delete whose Del is skipped or fails without effect while the entry is live |
| CacheTheorems.StaleOnlyAfterLostDel | internal/storage/redis/cache.go:116-131 | in any run, a live entry that disagrees with the table was left by such a Delete, less than ttl ago, and holds the url that Delete removed |
| CacheTheorems.DeletedUrlIsServed | internal/storage/redis/cache.go:116-131 | a run of three operations, one failed Del among them, whose last Get answers a deleted url |
| CacheTheorems.GetIsExact | internal/storage/redis/cache.go:76-114 | until a Del of the alias is lost, Get answers exactly what the table holds, whatever else fails |
| CacheTheorems.GetAfterSave | internal/storage/redis/cache.go:58-114 | from any state, a saved alias resolves to its url in every Get without a database error until it is deleted, unless the Save left a stale entry behind: its Set was skipped or lost, and an entry with another url outlives it and the breaker |
| CacheTheorems.SaveIsReadableIff | internal/storage/redis/cache.go:58-100 | that condition is exact: every next Get without a database error answers the saved url iff the Save left no stale entry behind |
| CacheTheorems.OldUrlIsServed | internal/storage/redis/cache.go:58-131 | a run of four operations whose Get answers a url deleted before the last Save |
| CacheTheorems.RedisServesUntilDeadline | internal/storage/redis/cache.go:68-98 | over runs: what a Save or a missed Get cached is served to every Get that reaches Redis before the deadline, even when the database errs, while no Delete of the alias succeeds; if nothing touched the alias since, the table decides from the deadline on |
| CacheTheorems.BreakerSpacing | internal/storage/redis/cache.go:50-56 | failing Redis calls of a run are at least five seconds apart, so j - i further failures take (j - i) times that; this includes the second check inside Get |
| CacheTheorems.BreakerKeepsGetsFromRedis | internal/storage/redis/cache.go:20-100 | for five seconds after a failing call of a run, whatever operation it was part of, a Get answers what the table says and changes no entry, whatever Redis holds |
| CacheTheorems.BreakerKeepsWritesFromRedis | internal/storage/redis/cache.go:20-131 | for as long, Save and Delete leave Redis and the breaker alone |
| CacheTheorems.BreakerOpensAgain | internal/storage/redis/cache.go:20-100 | from five seconds after it on, a Get that Redis answers is served by a live entry |
| Breaker.BreakerIsExact | internal/storage/redis/cache.go:50-56 | from a mark to the next one, whoever is running, a check lets its client through to Redis iff it reads the mark's instant plus five seconds or later |
| Breaker.FailuresAreSpaced | internal/storage/redis/cache.go:50-100 | under concurrency two failures are five seconds apart if the second client's check came after the first one's mark and no mark in between had read the clock earlier |
| Races.BothFail | internal/storage/redis/cache.go:50-87 | a run in which two Redis calls fail at one instant, both having passed the breaker before either tripped it |
| Races.MarkIsOvertaken | internal/storage/redis/cache.go:54-56 | a run in which a mark overtakes an older one, so that the breaker opens early |
| InterleavedInvariant.StepKeepsInv | internal/storage/redis/cache.go:58-131 | every step of every client keeps the invariant: entries, flights and what clients hold were really in the table at the recorded step, leaders own the running flight of their alias, writes were committed by their own statement |
| InterleavedTheorems.EntriesWereHeld | internal/storage/redis/cache.go:58-103 | every Redis entry was in the table while the operation that installed it ran; its deadline is ttl after the installation |
| InterleavedTheorems.ReturnedUrlsWereHeld | internal/storage/redis/cache.go:76-114 | every url a Get returns was in the table: between the birth and the landing of a flight that landed after the Get began, or less than ttl plus the installing operation's running time before the hit |
| InterleavedTheorems.OneFlightPerAlias | internal/storage/redis/cache.go:89-103 | two clients are never both inside the singleflight function of one alias |
| Steps.OthersAreLeftAlone | internal/storage/redis/cache.go:58-131 | a step of an operation leaves the row, the entry and the running flight of every other alias, and every other client, as they are |
| Steps.ServedIffLive | internal/storage/redis/cache.go:77-87 | a Get's Redis call serves it iff Redis answers and has a live entry; otherwise it goes on to the table, after a mark if the call failed |
| Steps.WritesReachRedis | internal/storage/redis/cache.go:68-126 | unless it fails before taking effect, a Set installs exactly the url stored or read, for ttl from then, and a Del removes the entry |
| Steps.RedisIsOptional | internal/storage/redis/cache.go:50-131 | skipped by the breaker, or failed and marked for five seconds, an operation goes on as if Redis had answered |
| InterleavedTheorems.FlightSharesOneAnswer | internal/storage/redis/cache.go:89-113 | all clients of a flight return the one answer its leader published, read from the table between the flight's birth and its landing, an error exactly if that statement erred; it landed only after each of them began |
| InterleavedTheorems.AnswersAreStatements | internal/storage/postgres/repository.go:78-138 | in every run, an answer not served from Redis comes from one statement of the run, the client's own or its flight leader's: a database error iff that statement erred, else url or not found, stored or collision, removed or not found, as the row was there or not, and the table changes accordingly |
| InterleavedTheorems.WritesAreLinearizable | internal/storage/postgres/repository.go:78-138 | a Save or Delete answers what its own statement did to the table, errors included, at a step between start and return, shared with no other client |
| InterleavedTheorems.SavesMinusDeletes | internal/storage/postgres/repository.go:78-138 | over any run, successful Saves minus successful Deletes of an alias is the change of its presence |
| InterleavedTheorems.OneSaveWins | internal/storage/postgres/repository.go:78-101 | of racing Saves on a free alias exactly one wins while nothing deletes it, so two wins have a Delete between them |
| InterleavedTheorems.WriteOnceIsImmune | internal/storage/redis/cache.go:58-114 | an alias only ever saved with one url resolves to that url in every Get that succeeds, under all interleavings, failures, expiries and deletions |
| ReadYourWrites.ReadYourWritesIff | internal/storage/redis/cache.go:76-113 | once a row is there and while it is not deleted, some run lets a Get that begins now miss it iff a flight of the alias is about to land with not found |
| Races.SavedUrlIsMissed | internal/storage/redis/cache.go:76-113 | a run in which a Get that begins after a Save has returned answers not found |
| InterleavedTheorems.Convergence | internal/storage/redis/cache.go:58-131 | from any state with the invariant: if the table's answer for an alias is constant from step m and all operations still running on it began later, every Get begun ttl afterwards returns exactly that answer, or the error its flight's statement met |
| InterleavedTheorems.ConvergenceAfterLastWrite | internal/storage/redis/cache.go:58-131 | the same, counted from the last commit of a Save or Delete of the alias and the return of the operations then in flight |
| InterleavedTheorems.AnyCacheHasAPast | internal/storage/redis/cache.go:58-131 | convergence may start from any table and any Redis contents with deadlines at most ttl away: they can be given a past that meets the invariant |
| Staleness.AgreesIffNotOvertaken | internal/storage/redis/cache.go:58-131 | in every reachable state a live entry agrees with the table iff no Delete of its alias has committed since its url was read or saved, other than one after which it was saved again |
| Staleness.AgreementBreaksIff | internal/storage/redis/cache.go:58-131 | a step breaks the agreement of a live entry iff it deletes the row under it, or installs a url that a Delete has overtaken since it was read or saved |
| Staleness.StaleEntryWasOvertaken | internal/storage/redis/cache.go:90-131 | a disagreeing entry was overtaken by a Delete: either it was installed afterwards, by an operation that had seen the url before, or that Delete's Del was skipped, failed or is still to come; it was installed less than ttl ago |
| Staleness.CommitsAreHistory | internal/storage/postgres/repository.go:78-138 | a row disappears exactly at the commit of a Delete and appears exactly at the commit of a Save |
| Singleflight.GetJoinsIffNotLanded | internal/storage/redis/cache.go:89 | a Get that comes later joins the flight running now iff no flight of the alias has landed in between |
| Singleflight.OneReadPerFlight | internal/storage/redis/cache.go:89-103 | between two quiet instants, the reads of the table, the flights taken off and the flights landed are equally many |
| Singleflight.TakeOffsMinusLandings | internal/storage/redis/cache.go:89-103 | over any run, flights taken off minus flights landed is the change of whether one is in the air |
| Races.DeletedUrlComesBack | internal/storage/redis/cache.go:90-104 | a run without any failure in which a Get reinstalls a url after a Delete has returned |
| Races.OverlappingGetsMayFlyTwice | internal/storage/redis/cache.go:89-103 | a run without any failure in which two overlapping Gets of one alias read the same row twice, in two flights |
| Atomicity.OperationsAreRuns | internal/storage/redis/cache.go:58-131 | every operation of the sequential model is a run of the concurrent one by any client that moves alone, wherever all others are, with the same answer and the same effect on table, Redis and breaker |
| Atomicity.SequencesAreRuns | internal/storage/redis/cache.go:58-131 | so is every sequential run, whichever clients take the operations: after each of them table, Redis, breaker and answer are those of the sequential model |
| Service.Service.Save | internal/service/url/service.go:73-88 | trims both arguments, refuses an empty url, saves under the given alias or under a generated one |
| Service.Service.SaveRolled | internal/service/url/service.go:138-171 | the retry loop: context first, then a draw, then a save; only a collision goes on, up to the retry budget |
| Service.Service.Get | internal/service/url/service.go:91-105 | trims the alias, refuses an empty one, asks the cached storage |
| Service.Service.Delete | internal/service/url/service.go:108-121 | trims the alias, refuses an empty one, deletes through the cached storage |
| ServiceTheorems.FirstFreeWins | internal/service/url/service.go:138-171 | whatever the context, the generator and the database do, generated Save ends at the first attempt that does not collide: a free candidate is stored as exactly one row after exactly that many draws, else the storage is unchanged and the error says what ended the loop |
| ServiceTheorems.SucceedsIffSomeFree | internal/service/url/service.go:138-171 | it succeeds iff some attempt within the budget finds a free candidate undisturbed and all before it collide |
| ServiceTheorems.CandidatesAreUniform | internal/service/url/service.go:143-153 | the candidates of a retry loop are jointly uniform |
| ServiceTheorems.OneRowOrNone | internal/service/url/service.go:138-171 | under any cancellation, generator or database error, an answered alias is a well-formed one that was free and is the only row added; without an answer nothing has changed |
| ServiceTheorems.TrimPadded | internal/service/url/service.go:76-77 | trimming removes exactly the white space, any of the 25 Unicode characters, around a string that has none at its ends |
| ServiceTheorems.PaddingIsIgnored | internal/service/url/service.go:73-121 | white space around the url or the alias makes no difference to what any request does |
| ServiceTheorems.GetAnswers | internal/service/url/service.go:91-105 | in every state and whatever fails, Get answers the live entry Redis serves, else the row's url, not found, or a database error exactly if the database errs |
| ServiceTheorems.DeleteAnswers | internal/service/url/service.go:108-121 | Delete answers that the row is gone only if it removed it; a blank alias, a database error and a missing row are errors that change nothing |
| ServiceTheorems.ChosenSaveAnswers | internal/service/url/service.go:73-88 | a Save under a given alias makes one attempt: a blank url, a database error and a collision change nothing |
| ServiceTheorems.GeneratedSaveAnswers | internal/service/url/service.go:73-88 | a Save without an alias is the retry loop with the trimmed url |
| ServiceTheorems.RunsAgree | internal/service/url/service.go:73-121 | a non-overlapping run without database errors and lost Dels leaves the table a plain map from trimmed aliases to trimmed urls would have, and Redis agreeing with it |
| ServiceTheorems.ServiceIsAMap | internal/service/url/service.go:73-121 | every request of such a run answers as that plain map |
| ServiceTheorems.SaveThenPaddedGet | internal/service/url/service.go:73-105 | after a Save, its alias with any white space around it resolves to the trimmed url, expired entry or not, iff an alias was given or the alias length is positive; otherwise Get answers that the alias is empty |
| ServiceTheorems.EmptyAliasIsSaved | internal/service/url/service.go:91-171 | with an alias length of 0 the first generated Save stores its url under the empty alias, and Get refuses it |

## Left out

- HTTP handlers, routing, logging, validation, authentication, the SSO client, configuration, bootstrap and health probe: wrappers around libraries.
- The client key of the limiter (`clientIP`): host and port parsing is not part of this model; a key is any string.
- The sweeper's ticker: sweeps may come at any time and in any number, which covers every ticker.
- Rounding of the limiter's floating-point tokens.
- SQL engine, pools, query timeouts and the length limit of `VARCHAR(255)`: the table is an atomic map whose statements have definite results.
- Redis beyond get, set with a deadline and delete; a failed call takes effect at its step or never, not later.
- Panics inside a singleflight call, and its `shared` result, which the code ignores.
- Random.EntropyReader.ReadFull: a reader that errs once and recovers is not represented; after a failed read the source is exhausted.
- Random.Generator.Generate: the size is a natural number; the program panics on a negative one when it makes the buffer.
- Service.Service.constructor: the refusal of a retry budget that is not positive is its precondition, not an error value.
- Error texts and wrapping: an error is the sentinel it wraps.
