/** What survives any schedule of Redis failures when operations do not overlap. */
module CacheTheorems {
  import opened Common
  import opened Storage
  import opened RedisCache

  // ---------- Runs ----------

  /** The state after the first n operations. */
  function After(ttl: int, w: World, ops: seq<Op>, n: nat): World
    requires n <= |ops|
  {
    if n == 0 then w else Perform(ttl, After(ttl, w, ops, n - 1), ops[n - 1]).0
  }

  function Answer(ttl: int, w: World, ops: seq<Op>, i: nat): Response
    requires i < |ops|
  {
    Perform(ttl, After(ttl, w, ops, i), ops[i]).1
  }

  function Begin(op: Op): int {
    match op
    case Save(_, _, _, t) => t.check
    case Get(_, t, _, _) => t.check
    case Delete(_, _, t) => t.check
  }

  function End(op: Op): int {
    match op
    case Save(_, _, _, t) => t.mark
    case Get(_, _, _, t) => t.mark
    case Delete(_, _, t) => t.mark
  }

  predicate InOrder(t: Try) {
    t.check <= t.call <= t.mark
  }

  predicate WellTimed(op: Op) {
    match op
    case Save(_, _, _, t) => InOrder(t)
    case Get(_, read, _, t) => InOrder(read) && InOrder(t) && read.mark <= t.check
    case Delete(_, _, t) => InOrder(t)
  }

  /** The clock does not go back, and no operation starts before the one before it has ended. */
  predicate Sequential(ops: seq<Op>) {
    (forall i | 0 <= i < |ops| :: WellTimed(ops[i])) &&
    forall i, j | 0 <= i < j < |ops| :: End(ops[i]) <= Begin(ops[j])
  }

  // ---------- Write transparency ----------

  /** The same operation on the bare storage. */
  function Bare(rows: Rows, op: Op): (Rows, Response) {
    match op
    case Save(url, alias, fault, _) => Insert(rows, url, alias, fault)
    case Get(alias, _, fault, _) => (rows, Select(rows, alias, fault))
    case Delete(alias, fault, _) => Remove(rows, alias, fault)
  }

  function BareAfter(rows: Rows, ops: seq<Op>, n: nat): Rows
    requires n <= |ops|
  {
    if n == 0 then rows else Bare(BareAfter(rows, ops, n - 1), ops[n - 1]).0
  }

  /** Whatever Redis and the breaker do, the table evolves as if there were no cache. */
  lemma {:induction false} TableIsTransparent(ttl: int, w: World, ops: seq<Op>, n: nat)
    requires n <= |ops|
    ensures After(ttl, w, ops, n).rows == BareAfter(w.rows, ops, n)
  {
    if n > 0 {
      TableIsTransparent(ttl, w, ops, n - 1);
    }
  }

  /** ... and every Save and Delete answers what the bare storage would; a Get does too, unless
      Redis serves it. */
  lemma WritesAreTransparent(ttl: int, w: World, ops: seq<Op>, i: nat)
    requires i < |ops|
    ensures var bare := Bare(BareAfter(w.rows, ops, i), ops[i]).1;
            Answer(ttl, w, ops, i) == bare ||
            (ops[i].Get? && Live(After(ttl, w, ops, i).entries, ops[i].alias, ops[i].read.call) &&
             Answer(ttl, w, ops, i) == Found(After(ttl, w, ops, i).entries[ops[i].alias].url))
  {
    TableIsTransparent(ttl, w, ops, i);
  }

  // ---------- Staleness ----------

  /** The table holds the url of this entry for its alias. */
  predicate Current(w: World, alias: string)
    requires alias in w.entries
  {
    alias in w.rows && w.rows[alias] == w.entries[alias].url
  }

  /** What Redis holds when the run starts is right, and was put there before it. */
  predicate Settled(ttl: int, w: World, ops: seq<Op>) {
    forall alias | alias in w.entries ::
      Current(w, alias) && (ops != [] ==> w.entries[alias].deadline <= Begin(ops[0]) + ttl)
  }

  /** From t on, what Redis serves for the alias is what the table holds. */
  predicate Agrees(w: World, alias: string, t: int) {
    Live(w.entries, alias, t) ==> Current(w, alias)
  }

  /** The operation deletes the row, but its Del is skipped or fails without effect. */
  predicate LosesDel(w: World, op: Op, alias: string) {
    op.Delete? && op.alias == alias && !op.fault && alias in w.rows &&
    (!Available(w, op.del.check) || op.del.outcome.FailedBefore?)
  }

  /** One operation breaks agreement exactly when it loses the Del of an entry that is still live. */
  lemma AgreementBreaksIff(ttl: int, w: World, op: Op, alias: string, t: int)
    requires WellTimed(op) && End(op) <= t && Agrees(w, alias, Begin(op))
    ensures Agrees(Perform(ttl, w, op).0, alias, t) <==>
            !(LosesDel(w, op, alias) && Live(w.entries, alias, t))
  {
  }

  /** After one operation an entry is the old one, still right unless its Del was lost, or a new one
      that matches the table. */
  lemma EntryStep(ttl: int, w: World, op: Op, alias: string)
    requires WellTimed(op) && alias in Perform(ttl, w, op).0.entries
    ensures var w' := Perform(ttl, w, op).0;
            if alias in w.entries && w'.entries[alias] == w.entries[alias] then
              Current(w, alias) && !LosesDel(w, op, alias) ==> Current(w', alias)
            else
              Current(w', alias) && w'.entries[alias].deadline <= End(op) + ttl
  {
  }

  /** Every entry is the row its alias has, or the row a lost Del removed less than ttl before the
      entry's deadline; `i` is that delete, or -1. */
  lemma {:induction false} EntryProvenance(ttl: int, w: World, ops: seq<Op>, n: nat, alias: string) returns (i: int)
    requires ttl > 0 && Sequential(ops) && n <= |ops| && Settled(ttl, w, ops)
    requires alias in After(ttl, w, ops, n).entries
    ensures -1 <= i < n
    ensures i == -1 ==> Current(After(ttl, w, ops, n), alias)
    ensures i >= 0 ==>
              var then_ := After(ttl, w, ops, i);
              LosesDel(then_, ops[i], alias) && then_.rows[alias] == After(ttl, w, ops, n).entries[alias].url &&
              After(ttl, w, ops, n).entries[alias].deadline <= Begin(ops[i]) + ttl
    ensures n > 0 ==> After(ttl, w, ops, n).entries[alias].deadline <= End(ops[n - 1]) + ttl
  {
    if n == 0 {
      return -1;
    }
    var before, op := After(ttl, w, ops, n - 1), ops[n - 1];
    var after := After(ttl, w, ops, n);
    EntryStep(ttl, before, op, alias);
    i := -1;
    if alias in before.entries && after.entries[alias] == before.entries[alias] {
      i := EntryProvenance(ttl, w, ops, n - 1, alias);
      if n > 1 {
        EndsBefore(ops, n - 1);
      }
      if i == -1 && LosesDel(before, op, alias) {
        i := n - 1;
      }
    }
  }

  lemma EndsBefore(ops: seq<Op>, n: nat)
    requires Sequential(ops) && 0 < n < |ops|
    ensures End(ops[n - 1]) <= Begin(ops[n]) <= End(ops[n])
  {
  }

  /** A live entry that disagrees with the table was left behind, less than ttl ago, by a successful
      Delete whose Del was skipped or failed without effect. */
  lemma StaleOnlyAfterLostDel(ttl: int, w: World, ops: seq<Op>, n: nat, alias: string, t: int) returns (i: nat)
    requires ttl > 0 && Sequential(ops) && n <= |ops| && Settled(ttl, w, ops)
    requires !Agrees(After(ttl, w, ops, n), alias, t)
    ensures i < n && LosesDel(After(ttl, w, ops, i), ops[i], alias) && t - Begin(ops[i]) < ttl
    ensures After(ttl, w, ops, i).rows[alias] == After(ttl, w, ops, n).entries[alias].url
  {
    i := EntryProvenance(ttl, w, ops, n, alias);
  }

  /** Save; then Delete, whose Del fails; then, after the cooldown, Get. */
  const LOST_DEL: seq<Op> :=
    [Save("u", "a", false, Try(0, 0, 0, Answered)),
     Delete("a", false, Try(0, 0, 0, FailedBefore)),
     Get("a", Try(COOLDOWN, COOLDOWN, COOLDOWN, Answered), false, Try(COOLDOWN, COOLDOWN, COOLDOWN, Answered))]

  /** It does happen: the Get answers the url although its Delete has succeeded. */
  lemma DeletedUrlIsServed(ttl: int)
    requires ttl > COOLDOWN
    ensures Sequential(LOST_DEL) && Settled(ttl, World(map[], map[], 0), LOST_DEL)
    ensures Answer(ttl, World(map[], map[], 0), LOST_DEL, 1) == Removed
    ensures Answer(ttl, World(map[], map[], 0), LOST_DEL, 2) == Found("u")
  {
    var w := World(map[], map[], 0);
    assert After(ttl, w, LOST_DEL, 1) == World(map["a" := "u"], map["a" := Entry("u", ttl)], 0);
    assert map["a" := "u"] - {"a"} == map[];
    assert After(ttl, w, LOST_DEL, 2) == World(map[], map["a" := Entry("u", ttl)], COOLDOWN);
  }

  /** No Delete of the alias among the first n operations loses its Del. */
  predicate KeepsDels(ttl: int, w: World, ops: seq<Op>, n: nat, alias: string)
    requires n <= |ops|
  {
    forall i | 0 <= i < n :: !LosesDel(After(ttl, w, ops, i), ops[i], alias)
  }

  /** Until a Del is lost, Get answers exactly what the table holds; a database fault shows only when
      Redis does not answer. */
  lemma GetIsExact(ttl: int, w: World, ops: seq<Op>, n: nat)
    requires ttl > 0 && Sequential(ops) && n < |ops| && Settled(ttl, w, ops) && ops[n].Get?
    requires KeepsDels(ttl, w, ops, n, ops[n].alias)
    ensures var exact := Select(BareAfter(w.rows, ops, n), ops[n].alias, false);
            Answer(ttl, w, ops, n) == exact || (ops[n].fault && Answer(ttl, w, ops, n) == Failed(DbError))
  {
    TableIsTransparent(ttl, w, ops, n);
    if ops[n].alias in After(ttl, w, ops, n).entries {
      var _ := EntryProvenance(ttl, w, ops, n, ops[n].alias);
    }
  }

  /** No operation i .. n-1 removes the alias. */
  predicate NeverRemoved(w: World, ops: seq<Op>, i: nat, n: nat, alias: string)
    requires n <= |ops|
  {
    forall j | i <= j < n && ops[j].Delete? && ops[j].alias == alias ::
      Bare(BareAfter(w.rows, ops, j), ops[j]).1.Failed?
  }

  lemma NoRemoval(ttl: int, w: World, ops: seq<Op>, i: nat, n: nat, alias: string)
    requires i <= n < |ops| && NeverRemoved(w, ops, i, n + 1, alias) && alias in After(ttl, w, ops, n).rows
    ensures !(ops[n].Delete? && ops[n].alias == alias && !ops[n].fault)
  {
    TableIsTransparent(ttl, w, ops, n);
  }

  /** This Save leaves an entry with another url behind that Redis can still serve: its Set was skipped or
      failed without effect, and the entry outlives the breaker. */
  predicate LeavesStale(w: World, op: Op)
    requires op.Save?
  {
    op.alias in w.entries && w.entries[op.alias].url != op.url && End(op) < w.entries[op.alias].deadline &&
    if Available(w, op.set_.check) then
      op.set_.outcome.FailedBefore? && op.set_.mark + COOLDOWN < w.entries[op.alias].deadline
    else w.downUntil < w.entries[op.alias].deadline
  }

  /** The row is there, and so is its url in any entry that Redis can serve from t on. */
  predicate Shows(w: World, alias: string, url: string, t: int) {
    alias in w.rows && w.rows[alias] == url &&
    (Live(w.entries, alias, if t < w.downUntil then w.downUntil else t) ==> w.entries[alias].url == url)
  }

  lemma SaveShows(ttl: int, w: World, op: Op)
    requires ttl > 0 && WellTimed(op) && op.Save? && Perform(ttl, w, op).1.Stored?
    ensures Shows(Perform(ttl, w, op).0, op.alias, op.url, End(op)) <==> !LeavesStale(w, op)
  {
  }

  lemma ReadShows(ttl: int, w: World, get: Op, url: string)
    requires WellTimed(get) && get.Get? && !get.fault && Shows(w, get.alias, url, Begin(get))
    ensures Perform(ttl, w, get).1 == Found(url)
  {
  }

  lemma OperationKeepsShowing(ttl: int, w: World, op: Op, alias: string, url: string, t: int)
    requires ttl > 0 && WellTimed(op) && t <= Begin(op) && Shows(w, alias, url, t)
    requires !(op.Delete? && op.alias == alias && !op.fault)
    ensures Shows(Perform(ttl, w, op).0, alias, url, End(op))
  {
  }

  lemma {:induction false} StaysShown(ttl: int, w: World, ops: seq<Op>, i: nat, n: nat)
    requires ttl > 0 && Sequential(ops) && i < n <= |ops| && ops[i].Save? && Answer(ttl, w, ops, i).Stored?
    requires !LeavesStale(After(ttl, w, ops, i), ops[i]) && NeverRemoved(w, ops, i, n, ops[i].alias)
    ensures Shows(After(ttl, w, ops, n), ops[i].alias, ops[i].url, End(ops[n - 1]))
    decreases n
  {
    if n == i + 1 {
      assert WellTimed(ops[i]);
      SaveShows(ttl, After(ttl, w, ops, i), ops[i]);
    } else {
      StaysShown(ttl, w, ops, i, n - 1);
      NoRemoval(ttl, w, ops, i, n - 1, ops[i].alias);
      EndsBefore(ops, n - 1);
      assert WellTimed(ops[n - 1]);
      OperationKeepsShowing(ttl, After(ttl, w, ops, n - 1), ops[n - 1], ops[i].alias, ops[i].url, End(ops[n - 2]));
    }
  }

  /** Read your write, from any state: as long as it is not deleted, a saved alias resolves to its url in
      every Get, whatever Redis does, unless the Save left a stale entry behind. */
  lemma GetAfterSave(ttl: int, w: World, ops: seq<Op>, i: nat, n: nat)
    requires ttl > 0 && Sequential(ops) && i < n < |ops|
    requires ops[i].Save? && Answer(ttl, w, ops, i).Stored?
    requires ops[n].Get? && ops[n].alias == ops[i].alias && !ops[n].fault
    requires !LeavesStale(After(ttl, w, ops, i), ops[i]) && NeverRemoved(w, ops, i, n, ops[i].alias)
    ensures Answer(ttl, w, ops, n) == Found(ops[i].url)
  {
    StaysShown(ttl, w, ops, i, n);
    EndsBefore(ops, n);
    assert WellTimed(ops[n]) && End(ops[n - 1]) <= Begin(ops[n]);
    StillShows(After(ttl, w, ops, n), ops[i].alias, ops[i].url, End(ops[n - 1]), Begin(ops[n]));
    ReadShows(ttl, After(ttl, w, ops, n), ops[n], ops[i].url);
  }

  lemma StillShows(w: World, alias: string, url: string, t: int, t': int)
    requires Shows(w, alias, url, t) && t <= t'
    ensures Shows(w, alias, url, t')
  {
  }

  /** A Get that begins at t without a database error or overlap answers the url. */
  ghost predicate ReadsBack(ttl: int, w: World, alias: string, url: string, t: int) {
    forall get: Op | get.Get? && get.alias == alias && !get.fault && WellTimed(get) && t <= Begin(get) ::
      Perform(ttl, w, get).1 == Found(url)
  }

  /** The condition is exact: a successful Save is read back by every Get that comes next if and only if it
      left no stale entry behind. */
  lemma SaveIsReadableIff(ttl: int, w: World, op: Op)
    requires ttl > 0 && WellTimed(op) && op.Save? && Perform(ttl, w, op).1.Stored?
    ensures ReadsBack(ttl, Perform(ttl, w, op).0, op.alias, op.url, End(op)) <==> !LeavesStale(w, op)
  {
    var w' := Perform(ttl, w, op).0;
    SaveShows(ttl, w, op);
    if LeavesStale(w, op) {
      var now := if End(op) < w'.downUntil then w'.downUntil else End(op);
      var t := Try(now, now, now, Answered);
      var get := Op.Get(op.alias, t, false, t);
      assert get.Get? && WellTimed(get) && Perform(ttl, w', get).1 == Found(w.entries[op.alias].url);
    } else {
      forall get: Op | get.Get? && get.alias == op.alias && !get.fault && WellTimed(get) && End(op) <= Begin(get)
        ensures Perform(ttl, w', get).1 == Found(op.url)
      {
        StillShows(w', op.alias, op.url, End(op), Begin(get));
        ReadShows(ttl, w', get, op.url);
      }
    }
  }

  /** Save; Delete, whose Del fails; Save again while the breaker is open; then, after the cooldown, Get. */
  const LOST_SET: seq<Op> :=
    [Save("u", "a", false, Try(0, 0, 0, Answered)),
     Delete("a", false, Try(0, 0, 0, FailedBefore)),
     Save("v", "a", false, Try(0, 0, 0, Answered)),
     Get("a", Try(COOLDOWN, COOLDOWN, COOLDOWN, Answered), false, Try(COOLDOWN, COOLDOWN, COOLDOWN, Answered))]

  /** It does happen: the Get answers the url that was deleted, not the one that was saved since. */
  lemma OldUrlIsServed(ttl: int)
    requires ttl > COOLDOWN
    ensures Sequential(LOST_SET) && Settled(ttl, World(map[], map[], 0), LOST_SET)
    ensures Answer(ttl, World(map[], map[], 0), LOST_SET, 2) == Stored
    ensures Answer(ttl, World(map[], map[], 0), LOST_SET, 3) == Found("u")
  {
    var w, stale := World(map[], map[], 0), map["a" := Entry("u", ttl)];
    assert After(ttl, w, LOST_SET, 1) == World(map["a" := "u"], stale, 0);
    assert map["a" := "u"] - {"a"} == map[];
    assert After(ttl, w, LOST_SET, 2) == World(map[], stale, COOLDOWN);
    assert After(ttl, w, LOST_SET, 3) == World(map["a" := "v"], stale, COOLDOWN);
  }

  /** Redis takes this write. */
  predicate Takes(w: World, t: Try) {
    Available(w, t.check) && t.outcome.Answered?
  }

  /** Operation k, a Save or a Get that missed, found or made this row and put it into Redis. */
  predicate Caches(ttl: int, w: World, ops: seq<Op>, k: nat, alias: string, url: string)
    requires k < |ops|
  {
    var before, op := After(ttl, w, ops, k), ops[k];
    op.alias == alias &&
    match op
    case Save(url', _, _, t) => Answer(ttl, w, ops, k) == Stored && url' == url && Takes(before, t)
    case Get(_, read, _, t) =>
      Answer(ttl, w, ops, k) == Found(url) && ReadEntry(before, alias, read).1.None? &&
      Takes(ReadEntry(before, alias, read).0, t)
    case Delete(_, _, _) => false
  }

  /** The row is there, and so is an entry that serves its url at least until t. */
  predicate Cached(w: World, alias: string, url: string, t: int) {
    alias in w.rows && w.rows[alias] == url &&
    alias in w.entries && w.entries[alias].url == url && t <= w.entries[alias].deadline
  }

  lemma OperationKeepsCached(ttl: int, w: World, op: Op, alias: string, url: string, t: int)
    requires Cached(w, alias, url, t)
    requires !(op.Delete? && op.alias == alias && !op.fault)
    requires op.Save? || op.Get? ==> t <= op.set_.call + ttl
    ensures Cached(Perform(ttl, w, op).0, alias, url, t)
    ensures op.alias != alias ==> Perform(ttl, w, op).0.entries[alias] == w.entries[alias]
  {
  }

  lemma {:induction false} StaysCached(ttl: int, w: World, ops: seq<Op>, k: nat, n: nat, alias: string, url: string)
    requires Sequential(ops) && k < n <= |ops| && Caches(ttl, w, ops, k, alias, url)
    requires NeverRemoved(w, ops, k + 1, n, alias)
    ensures Cached(After(ttl, w, ops, n), alias, url, ops[k].set_.call + ttl)
    ensures (forall j | k < j < n :: ops[j].alias != alias) ==>
              After(ttl, w, ops, n).entries[alias].deadline == ops[k].set_.call + ttl
    decreases n
  {
    if n == k + 1 {
      assert WellTimed(ops[k]);
    } else {
      StaysCached(ttl, w, ops, k, n - 1, alias, url);
      TableIsTransparent(ttl, w, ops, n - 1);
      assert WellTimed(ops[k]) && WellTimed(ops[n - 1]) && End(ops[k]) <= Begin(ops[n - 1]);
      OperationKeepsCached(ttl, After(ttl, w, ops, n - 1), ops[n - 1], alias, url, ops[k].set_.call + ttl);
    }
  }

  /** What the cache is for.  A url that operation k has put into Redis is served from there to every Get
      that reaches Redis before the deadline, even when the database errs, as long as no Delete of the
      alias succeeds.  If nothing has touched the alias since, the deadline is exact: from then on the
      table decides. */
  lemma RedisServesUntilDeadline(ttl: int, w: World, ops: seq<Op>, k: nat, n: nat, alias: string, url: string)
    requires ttl > 0 && Sequential(ops) && k < n < |ops| && Caches(ttl, w, ops, k, alias, url)
    requires NeverRemoved(w, ops, k + 1, n, alias)
    requires ops[n].Get? && ops[n].alias == alias && Takes(After(ttl, w, ops, n), ops[n].read)
    ensures ops[n].read.call < ops[k].set_.call + ttl ==> Answer(ttl, w, ops, n) == Found(url)
    ensures ops[n].read.call >= ops[k].set_.call + ttl && (forall j | k < j < n :: ops[j].alias != alias) ==>
              Answer(ttl, w, ops, n) == Select(BareAfter(w.rows, ops, n), alias, ops[n].fault)
  {
    StaysCached(ttl, w, ops, k, n, alias, url);
    TableIsTransparent(ttl, w, ops, n);
  }

  // ---------- What operations do to Redis ----------

  predicate SameEntry(entries: Entries, entries': Entries, alias: string) {
    (alias in entries <==> alias in entries') && (alias in entries ==> entries[alias] == entries'[alias])
  }

  /** Redis follows the table: an operation touches no entry but that of its alias, and that one only if the
      table answered without an error, the breaker let the second call through, and the call took effect.
      Then a stored or found url is there for ttl, and a deleted one is gone. */
  lemma RedisFollowsTheTable(ttl: int, w: World, op: Op, alias: string)
    ensures var (w', r) := Perform(ttl, w, op);
            if op.alias != alias || r.Failed? then SameEntry(w.entries, w'.entries, alias)
            else match op
              case Save(url, _, _, t) =>
                if t.check < w.downUntil || t.outcome == FailedBefore then SameEntry(w.entries, w'.entries, alias)
                else alias in w'.entries && w'.entries[alias] == Entry(url, t.call + ttl)
              case Delete(_, _, t) =>
                if t.check < w.downUntil || t.outcome == FailedBefore then SameEntry(w.entries, w'.entries, alias)
                else alias !in w'.entries
              case Get(_, read, fault, t) =>
                if HitsRedis(w, alias, read) || t.outcome == FailedBefore || t.check < Breaker(w, read) then
                  SameEntry(w.entries, w'.entries, alias)
                else alias in w'.entries && r == Found(w'.entries[alias].url) &&
                     w'.entries[alias].deadline == t.call + ttl
  {
  }

  /** Redis serves this read. */
  predicate HitsRedis(w: World, alias: string, read: Try) {
    read.check >= w.downUntil && read.outcome == Answered &&
    alias in w.entries && read.call < w.entries[alias].deadline
  }

  /** Until when the breaker is open after this read. */
  function Breaker(w: World, read: Try): int {
    if read.check >= w.downUntil && read.outcome != Answered then read.mark + 5_000_000_000 else w.downUntil
  }

  /** What every operation answers, in every state: a Get the live entry that Redis serves, and otherwise
      every operation what the table calls for, or a database error exactly if the database errs. */
  lemma AnswersAreExact(ttl: int, w: World, op: Op)
    ensures var (w', r) := Perform(ttl, w, op);
            match op
            case Save(url, alias, fault, _) =>
              if fault then r == Failed(DbError) && w' == w
              else if alias in w.rows then r == Failed(UrlExists) && w' == w
              else r == Stored && w'.rows == w.rows[alias := url]
            case Delete(alias, fault, _) =>
              if fault then r == Failed(DbError) && w' == w
              else if alias !in w.rows then r == Failed(UrlNotFound) && w' == w
              else r == Removed && w'.rows == w.rows - {alias}
            case Get(alias, read, fault, _) =>
              w'.rows == w.rows &&
              if HitsRedis(w, alias, read) then r == Found(w.entries[alias].url) && w' == w
              else if fault then r == Failed(DbError)
              else if alias in w.rows then r == Found(w.rows[alias])
              else r == Failed(UrlNotFound)
  {
  }

  // ---------- The breaker ----------

  function FailureOf(w: World, t: Try): seq<int> {
    if Available(w, t.check) && !t.outcome.Answered? then [t.mark] else []
  }

  /** The instants at which the Redis calls of one operation failed. */
  function Failures(ttl: int, w: World, op: Op): seq<int> {
    match op
    case Save(url, alias, fault, t) =>
      if Insert(w.rows, url, alias, fault).1.Failed? then [] else FailureOf(w, t)
    case Get(alias, read, fault, t) =>
      var (w', hit) := ReadEntry(w, alias, read);
      FailureOf(w, read) +
      if hit.Some? || Select(w.rows, alias, fault).Failed? then [] else FailureOf(w', t)
    case Delete(alias, fault, t) =>
      if Remove(w.rows, alias, fault).1.Failed? then [] else FailureOf(w, t)
  }

  function FailuresAfter(ttl: int, w: World, ops: seq<Op>, n: nat): seq<int>
    requires n <= |ops|
  {
    if n == 0 then [] else FailuresAfter(ttl, w, ops, n - 1) + Failures(ttl, After(ttl, w, ops, n - 1), ops[n - 1])
  }

  /** Neighbouring instants are a cooldown apart. */
  predicate Spread(f: seq<int>) {
    |f| < 2 || (Spread(f[..|f| - 1]) && f[|f| - 1] - f[|f| - 2] >= COOLDOWN)
  }

  /** The breaker remembers the last failure. */
  predicate Remembers(f: seq<int>, downUntil: int) {
    Spread(f) && (f != [] ==> downUntil == f[|f| - 1] + COOLDOWN)
  }

  lemma TryKeepsSpread(f: seq<int>, w: World, t: Try)
    requires Remembers(f, w.downUntil) && InOrder(t)
    ensures Remembers(f + FailureOf(w, t), if Available(w, t.check) then Tripped(w, t) else w.downUntil)
  {
    var g := f + FailureOf(w, t);
    if FailureOf(w, t) == [] {
      assert g == f;
    } else {
      assert g[..|g| - 1] == f;
    }
  }

  lemma GetKeepsSpread(ttl: int, f: seq<int>, w: World, op: Op)
    requires Remembers(f, w.downUntil) && WellTimed(op) && op.Get?
    ensures Remembers(f + Failures(ttl, w, op), Perform(ttl, w, op).0.downUntil)
  {
    var (w', hit) := ReadEntry(w, op.alias, op.read);
    var one, two := FailureOf(w, op.read), FailureOf(w', op.set_);
    TryKeepsSpread(f, w, op.read);
    if hit.Some? || Select(w.rows, op.alias, op.fault).Failed? {
      assert f + (one + []) == f + one;
    } else {
      TryKeepsSpread(f + one, w', op.set_);
      assert f + (one + two) == f + one + two;
    }
  }

  lemma OperationKeepsSpread(ttl: int, f: seq<int>, w: World, op: Op)
    requires Remembers(f, w.downUntil) && WellTimed(op)
    ensures Remembers(f + Failures(ttl, w, op), Perform(ttl, w, op).0.downUntil)
  {
    assert f + [] == f;
    match op
    case Save(url, alias, fault, t) => TryKeepsSpread(f, w.(rows := Insert(w.rows, url, alias, fault).0), t);
    case Delete(alias, fault, t) => TryKeepsSpread(f, w.(rows := Remove(w.rows, alias, fault).0), t);
    case Get(alias, read, fault, t) => GetKeepsSpread(ttl, f, w, op);
  }

  lemma {:induction false} FailuresAreSpread(ttl: int, w: World, ops: seq<Op>, n: nat)
    requires n <= |ops| && forall i | 0 <= i < n :: WellTimed(ops[i])
    ensures Remembers(FailuresAfter(ttl, w, ops, n), After(ttl, w, ops, n).downUntil)
  {
    if n > 0 {
      FailuresAreSpread(ttl, w, ops, n - 1);
      var f, before := FailuresAfter(ttl, w, ops, n - 1), After(ttl, w, ops, n - 1);
      OperationKeepsSpread(ttl, f, before, ops[n - 1]);
    }
  }

  lemma {:induction false} SpreadAdds(f: seq<int>, i: nat, j: nat)
    requires Spread(f) && i <= j < |f|
    ensures f[j] - f[i] >= (j - i) * COOLDOWN
  {
    if j < |f| - 1 {
      SpreadAdds(f[..|f| - 1], i, j);
    } else if i < j {
      SpreadAdds(f[..|f| - 1], i, j - 1);
    }
  }

  /** Failing Redis calls are a cooldown of five seconds apart: failures i .. j of a run need (j - i) of them. */
  lemma BreakerSpacing(ttl: int, w: World, ops: seq<Op>, i: nat, j: nat)
    requires Sequential(ops) && i <= j < |FailuresAfter(ttl, w, ops, |ops|)|
    ensures var f := FailuresAfter(ttl, w, ops, |ops|);
            f[j] - f[i] >= (j - i) * 5_000_000_000
  {
    FailuresAreSpread(ttl, w, ops, |ops|);
    SpreadAdds(FailuresAfter(ttl, w, ops, |ops|), i, j);
  }

  /** The last failing call of the first n operations marked its failure at t. */
  predicate LastFailed(ttl: int, w: World, ops: seq<Op>, n: nat, t: int)
    requires n <= |ops|
  {
    var f := FailuresAfter(ttl, w, ops, n);
    f != [] && f[|f| - 1] == t
  }

  /** For five seconds after a failing call, whatever operation it was part of, a Get answers what the table
      says and leaves Redis alone, whatever Redis holds. */
  lemma BreakerKeepsGetsFromRedis(ttl: int, w: World, ops: seq<Op>, n: nat, t: int)
    requires Sequential(ops) && n < |ops| && LastFailed(ttl, w, ops, n, t) && ops[n].Get?
    requires ops[n].read.check < t + 5_000_000_000 && ops[n].set_.check < t + 5_000_000_000
    ensures After(ttl, w, ops, n + 1) == After(ttl, w, ops, n)
    ensures var rows := BareAfter(w.rows, ops, n);
            Answer(ttl, w, ops, n) ==
              if ops[n].fault then Failed(DbError)
              else if ops[n].alias in rows then Found(rows[ops[n].alias]) else Failed(UrlNotFound)
  {
    FailuresAreSpread(ttl, w, ops, n);
    TableIsTransparent(ttl, w, ops, n);
  }

  /** From five seconds after it on, a Get that Redis answers is served by a live entry. */
  lemma BreakerOpensAgain(ttl: int, w: World, ops: seq<Op>, n: nat, t: int)
    requires Sequential(ops) && n < |ops| && LastFailed(ttl, w, ops, n, t) && ops[n].Get?
    requires ops[n].read.check >= t + 5_000_000_000 && ops[n].read.outcome == Answered
    requires Live(After(ttl, w, ops, n).entries, ops[n].alias, ops[n].read.call)
    ensures Answer(ttl, w, ops, n) == Found(After(ttl, w, ops, n).entries[ops[n].alias].url)
  {
    FailuresAreSpread(ttl, w, ops, n);
  }

  /** Writes too: for five seconds they leave Redis alone, and answer as ever. */
  lemma BreakerKeepsWritesFromRedis(ttl: int, w: World, ops: seq<Op>, n: nat, t: int)
    requires Sequential(ops) && n < |ops| && LastFailed(ttl, w, ops, n, t) && !ops[n].Get?
    requires (if ops[n].Save? then ops[n].set_.check else ops[n].del.check) < t + 5_000_000_000
    ensures After(ttl, w, ops, n + 1).entries == After(ttl, w, ops, n).entries
    ensures After(ttl, w, ops, n + 1).downUntil == After(ttl, w, ops, n).downUntil
  {
    FailuresAreSpread(ttl, w, ops, n);
  }
}
