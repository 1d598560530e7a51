/** What the concurrent cache guarantees in every run, whatever Redis does. */
module InterleavedTheorems {
  import opened Common
  import opened Storage
  import opened Interleaved
  import opened InterleavedInvariant

  /** s is the state after some run of the system, from an empty cache over any table. */
  ghost predicate Reachable(ttl: int, s: State) {
    exists rows: Rows, now: int, ls: seq<Label> ::
      Runs(ttl, Init(rows, now), ls) && After(ttl, Init(rows, now), ls) == s
  }

  lemma ReachableInv(ttl: int, s: State)
    requires Reachable(ttl, s)
    ensures Inv(ttl, s)
  {
    var rows: Rows, now: int, ls: seq<Label> :|
      Runs(ttl, Init(rows, now), ls) && After(ttl, Init(rows, now), ls) == s;
    InitInv(ttl, rows, now);
    RunKeepsInv(ttl, Init(rows, now), ls);
  }

  predicate Returning(s: State, c: nat) {
    At(s, c).Busy? && At(s, c).point.Return?
  }

  /** The table after step k holds this url for the alias. */
  predicate Holds(hist: seq<Snapshot>, alias: string, url: string, k: nat) {
    k < |hist| && alias in hist[k].rows && hist[k].rows[alias] == url
  }

  // ---------- Runs ----------

  lemma {:induction false} RunsConcat(ttl: int, s: State, ls: seq<Label>, more: seq<Label>)
    requires s.hist != [] && Runs(ttl, s, ls) && Runs(ttl, After(ttl, s, ls), more)
    ensures Runs(ttl, s, ls + more) && After(ttl, s, ls + more) == After(ttl, After(ttl, s, ls), more)
    decreases ls
  {
    if ls == [] {
      assert ls + more == more;
    } else {
      assert (ls + more)[0] == ls[0] && (ls + more)[1..] == ls[1..] + more;
      var s', rest := Step(ttl, s, ls[0]), ls[1..];
      assert After(ttl, s, ls) == After(ttl, s', rest);
      RunsConcat(ttl, s', rest, more);
    }
  }

  /** One more step of a run that began at s0. */
  lemma Go(ttl: int, s0: State, ls: seq<Label>, s: State, l: Label) returns (ls': seq<Label>, s': State)
    requires s0.hist != [] && Runs(ttl, s0, ls) && After(ttl, s0, ls) == s && Enabled(s, l)
    ensures ls' == ls + [l] && Runs(ttl, s0, ls') && After(ttl, s0, ls') == s' == Step(ttl, s, l)
  {
    assert [l][1..] == [];
    RunsConcat(ttl, s0, ls, [l]);
    ls', s' := ls + [l], Step(ttl, s, l);
  }

  // ---------- Provenance ----------

  /** Every Redis entry was really in the table, while the operation that installed it ran. */
  lemma EntriesWereHeld(ttl: int, s: State, alias: string)
    requires ttl > 0 && Reachable(ttl, s) && alias in s.redis
    ensures var item := s.redis[alias];
            Holds(s.hist, alias, item.url, item.seen) && item.start <= item.seen <= item.installed < |s.hist| &&
            item.deadline == s.hist[item.installed].now + ttl
  {
    ReachableInv(ttl, s);
  }

  /** Every url a Get returns was really in the table at some step.  From a flight, that was inside
      the flight; from Redis, less than ttl ago plus however long the installing operation had run. */
  lemma ReturnedUrlsWereHeld(ttl: int, s: State, c: nat)
    requires ttl > 0 && Reachable(ttl, s) && Returning(s, c) && At(s, c).call.GetCall?
    requires At(s, c).point.seen.response.Found?
    ensures var b := At(s, c);
            Holds(s.hist, b.call.alias, b.point.seen.response.url, b.point.seen.at) &&
            match b.point.source
            case Own => false
            case Shared(f) =>
              f < |s.flights| && s.flights[f].born <= b.point.seen.at < s.flights[f].landed &&
              b.start < s.flights[f].landed
            case Hit(item, step) =>
              b.start < step < |s.hist| && item.start <= b.point.seen.at <= item.installed < step &&
              s.hist[step].now - s.hist[b.point.seen.at].now < ttl + s.hist[item.installed].now - s.hist[item.start].now
  {
    ReachableInv(ttl, s);
    var b := At(s, c);
    assert ClientOk(ttl, s.hist, s.flights, c, b);
    match b.point.source {
      case Own =>
      case Shared(f) => assert FlightOk(s.hist, s.flights[f]);
      case Hit(item, step) => assert s.hist[item.start].now <= s.hist[item.seen].now;
    }
  }

  // ---------- Singleflight ----------

  /** Two clients are never both inside the function of the same alias. */
  lemma OneFlightPerAlias(ttl: int, s: State, c: nat, d: nat)
    requires Reachable(ttl, s) && At(s, c).Busy? && At(s, d).Busy?
    requires Leads(At(s, c).point) && Leads(At(s, d).point) && At(s, c).call.alias == At(s, d).call.alias
    ensures c == d
  {
    ReachableInv(ttl, s);
    assert LeaderOk(s.group, s.flights, c, At(s, c)) && LeaderOk(s.group, s.flights, d, At(s, d));
  }

  /** Everyone a flight serves, its leader included, returns the one answer the leader published,
      and that answer is what the table said at a step between the flight's birth and its landing, or a
      database error.  The flight landed only after each of them had begun. */
  lemma FlightSharesOneAnswer(ttl: int, s: State, c: nat, f: nat)
    requires Reachable(ttl, s) && Returning(s, c) && At(s, c).point.source == Shared(f)
    ensures At(s, c).call.GetCall? && f < |s.flights| && s.flights[f].result == Some(At(s, c).point.seen)
    ensures s.flights[f].born <= At(s, c).point.seen.at < s.flights[f].landed
    ensures At(s, c).start < s.flights[f].landed < |s.hist|
    ensures Truthful(s.hist, At(s, c).call.alias, At(s, c).point.seen)
  {
    ReachableInv(ttl, s);
    assert ClientOk(ttl, s.hist, s.flights, c, At(s, c));
    assert FlightOk(s.hist, s.flights[f]);
  }

  // ---------- Answers ----------

  /** The history records the run: which client took step k, and whether its statement erred. */
  lemma {:induction false} HistoryIsTheRun(ttl: int, s: State, ls: seq<Label>, i: nat)
    requires s.hist != [] && Runs(ttl, s, ls) && i < |ls|
    ensures var hist, k := After(ttl, s, ls).hist, |s.hist| + i;
            k < |hist| && hist[k].actor == (if ls[i].Tick? then None else Some(ls[i].c)) &&
            hist[k].erred == if ls[i].Query? then Some(ls[i].fault) else None
    decreases ls
  {
    var s' := Step(ttl, s, ls[0]);
    StepAppends(ttl, s, ls[0]);
    RunAppends(ttl, s', ls[1..]);
    if i == 0 {
      StepIsRecorded(ttl, s, ls[0]);
      SameAt(s'.hist, After(ttl, s', ls[1..]).hist, |s.hist|);
    } else {
      HistoryIsTheRun(ttl, s', ls[1..], i - 1);
    }
  }

  lemma SameAt(hist: seq<Snapshot>, hist': seq<Snapshot>, k: nat)
    requires hist <= hist' && k < |hist|
    ensures hist'[k] == hist[k]
  {
  }

  lemma StepIsRecorded(ttl: int, s: State, l: Label)
    requires s.hist != [] && Enabled(s, l)
    ensures Last(Step(ttl, s, l)).actor == if l.Tick? then None else Some(l.c)
    ensures Last(Step(ttl, s, l)).erred == if l.Query? then Some(l.fault) else None
  {
  }

  /** Every answer comes from a statement, and is exactly what that statement's outcome calls for.  If it
      is not served from Redis, step `at` of the run was a statement: of the client itself, if it writes,
      and of the leader of its flight, if it reads.  The client answers a database error if and only if
      that statement met one, and otherwise what the table said then. */
  lemma AnswersAreStatements(ttl: int, rows: Rows, now: int, ls: seq<Label>, c: nat)
    requires Runs(ttl, Init(rows, now), ls) && Returning(After(ttl, Init(rows, now), ls), c)
    requires !At(After(ttl, Init(rows, now), ls), c).point.source.Hit?
    ensures var s := After(ttl, Init(rows, now), ls);
            var call, response, at := At(s, c).call, At(s, c).point.seen.response, At(s, c).point.seen.at;
            0 < at <= |ls| && at < |s.hist| && ls[at - 1].Query? &&
            (response == Failed(DbError) <==> ls[at - 1].fault) &&
            var before, after := s.hist[at - 1].rows, s.hist[at].rows;
            match call
            case GetCall(alias) =>
              At(s, c).point.source.Shared? && At(s, c).point.source.flight < |s.flights| &&
              ls[at - 1].c == s.flights[At(s, c).point.source.flight].leader &&
              (!ls[at - 1].fault ==>
                 response == if alias in after then Found(after[alias]) else Failed(UrlNotFound))
            case SaveCall(url, alias) =>
              ls[at - 1].c == c &&
              if ls[at - 1].fault then after == before
              else if alias in before then response == Failed(UrlExists) && after == before
              else response == Stored && after == before[alias := url]
            case DeleteCall(alias) =>
              ls[at - 1].c == c &&
              if ls[at - 1].fault then after == before
              else if alias in before then response == Removed && after == before - {alias}
              else response == Failed(UrlNotFound) && after == before
  {
    var s := After(ttl, Init(rows, now), ls);
    InitInv(ttl, rows, now);
    RunKeepsInv(ttl, Init(rows, now), ls);
    RunAppends(ttl, Init(rows, now), ls);
    AnswerIsRecorded(ttl, s, c);
    FirstIsSilent(ttl, Init(rows, now), ls);
    HistoryIsTheRun(ttl, Init(rows, now), ls, At(s, c).point.seen.at - 1);
  }

  lemma FirstIsSilent(ttl: int, s: State, ls: seq<Label>)
    requires s.hist != [] && Runs(ttl, s, ls)
    ensures After(ttl, s, ls).hist != [] && After(ttl, s, ls).hist[0] == s.hist[0]
  {
    RunAppends(ttl, s, ls);
  }

  /** The same of a state with the invariant, by its history. */
  lemma AnswerIsRecorded(ttl: int, s: State, c: nat)
    requires Inv(ttl, s) && Returning(s, c) && !At(s, c).point.source.Hit?
    ensures var b, seen := At(s, c), At(s, c).point.seen;
            seen.at < |s.hist| && s.hist[seen.at].erred.Some? &&
            if b.call.GetCall? then
              b.point.source.Shared? && b.point.source.flight < |s.flights| &&
              s.hist[seen.at].actor == Some(s.flights[b.point.source.flight].leader) &&
              Truthful(s.hist, b.call.alias, seen)
            else Committed(s.hist, c, b.call, b.start, seen)
  {
    var b := At(s, c);
    assert ClientOk(ttl, s.hist, s.flights, c, b);
    if b.point.source.Shared? {
      assert FlightOk(s.hist, s.flights[b.point.source.flight]);
    }
  }

  // ---------- Writes ----------

  /** A Save or Delete answers what its one statement did to the table, at a step of its own between
      its start and its return; no other client shares that step. */
  lemma WritesAreLinearizable(ttl: int, s: State, c: nat, d: nat)
    requires Reachable(ttl, s) && Returning(s, c) && !At(s, c).call.GetCall?
    ensures Committed(s.hist, c, At(s, c).call, At(s, c).start, At(s, c).point.seen)
    ensures Returning(s, d) && !At(s, d).call.GetCall? && d != c ==> At(s, d).point.seen.at != At(s, c).point.seen.at
  {
    ReachableInv(ttl, s);
    assert ClientOk(ttl, s.hist, s.flights, c, At(s, c));
    if Returning(s, d) && !At(s, d).call.GetCall? {
      assert ClientOk(ttl, s.hist, s.flights, d, At(s, d));
    }
  }

  /** This step commits a Save (or a Delete) of the alias. */
  predicate SaveCommits(s: State, l: Label, alias: string)
    requires s.hist != []
  {
    l.Query? && Enabled(s, l) && At(s, l.c).call.SaveCall? && At(s, l.c).call.alias == alias &&
    Statement(Last(s).rows, At(s, l.c).call, l.fault).1.Stored?
  }

  predicate DeleteCommits(s: State, l: Label, alias: string)
    requires s.hist != []
  {
    l.Query? && Enabled(s, l) && At(s, l.c).call.DeleteCall? && At(s, l.c).call.alias == alias &&
    Statement(Last(s).rows, At(s, l.c).call, l.fault).1.Removed?
  }

  /** This step sends a Save statement for the alias that the database does not fail. */
  predicate SaveTried(s: State, l: Label, alias: string)
    requires s.hist != []
  {
    l.Query? && Enabled(s, l) && At(s, l.c).call.SaveCall? && At(s, l.c).call.alias == alias && !l.fault
  }

  /** How often steps of a kind happen in a run. */
  function Saves(ttl: int, s: State, ls: seq<Label>, alias: string): nat
    requires s.hist != [] && Runs(ttl, s, ls)
    decreases ls
  {
    if ls == [] then 0
    else (if SaveCommits(s, ls[0], alias) then 1 else 0) + Saves(ttl, Step(ttl, s, ls[0]), ls[1..], alias)
  }

  function Deletes(ttl: int, s: State, ls: seq<Label>, alias: string): nat
    requires s.hist != [] && Runs(ttl, s, ls)
    decreases ls
  {
    if ls == [] then 0
    else (if DeleteCommits(s, ls[0], alias) then 1 else 0) + Deletes(ttl, Step(ttl, s, ls[0]), ls[1..], alias)
  }

  function Tries(ttl: int, s: State, ls: seq<Label>, alias: string): nat
    requires s.hist != [] && Runs(ttl, s, ls)
    decreases ls
  {
    if ls == [] then 0
    else (if SaveTried(s, ls[0], alias) then 1 else 0) + Tries(ttl, Step(ttl, s, ls[0]), ls[1..], alias)
  }

  function Present(s: State, alias: string): int
    requires s.hist != []
  {
    if alias in Last(s).rows then 1 else 0
  }

  lemma StepConserves(ttl: int, s: State, l: Label, alias: string)
    requires s.hist != [] && Enabled(s, l)
    ensures Present(Step(ttl, s, l), alias) ==
            Present(s, alias) + (if SaveCommits(s, l, alias) then 1 else 0) -
            if DeleteCommits(s, l, alias) then 1 else 0
    ensures SaveTried(s, l, alias) && alias !in Last(s).rows ==> SaveCommits(s, l, alias)
  {
  }

  /** Conservation: successful Saves minus successful Deletes is the change of presence. */
  lemma {:induction false} SavesMinusDeletes(ttl: int, s: State, ls: seq<Label>, alias: string)
    requires s.hist != [] && Runs(ttl, s, ls)
    ensures Saves(ttl, s, ls, alias) - Deletes(ttl, s, ls, alias) ==
            Present(After(ttl, s, ls), alias) - Present(s, alias)
    decreases ls
  {
    if ls != [] {
      StepConserves(ttl, s, ls[0], alias);
      SavesMinusDeletes(ttl, Step(ttl, s, ls[0]), ls[1..], alias);
    }
  }

  /** Of any number of racing Saves on a free alias exactly one wins, as long as nothing deletes it;
      so two successful Saves of one alias have a successful Delete between them. */
  lemma {:induction false} OneSaveWins(ttl: int, s: State, ls: seq<Label>, alias: string)
    requires s.hist != [] && Runs(ttl, s, ls) && Deletes(ttl, s, ls, alias) == 0
    ensures Saves(ttl, s, ls, alias) <= 1
    ensures alias in Last(s).rows ==> Saves(ttl, s, ls, alias) == 0
    ensures alias !in Last(s).rows && Tries(ttl, s, ls, alias) > 0 ==> Saves(ttl, s, ls, alias) == 1
    decreases ls
  {
    SavesMinusDeletes(ttl, s, ls, alias);
    if ls != [] {
      StepConserves(ttl, s, ls[0], alias);
      OneSaveWins(ttl, Step(ttl, s, ls[0]), ls[1..], alias);
    }
  }

  // ---------- Write-once aliases ----------

  predicate OnlyEver(hist: seq<Snapshot>, alias: string, url: string) {
    forall k | 0 <= k < |hist| && alias in hist[k].rows :: hist[k].rows[alias] == url
  }

  /** Every Save of the alias that is ever called carries this url. */
  predicate SavedOnlyAs(ls: seq<Label>, alias: string, url: string) {
    forall i | 0 <= i < |ls| && ls[i].Begin? && ls[i].call.SaveCall? && ls[i].call.alias == alias ::
      ls[i].call.url == url
  }

  /** Every Save of the alias that is running carries this url. */
  predicate CallOnly(s: State, alias: string, url: string) {
    forall c | c in s.clients && s.clients[c].Busy? && s.clients[c].call.SaveCall? &&
          s.clients[c].call.alias == alias ::
      s.clients[c].call.url == url
  }

  predicate CarryOnly(s: State, alias: string, url: string) {
    OnlyEver(s.hist, alias, url) && CallOnly(s, alias, url)
  }

  lemma StepSavesOnly(ttl: int, s: State, l: Label, alias: string, url: string)
    requires s.hist != [] && Enabled(s, l) && CarryOnly(s, alias, url) && SavedOnlyAs([l], alias, url)
    ensures var rows := Last(Step(ttl, s, l)).rows; alias in rows ==> rows[alias] == url
  {
    assert alias in Last(s).rows ==> s.hist[|s.hist| - 1].rows[alias] == url;
    assert l.Query? ==> At(s, l.c).Busy?;
  }

  lemma StepCallsOnly(ttl: int, s: State, l: Label, alias: string, url: string)
    requires s.hist != [] && Enabled(s, l) && CallOnly(s, alias, url) && SavedOnlyAs([l], alias, url)
    ensures CallOnly(Step(ttl, s, l), alias, url)
  {
    assert l == [l][0];
  }

  lemma StepCarriesOnly(ttl: int, s: State, l: Label, alias: string, url: string)
    requires s.hist != [] && Enabled(s, l) && CarryOnly(s, alias, url) && SavedOnlyAs([l], alias, url)
    ensures CarryOnly(Step(ttl, s, l), alias, url)
  {
    StepCallsOnly(ttl, s, l, alias, url);
    StepSavesOnly(ttl, s, l, alias, url);
    var x := StepRecords(ttl, s, l);
  }

  lemma {:induction false} RunCarriesOnly(ttl: int, s: State, ls: seq<Label>, alias: string, url: string)
    requires s.hist != [] && Runs(ttl, s, ls) && CarryOnly(s, alias, url) && SavedOnlyAs(ls, alias, url)
    ensures CarryOnly(After(ttl, s, ls), alias, url)
    decreases ls
  {
    if ls != [] {
      assert SavedOnlyAs([ls[0]], alias, url);
      assert forall i | 0 <= i < |ls[1..]| :: ls[1..][i] == ls[i + 1];
      StepCarriesOnly(ttl, s, ls[0], alias, url);
      RunCarriesOnly(ttl, Step(ttl, s, ls[0]), ls[1..], alias, url);
    }
  }

  /** An alias that is only ever saved with one url resolves to that url in every Get that succeeds,
      under all interleavings, failures, expiries and deletions. */
  lemma WriteOnceIsImmune(ttl: int, rows: Rows, now: int, ls: seq<Label>, c: nat, alias: string, url: string)
    requires ttl > 0 && Runs(ttl, Init(rows, now), ls) && SavedOnlyAs(ls, alias, url)
    requires alias in rows ==> rows[alias] == url
    requires var s := After(ttl, Init(rows, now), ls);
             Returning(s, c) && At(s, c).call == GetCall(alias) && At(s, c).point.seen.response.Found?
    ensures At(After(ttl, Init(rows, now), ls), c).point.seen.response == Found(url)
  {
    var s := After(ttl, Init(rows, now), ls);
    RunCarriesOnly(ttl, Init(rows, now), ls, alias, url);
    ReturnedUrlsWereHeld(ttl, s, c);
  }

  // ---------- Convergence ----------

  // These theorems start from any state with the invariant: not only from the reachable ones, but from
  // any table and any Redis contents that ttl bounds, since a past can be made up that explains them.

  /** A quiet system with these rows and these entries, none of them live beyond ttl from now. */
  lemma AnyCacheHasAPast(ttl: int, rows: Rows, entries: Entries, now: int) returns (s: State)
    requires forall alias | alias in entries :: entries[alias].deadline <= now + ttl
    ensures Inv(ttl, s) && Last(s).rows == rows && Last(s).now == now && s.clients == map[] && s.group == map[]
    ensures s.redis.Keys == entries.Keys
    ensures forall alias | alias in entries ::
              s.redis[alias].url == entries[alias].url && s.redis[alias].deadline == entries[alias].deadline
  {
    var lo := Earliest(entries, now + ttl) - ttl;
    var urls: Rows := map alias | alias in entries :: entries[alias].url;
    var past := seq(now - lo + 1, i requires 0 <= i < now - lo + 1 => Snapshot(urls, lo + i, None, None));
    var redis := map alias | alias in entries ::
      var at := entries[alias].deadline - ttl - lo; Item(entries[alias].url, entries[alias].deadline, at, at, at);
    s := State(past + [Snapshot(rows, now, None, None)], redis, 0, map[], [], map[], map[]);
    forall alias | alias in s.redis
      ensures Genuine(ttl, s.hist, alias, s.redis[alias])
    {
      assert s.hist[s.redis[alias].seen] == past[s.redis[alias].seen];
    }
  }

  ghost function Earliest(entries: Entries, most: int): (d: int)
    ensures d <= most && forall alias | alias in entries :: d <= entries[alias].deadline
    decreases entries.Keys
  {
    if entries == map[] then most
    else
      var alias :| alias in entries;
      var d := Earliest(entries - {alias}, most);
      assert forall other | other in entries && other != alias :: other in entries - {alias};
      if d <= entries[alias].deadline then d else entries[alias].deadline
  }

  /** From step m on the table's answer for the alias stays the same. */
  predicate Steady(hist: seq<Snapshot>, alias: string, m: nat) {
    m < |hist| && forall k | m <= k < |hist| :: Select(hist[k].rows, alias, false) == Select(hist[m].rows, alias, false)
  }

  /** Every operation still running on the alias began at step m or later. */
  predicate Quiet(s: State, alias: string, m: nat) {
    forall c | c in s.clients && s.clients[c].Busy? && s.clients[c].call.alias == alias :: s.clients[c].start >= m
  }

  /** Nothing that a Get begun at step q or later can meet was read before step m: not the flight
      it would join, nor an entry installed since q, nor what the clients hold. */
  predicate Renewed(s: State, alias: string, m: nat, q: nat) {
    SharedRenewed(s, alias, m, q) && forall c | c in s.clients :: ClientRenewed(s.flights, s.clients[c], alias, m, q)
  }

  predicate SharedRenewed(s: State, alias: string, m: nat, q: nat) {
    (alias in s.group ==> s.group[alias] < |s.flights| && s.flights[s.group[alias]].born >= m) &&
    (alias in s.redis && s.redis[alias].installed >= q ==> s.redis[alias].seen >= m)
  }

  predicate ClientRenewed(flights: seq<Flight>, b: Client, alias: string, m: nat, q: nat) {
    b.Busy? && b.call.alias == alias ==>
      b.start >= m && (b.call.GetCall? && b.start >= q ==> NewlyRead(flights, b.point, m, q))
  }

  predicate NewlyRead(flights: seq<Flight>, point: Point, m: nat, q: nat) {
    match point
    case Wait(f) => f < |flights| && flights[f].born >= m
    case FlightRead(f) => f < |flights| && flights[f].born >= m
    case FlightCheck(f, _) => f < |flights| && flights[f].born >= m
    case FlightSet(f, _) => f < |flights| && flights[f].born >= m
    case FlightMark(f, _) => f < |flights| && flights[f].born >= m
    case FlightDone(f, _) => f < |flights| && flights[f].born >= m
    case Return(_, Shared(f)) => f < |flights| && flights[f].born >= m
    case Return(_, Hit(item, _)) => item.installed >= q ==> item.seen >= m
    case _ => true
  }

  lemma QuietIsRenewed(ttl: int, s: State, alias: string, m: nat)
    requires Inv(ttl, s) && Quiet(s, alias, m)
    ensures Renewed(s, alias, m, |s.hist|)
  {
    if alias in s.group {
      assert Led(s, alias, s.group[alias]);
      var c := s.flights[s.group[alias]].leader;
      assert ClientOk(ttl, s.hist, s.flights, c, s.clients[c]);
    }
    forall c | c in s.clients && s.clients[c].Busy? && s.clients[c].call == GetCall(alias)
      ensures s.clients[c].start < |s.hist|
    {
      assert ClientOk(ttl, s.hist, s.flights, c, s.clients[c]);
    }
  }

  /** The flights keep when they were born. */
  predicate SameBirths(flights: seq<Flight>, flights': seq<Flight>) {
    |flights| <= |flights'| && forall f | 0 <= f < |flights| :: flights'[f].born == flights[f].born
  }

  /** The moving client and the shared state stay renewed. */
  predicate RenewedMove(s: State, s': State, c: nat, alias: string, m: nat, q: nat) {
    SameBirths(s.flights, s'.flights) && s'.clients - {c} == s.clients - {c} && SharedRenewed(s', alias, m, q) &&
    (c in s'.clients ==> ClientRenewed(s'.flights, s'.clients[c], alias, m, q))
  }

  lemma OthersStayRenewed(s: State, s': State, c: nat, alias: string, m: nat, q: nat)
    requires Renewed(s, alias, m, q) && RenewedMove(s, s', c, alias, m, q)
    ensures Renewed(s', alias, m, q)
  {
    forall d | d in s'.clients && d != c
      ensures d in s.clients && s'.clients[d] == s.clients[d]
    {
      assert d in s'.clients - {c} && d in s.clients - {c};
      assert s'.clients[d] == (s'.clients - {c})[d] == (s.clients - {c})[d] == s.clients[d];
    }
  }

  lemma ClientMoves(ttl: int, s: State, l: Label) returns (b: Client)
    requires s.hist != [] && Enabled(s, l) && !l.Tick?
    ensures Step(ttl, s, l).clients == if l.Leave? then s.clients - {l.c} else s.clients[l.c := b]
  {
    b := At(Step(ttl, s, l), l.c);
  }

  lemma OnlyOneMoves(ttl: int, s: State, l: Label)
    requires s.hist != [] && Enabled(s, l) && !l.Tick?
    ensures Step(ttl, s, l).clients - {l.c} == s.clients - {l.c}
  {
    var b := ClientMoves(ttl, s, l);
    assert s.clients[l.c := b] - {l.c} == s.clients - {l.c};
    assert s.clients - {l.c} - {l.c} == s.clients - {l.c};
  }

  lemma ReadIsRenewed(ttl: int, s: State, c: nat, outcome: Outcome, alias: string, m: nat, q: nat)
    requires s.hist != [] && Enabled(s, CallRedis(c, outcome)) && ClientOk(ttl, s.hist, s.flights, c, At(s, c))
    requires At(s, c).point.ReadRedis?
    requires SharedRenewed(s, alias, m, q) && ClientRenewed(s.flights, At(s, c), alias, m, q)
    ensures RenewedMove(s, StepRedis(ttl, s, c, outcome), c, alias, m, q)
  {
    OnlyOneMoves(ttl, s, CallRedis(c, outcome));
  }

  lemma WriteIsRenewed(ttl: int, s: State, c: nat, outcome: Outcome, alias: string, m: nat, q: nat)
    requires s.hist != [] && Enabled(s, CallRedis(c, outcome)) && ClientOk(ttl, s.hist, s.flights, c, At(s, c))
    requires At(s, c).point.WriteRedis?
    requires SharedRenewed(s, alias, m, q) && ClientRenewed(s.flights, At(s, c), alias, m, q)
    ensures RenewedMove(s, StepRedis(ttl, s, c, outcome), c, alias, m, q)
  {
    OnlyOneMoves(ttl, s, CallRedis(c, outcome));
  }

  lemma SetIsRenewed(ttl: int, s: State, c: nat, outcome: Outcome, alias: string, m: nat, q: nat)
    requires s.hist != [] && Enabled(s, CallRedis(c, outcome)) && ClientOk(ttl, s.hist, s.flights, c, At(s, c))
    requires At(s, c).point.FlightSet?
    requires SharedRenewed(s, alias, m, q) && ClientRenewed(s.flights, At(s, c), alias, m, q)
    ensures RenewedMove(s, StepRedis(ttl, s, c, outcome), c, alias, m, q)
  {
    OnlyOneMoves(ttl, s, CallRedis(c, outcome));
  }

  lemma RedisIsRenewed(ttl: int, s: State, c: nat, outcome: Outcome, alias: string, m: nat, q: nat)
    requires s.hist != [] && Enabled(s, CallRedis(c, outcome)) && ClientOk(ttl, s.hist, s.flights, c, At(s, c))
    requires SharedRenewed(s, alias, m, q) && ClientRenewed(s.flights, At(s, c), alias, m, q)
    ensures RenewedMove(s, StepRedis(ttl, s, c, outcome), c, alias, m, q)
  {
    if At(s, c).point.ReadRedis? {
      ReadIsRenewed(ttl, s, c, outcome, alias, m, q);
    } else if At(s, c).point.WriteRedis? {
      WriteIsRenewed(ttl, s, c, outcome, alias, m, q);
    } else {
      SetIsRenewed(ttl, s, c, outcome, alias, m, q);
    }
  }

  lemma GroupIsRenewed(ttl: int, s: State, l: Label, alias: string, m: nat, q: nat)
    requires s.hist != [] && Enabled(s, l) && (l.Enter? || l.Land? || l.Wake?)
    requires ClientOk(ttl, s.hist, s.flights, l.c, At(s, l.c))
    requires SharedRenewed(s, alias, m, q) && ClientRenewed(s.flights, At(s, l.c), alias, m, q) && m <= q <= |s.hist|
    ensures RenewedMove(s, Step(ttl, s, l), l.c, alias, m, q)
  {
    OnlyOneMoves(ttl, s, l);
  }

  lemma ElseIsRenewed(ttl: int, s: State, l: Label, alias: string, m: nat, q: nat)
    requires s.hist != [] && Enabled(s, l) && !(l.Tick? || l.Enter? || l.Land? || l.Wake? || l.CallRedis?)
    requires l.Begin? || ClientOk(ttl, s.hist, s.flights, l.c, At(s, l.c))
    requires SharedRenewed(s, alias, m, q) && ClientRenewed(s.flights, At(s, l.c), alias, m, q) && m <= q <= |s.hist|
    ensures RenewedMove(s, Step(ttl, s, l), l.c, alias, m, q)
  {
    OnlyOneMoves(ttl, s, l);
  }

  lemma StepStaysRenewed(ttl: int, s: State, l: Label, alias: string, m: nat, q: nat)
    requires Inv(ttl, s) && Enabled(s, l) && m <= q <= |s.hist| && Renewed(s, alias, m, q)
    ensures Renewed(Step(ttl, s, l), alias, m, q)
  {
    if !l.Tick? {
      assert l.Begin? || ClientOk(ttl, s.hist, s.flights, l.c, At(s, l.c));
      assert ClientRenewed(s.flights, At(s, l.c), alias, m, q);
      if l.CallRedis? {
        RedisIsRenewed(ttl, s, l.c, l.outcome, alias, m, q);
      } else if l.Enter? || l.Land? || l.Wake? {
        GroupIsRenewed(ttl, s, l, alias, m, q);
      } else {
        ElseIsRenewed(ttl, s, l, alias, m, q);
      }
      OthersStayRenewed(s, Step(ttl, s, l), l.c, alias, m, q);
    }
  }

  lemma {:induction false} RunStaysRenewed(ttl: int, s: State, ls: seq<Label>, alias: string, m: nat, q: nat)
    requires Inv(ttl, s) && Runs(ttl, s, ls) && m <= q <= |s.hist| && Renewed(s, alias, m, q)
    ensures Renewed(After(ttl, s, ls), alias, m, q)
    decreases ls
  {
    if ls != [] {
      StepKeepsInv(ttl, s, ls[0]);
      StepStaysRenewed(ttl, s, ls[0], alias, m, q);
      StepAppends(ttl, s, ls[0]);
      RunStaysRenewed(ttl, Step(ttl, s, ls[0]), ls[1..], alias, m, q);
    }
  }

  lemma StepAppends(ttl: int, s: State, l: Label)
    requires s.hist != [] && Enabled(s, l)
    ensures s.hist < Step(ttl, s, l).hist && |Step(ttl, s, l).hist| == |s.hist| + 1
  {
    var _ := StepRecords(ttl, s, l);
  }

  lemma StepRecords(ttl: int, s: State, l: Label) returns (x: Snapshot)
    requires s.hist != [] && Enabled(s, l)
    ensures Step(ttl, s, l).hist == s.hist + [x]
  {
    var hist := Step(ttl, s, l).hist;
    x := hist[|hist| - 1];
  }

  lemma {:induction false} RunAppends(ttl: int, s: State, ls: seq<Label>)
    requires s.hist != [] && Runs(ttl, s, ls)
    ensures s.hist <= After(ttl, s, ls).hist && |After(ttl, s, ls).hist| == |s.hist| + |ls|
    decreases ls
  {
    if ls != [] {
      StepAppends(ttl, s, ls[0]);
      RunAppends(ttl, Step(ttl, s, ls[0]), ls[1..]);
    }
  }

  /** An entry still live at ttl after the last step of s was installed after s. */
  lemma LiveMeansInstalledLater(ttl: int, hist: seq<Snapshot>, q: nat, item: Item, start: nat, step: nat)
    requires ClockOk(hist) && 0 < q && q - 1 < |hist| && item.installed < |hist| && start <= step < |hist|
    requires item.deadline == hist[item.installed].now + ttl && hist[step].now < item.deadline
    requires hist[start].now >= hist[q - 1].now + ttl
    ensures item.installed >= q
  {
    assert hist[start].now <= hist[step].now;
  }

  /** Convergence.  Say the table's answer for the alias does not change from step m on, and in state s
      every operation running on it began at m or later.  Then every Get that begins at least ttl
      after s, however Redis fails in between, returns exactly the table's answer, or the
      error of its flight's own statement. */
  lemma Convergence(ttl: int, s: State, ls: seq<Label>, alias: string, m: nat, c: nat)
    requires ttl > 0 && Inv(ttl, s) && Runs(ttl, s, ls) && m <= |s.hist| && Quiet(s, alias, m)
    requires var s' := After(ttl, s, ls);
             Steady(s'.hist, alias, m) && Returning(s', c) && At(s', c).call == GetCall(alias) &&
             At(s', c).start < |s'.hist| && |s.hist| <= At(s', c).start &&
             s'.hist[At(s', c).start].now >= Last(s).now + ttl
    ensures var s' := After(ttl, s, ls);
            At(s', c).point.seen.response == Select(Last(s').rows, alias, false) ||
            FlightErred(s', At(s', c).point)
  {
    var s', q := After(ttl, s, ls), |s.hist|;
    QuietIsRenewed(ttl, s, alias, m);
    RunStaysRenewed(ttl, s, ls, alias, m, q);
    RunKeepsInv(ttl, s, ls);
    RunAppends(ttl, s, ls);
    var b := At(s', c);
    assert ClientOk(ttl, s'.hist, s'.flights, c, b) && NewlyRead(s'.flights, b.point, m, q);
    assert s'.hist[q - 1] == Last(s);
    AnswerIsFresh(ttl, s', c, m, q);
    SteadyAnswer(s'.hist, alias, m, b.point.seen.at);
  }

  /** The answer is a database error, met by the statement of the flight that gave it. */
  predicate FlightErred(s: State, point: Point) {
    point.Return? && point.source.Shared? && point.seen.response == Failed(DbError) &&
    point.seen.at < |s.hist| && s.hist[point.seen.at].erred == Some(true)
  }

  /** What a renewed Get answers is what the table said at step m or later. */
  lemma AnswerIsFresh(ttl: int, s: State, c: nat, m: nat, q: nat)
    requires Inv(ttl, s) && Returning(s, c) && At(s, c).call.GetCall? && ClientOk(ttl, s.hist, s.flights, c, At(s, c))
    requires NewlyRead(s.flights, At(s, c).point, m, q) && 0 < q <= At(s, c).start < |s.hist|
    requires s.hist[At(s, c).start].now >= s.hist[q - 1].now + ttl
    ensures var b := At(s, c);
            m <= b.point.seen.at < |s.hist| &&
            (b.point.seen.response == Select(s.hist[b.point.seen.at].rows, b.call.alias, false) ||
             FlightErred(s, b.point))
  {
    var b := At(s, c);
    match b.point.source {
      case Own =>
      case Shared(f) => assert FlightOk(s.hist, s.flights[f]);
      case Hit(item, step) => LiveMeansInstalledLater(ttl, s.hist, q, item, b.start, step);
    }
  }

  lemma SteadyAnswer(hist: seq<Snapshot>, alias: string, m: nat, k: nat)
    requires Steady(hist, alias, m) && m <= k < |hist|
    ensures Select(hist[k].rows, alias, false) == Select(hist[|hist| - 1].rows, alias, false)
  {
  }

  lemma StepWithoutCommit(ttl: int, s: State, l: Label, alias: string)
    requires s.hist != [] && Enabled(s, l) && !SaveCommits(s, l, alias) && !DeleteCommits(s, l, alias)
    ensures Select(Last(Step(ttl, s, l)).rows, alias, false) == Select(Last(s).rows, alias, false)
  {
  }

  /** While no Save or Delete of the alias commits, the table's answer for it stays the same. */
  lemma {:induction false} NoCommitIsSteady(ttl: int, s: State, ls: seq<Label>, alias: string, k: nat)
    requires s.hist != [] && Runs(ttl, s, ls) && Saves(ttl, s, ls, alias) == Deletes(ttl, s, ls, alias) == 0
    requires |s.hist| - 1 <= k < |After(ttl, s, ls).hist|
    ensures Select(After(ttl, s, ls).hist[k].rows, alias, false) == Select(Last(s).rows, alias, false)
    decreases ls
  {
    RunAppends(ttl, s, ls);
    if |s.hist| <= k {
      var s' := Step(ttl, s, ls[0]);
      StepAppends(ttl, s, ls[0]);
      StepWithoutCommit(ttl, s, ls[0], alias);
      NoCommitIsSteady(ttl, s', ls[1..], alias, k);
    }
  }

  /** Nothing commits for the alias between s0 and s, nor after s: its answer is steady. */
  lemma SteadySinceLastWrite(ttl: int, s0: State, ls0: seq<Label>, s: State, ls: seq<Label>, alias: string, k: nat)
    requires s0.hist != [] && Runs(ttl, s0, ls0) && s == After(ttl, s0, ls0) && Runs(ttl, s, ls)
    requires Saves(ttl, s0, ls0, alias) == Deletes(ttl, s0, ls0, alias) == 0
    requires Saves(ttl, s, ls, alias) == Deletes(ttl, s, ls, alias) == 0
    requires |s0.hist| - 1 <= k < |After(ttl, s, ls).hist|
    ensures Select(After(ttl, s, ls).hist[k].rows, alias, false) == Select(Last(s0).rows, alias, false)
  {
    RunAppends(ttl, s0, ls0);
    RunAppends(ttl, s, ls);
    if k < |s.hist| {
      assert After(ttl, s, ls).hist[k] == s.hist[k];
      NoCommitIsSteady(ttl, s0, ls0, alias, k);
    } else {
      NoCommitIsSteady(ttl, s0, ls0, alias, |s.hist| - 1);
      NoCommitIsSteady(ttl, s, ls, alias, k);
    }
  }

  /** Convergence after the last write.  In state s0 the last Save or Delete of the alias has committed;
      in s, later, every operation that was then running on the alias has finished.  Every Get that
      begins at least ttl after s returns exactly the table's answer, or the error of its flight's own
      statement. */
  lemma ConvergenceAfterLastWrite(ttl: int, s0: State, ls0: seq<Label>, s: State, ls: seq<Label>, alias: string, c: nat)
    requires ttl > 0 && Inv(ttl, s0) && Runs(ttl, s0, ls0) && s == After(ttl, s0, ls0) && Runs(ttl, s, ls)
    requires Saves(ttl, s0, ls0, alias) == Deletes(ttl, s0, ls0, alias) == 0
    requires Saves(ttl, s, ls, alias) == Deletes(ttl, s, ls, alias) == 0
    requires Quiet(s, alias, |s0.hist|) && ls != []
    requires var s' := After(ttl, s, ls);
             Returning(s', c) && At(s', c).call == GetCall(alias) && |s.hist| <= At(s', c).start < |s'.hist| &&
             s'.hist[At(s', c).start].now >= Last(s).now + ttl
    ensures var s' := After(ttl, s, ls);
            At(s', c).point.seen.response == Select(Last(s').rows, alias, false) ||
            FlightErred(s', At(s', c).point)
  {
    var m := |s0.hist|;
    RunKeepsInv(ttl, s0, ls0);
    RunAppends(ttl, s0, ls0);
    RunAppends(ttl, s, ls);
    forall k: nat | m <= k < |After(ttl, s, ls).hist|
      ensures Select(After(ttl, s, ls).hist[k].rows, alias, false) == Select(Last(s0).rows, alias, false)
    {
      SteadySinceLastWrite(ttl, s0, ls0, s, ls, alias, k);
    }
    Convergence(ttl, s, ls, alias, m, c);
  }
}
