/** When a live Redis entry of the concurrent cache disagrees with the table, and why. */
module Staleness {
  import opened Common
  import opened Storage
  import opened Interleaved
  import opened InterleavedInvariant
  import opened InterleavedTheorems

  // ---------- The history of a row ----------

  /** Step k deleted the row of the alias. */
  predicate Deleted(hist: seq<Snapshot>, alias: string, k: nat) {
    0 < k < |hist| && alias in hist[k - 1].rows && alias !in hist[k].rows
  }

  /** Step k saved the alias with this url. */
  predicate SavedAs(hist: seq<Snapshot>, alias: string, url: string, k: nat) {
    0 < k < |hist| && alias !in hist[k - 1].rows && Holds(hist, alias, url, k)
  }

  /** Since step `at` the alias has been deleted, and not been saved with this url again. */
  predicate Overtaken(hist: seq<Snapshot>, alias: string, url: string, at: nat) {
    exists k: nat | at < k < |hist| ::
      Deleted(hist, alias, k) && forall j: nat | k < j < |hist| :: !SavedAs(hist, alias, url, j)
  }

  /** Step k does not overwrite a row. */
  predicate KeepsUrls(hist: seq<Snapshot>, k: nat)
    requires 0 < k < |hist|
  {
    forall alias | alias in hist[k - 1].rows && alias in hist[k].rows :: hist[k].rows[alias] == hist[k - 1].rows[alias]
  }

  /** A row is never overwritten: its url changes only by being deleted and saved again. */
  predicate InsertOnly(hist: seq<Snapshot>) {
    forall k: nat | 0 < k < |hist| :: KeepsUrls(hist, k)
  }

  lemma StepKeepsUrls(ttl: int, s: State, l: Label)
    requires s.hist != [] && Enabled(s, l)
    ensures KeepsUrls(Step(ttl, s, l).hist, |s.hist|)
  {
    StepAppends(ttl, s, l);
    assert Step(ttl, s, l).hist[|s.hist| - 1] == Last(s);
  }

  lemma StepInsertsOnly(ttl: int, s: State, l: Label)
    requires s.hist != [] && Enabled(s, l) && InsertOnly(s.hist)
    ensures InsertOnly(Step(ttl, s, l).hist)
  {
    StepAppends(ttl, s, l);
    StepKeepsUrls(ttl, s, l);
    PrefixKeepsUrls(s.hist, Step(ttl, s, l).hist);
  }

  lemma PrefixKeepsUrls(hist: seq<Snapshot>, hist': seq<Snapshot>)
    requires hist < hist' && |hist'| == |hist| + 1 && InsertOnly(hist)
    requires |hist| > 0 ==> KeepsUrls(hist', |hist|)
    ensures InsertOnly(hist')
  {
    forall k: nat | 0 < k < |hist'|
      ensures KeepsUrls(hist', k)
    {
      if k < |hist| {
        assert KeepsUrls(hist, k) && hist'[k - 1] == hist[k - 1] && hist'[k] == hist[k];
      }
    }
  }

  lemma {:induction false} RunInsertsOnly(ttl: int, s: State, ls: seq<Label>)
    requires s.hist != [] && Runs(ttl, s, ls) && InsertOnly(s.hist)
    ensures InsertOnly(After(ttl, s, ls).hist)
    decreases ls
  {
    if ls != [] {
      StepInsertsOnly(ttl, s, ls[0]);
      RunInsertsOnly(ttl, Step(ttl, s, ls[0]), ls[1..]);
    }
  }

  lemma ReachableInsertsOnly(ttl: int, s: State)
    requires Reachable(ttl, s)
    ensures InsertOnly(s.hist)
  {
    var rows: Rows, now: int, ls: seq<Label> :|
      Runs(ttl, Init(rows, now), ls) && After(ttl, Init(rows, now), ls) == s;
    RunInsertsOnly(ttl, Init(rows, now), ls);
  }

  /** The histories of rows are the commits of Saves and Deletes. */
  lemma CommitsAreHistory(ttl: int, s: State, l: Label, alias: string)
    requires s.hist != [] && Enabled(s, l)
    ensures Deleted(Step(ttl, s, l).hist, alias, |s.hist|) <==> DeleteCommits(s, l, alias)
    ensures (exists url :: SavedAs(Step(ttl, s, l).hist, alias, url, |s.hist|)) <==> SaveCommits(s, l, alias)
  {
    StepAppends(ttl, s, l);
    var s' := Step(ttl, s, l);
    assert s'.hist[|s.hist| - 1] == Last(s);
    if SaveCommits(s, l, alias) {
      assert SavedAs(s'.hist, alias, At(s, l.c).call.url, |s.hist|);
    }
  }

  /** Once gone, a url is back only if it is saved again. */
  lemma {:induction false} StaysGone(hist: seq<Snapshot>, alias: string, url: string, k: nat, n: nat)
    requires InsertOnly(hist) && k <= n < |hist| && !Holds(hist, alias, url, k)
    requires forall j: nat | k < j < |hist| :: !SavedAs(hist, alias, url, j)
    ensures !Holds(hist, alias, url, n)
  {
    if k < n {
      StaysGone(hist, alias, url, k, n - 1);
      assert KeepsUrls(hist, n) && !SavedAs(hist, alias, url, n);
    }
  }

  /** A url that was held and no longer is has been deleted: k is the last time. */
  lemma {:induction false} LastDelete(hist: seq<Snapshot>, alias: string, url: string, at: nat, n: nat) returns (k: nat)
    requires InsertOnly(hist) && at < n < |hist| && Holds(hist, alias, url, at) && !Holds(hist, alias, url, n)
    ensures at < k <= n && Deleted(hist, alias, k)
    ensures forall j: nat | k < j <= n :: !SavedAs(hist, alias, url, j)
  {
    assert KeepsUrls(hist, n);
    if Holds(hist, alias, url, n - 1) {
      k := n;
    } else {
      k := LastDelete(hist, alias, url, at, n - 1);
    }
  }

  /** The table still holds a url it once held exactly when no Delete has overtaken it. */
  lemma HeldUnlessOvertaken(hist: seq<Snapshot>, alias: string, url: string, at: nat)
    requires InsertOnly(hist) && Holds(hist, alias, url, at)
    ensures Holds(hist, alias, url, |hist| - 1) <==> !Overtaken(hist, alias, url, at)
  {
    if Overtaken(hist, alias, url, at) {
      var k: nat :| at < k < |hist| && Deleted(hist, alias, k) &&
                    forall j: nat | k < j < |hist| :: !SavedAs(hist, alias, url, j);
      StaysGone(hist, alias, url, k, |hist| - 1);
    }
    if !Holds(hist, alias, url, |hist| - 1) {
      var _ := LastDelete(hist, alias, url, at, |hist| - 1);
    }
  }

  // ---------- Agreement ----------

  predicate LiveEntry(s: State, alias: string)
    requires s.hist != []
  {
    alias in s.redis && Last(s).now < s.redis[alias].deadline
  }

  /** The live entry of the alias, if any, is what the table holds. */
  predicate Agrees(s: State, alias: string)
    requires s.hist != []
  {
    LiveEntry(s, alias) ==> Holds(s.hist, alias, s.redis[alias].url, |s.hist| - 1)
  }

  /** In every reachable state a live entry agrees with the table exactly when no Delete of the alias has
      committed since the entry's url was read or saved, save for one after which it was saved again. */
  lemma AgreesIffNotOvertaken(ttl: int, s: State, alias: string)
    requires ttl > 0 && Reachable(ttl, s) && s.hist != [] && LiveEntry(s, alias)
    ensures Agrees(s, alias) <==> !Overtaken(s.hist, alias, s.redis[alias].url, s.redis[alias].seen)
  {
    EntriesWereHeld(ttl, s, alias);
    ReachableInsertsOnly(ttl, s);
    HeldUnlessOvertaken(s.hist, alias, s.redis[alias].url, s.redis[alias].seen);
  }

  /** This step puts an entry for the alias into Redis: with this url, which the table held at step `at`. */
  predicate Installs(s: State, l: Label, alias: string, url: string, at: nat)
    requires s.hist != []
  {
    l.CallRedis? && Enabled(s, l) && !l.outcome.FailedBefore? && At(s, l.c).call.alias == alias &&
    var b := At(s, l.c);
    (b.point == WriteRedis(at) && b.call.SaveCall? && b.call.url == url) ||
    (b.point.FlightSet? && b.point.seen == Seen(Found(url), at))
  }

  lemma InstallerSaw(ttl: int, s: State, l: Label, alias: string, url: string, at: nat)
    requires Inv(ttl, s) && Installs(s, l, alias, url, at)
    ensures Holds(s.hist, alias, url, at)
  {
    assert ClientOk(ttl, s.hist, s.flights, l.c, At(s, l.c));
  }

  /** A step breaks agreement exactly when it deletes the row under a live entry, or installs a url that
      a Delete has overtaken since it was read or saved. */
  lemma AgreementBreaksIff(ttl: int, s: State, l: Label, alias: string)
    requires ttl > 0 && s.hist != [] && Reachable(ttl, s) && Enabled(s, l) && Agrees(s, alias)
    ensures !Agrees(Step(ttl, s, l), alias) <==>
            (DeleteCommits(s, l, alias) && LiveEntry(s, alias)) ||
            exists url, at :: Installs(s, l, alias, url, at) && Overtaken(s.hist, alias, url, at)
  {
    ReachableInv(ttl, s);
    ReachableInsertsOnly(ttl, s);
    BreaksOnInstall(ttl, s, l, alias);
    forall url, at | Installs(s, l, alias, url, at)
      ensures Overtaken(s.hist, alias, url, at) <==> !Holds(s.hist, alias, url, |s.hist| - 1)
    {
      InstallerSaw(ttl, s, l, alias, url, at);
      HeldUnlessOvertaken(s.hist, alias, url, at);
    }
  }

  lemma BreaksOnInstall(ttl: int, s: State, l: Label, alias: string)
    requires ttl > 0 && s.hist != [] && Enabled(s, l) && Agrees(s, alias)
    ensures !Agrees(Step(ttl, s, l), alias) <==>
            (DeleteCommits(s, l, alias) && LiveEntry(s, alias)) ||
            exists url, at :: Installs(s, l, alias, url, at) && !Holds(s.hist, alias, url, |s.hist| - 1)
  {
    if l.CallRedis? {
      CallBreaks(ttl, s, l.c, l.outcome, alias);
    }
  }

  lemma CallBreaks(ttl: int, s: State, c: nat, outcome: Outcome, alias: string)
    requires ttl > 0 && s.hist != [] && Enabled(s, CallRedis(c, outcome)) && Agrees(s, alias)
    ensures !Agrees(StepRedis(ttl, s, c, outcome), alias) <==>
            exists url, at :: Installs(s, CallRedis(c, outcome), alias, url, at) &&
                              !Holds(s.hist, alias, url, |s.hist| - 1)
  {
    var l := CallRedis(c, outcome);
    if At(s, l.c).call.alias == alias {
      var b := At(s, l.c);
      if b.point.WriteRedis? && b.call.SaveCall? {
        assert !l.outcome.FailedBefore? ==> Installs(s, l, alias, b.call.url, b.point.at);
      } else if b.point.FlightSet? {
        assert !l.outcome.FailedBefore? ==> Installs(s, l, alias, b.point.seen.response.url, b.point.seen.at);
      }
    }
  }

  // ---------- Why an entry is stale ----------

  /** This step is the Del of a Delete of the alias, and it takes effect. */
  predicate Clears(s: State, l: Label, alias: string)
    requires s.hist != []
  {
    l.CallRedis? && Enabled(s, l) && !l.outcome.FailedBefore? &&
    At(s, l.c).point.WriteRedis? && At(s, l.c).call == DeleteCall(alias)
  }

  /** The Del of the Delete that committed at step k never takes effect in the run: the breaker skips it,
      it fails, or it is still to come. */
  predicate DelIsLost(ttl: int, s: State, ls: seq<Label>, alias: string, k: nat)
    requires s.hist != [] && Runs(ttl, s, ls)
    decreases ls
  {
    ls != [] ==>
      !(Clears(s, ls[0], alias) && At(s, ls[0].c).point.at == k) &&
      DelIsLost(ttl, Step(ttl, s, ls[0]), ls[1..], alias, k)
  }

  /** An entry older than a step was there before it, and the step did not clear it. */
  lemma EntryWasThere(ttl: int, s: State, l: Label, alias: string)
    requires s.hist != [] && Enabled(s, l) && alias in Step(ttl, s, l).redis
    requires Step(ttl, s, l).redis[alias].installed < |s.hist|
    ensures alias in s.redis && s.redis[alias] == Step(ttl, s, l).redis[alias] && !Clears(s, l, alias)
  {
  }

  lemma {:induction false} EntryWasAlwaysThere(ttl: int, s: State, ls: seq<Label>, alias: string)
    requires s.hist != [] && Runs(ttl, s, ls) && alias in After(ttl, s, ls).redis
    requires After(ttl, s, ls).redis[alias].installed < |s.hist|
    ensures alias in s.redis && s.redis[alias] == After(ttl, s, ls).redis[alias]
    decreases ls
  {
    if ls != [] {
      StepAppends(ttl, s, ls[0]);
      EntryWasAlwaysThere(ttl, Step(ttl, s, ls[0]), ls[1..], alias);
      EntryWasThere(ttl, s, ls[0], alias);
    }
  }

  /** An entry that is older than the Delete at step k has survived its Del. */
  lemma {:induction false} SurvivorsLoseTheDel(ttl: int, s: State, ls: seq<Label>, alias: string, k: nat)
    requires Inv(ttl, s) && Runs(ttl, s, ls) && alias in After(ttl, s, ls).redis
    requires After(ttl, s, ls).redis[alias].installed < k
    ensures DelIsLost(ttl, s, ls, alias, k)
    decreases ls
  {
    if ls != [] {
      var l, s' := ls[0], Step(ttl, s, ls[0]);
      StepKeepsInv(ttl, s, l);
      SurvivorsLoseTheDel(ttl, s', ls[1..], alias, k);
      if Clears(s, l, alias) && At(s, l.c).point.at == k {
        assert ClientOk(ttl, s.hist, s.flights, l.c, At(s, l.c));
        StepAppends(ttl, s, l);
        EntryWasAlwaysThere(ttl, s', ls[1..], alias);
        EntryWasThere(ttl, s, l, alias);
        assert false;
      }
    }
  }

  /** The step that installs an entry deletes no row. */
  lemma {:induction false} InstallingDeletesNothing(ttl: int, s: State, ls: seq<Label>, alias: string)
    requires Inv(ttl, s) && Runs(ttl, s, ls) && alias in After(ttl, s, ls).redis
    requires After(ttl, s, ls).redis[alias].installed >= |s.hist|
    ensures !Deleted(After(ttl, s, ls).hist, alias, After(ttl, s, ls).redis[alias].installed)
    decreases ls
  {
    if ls != [] {
      var k, s' := |s.hist|, Step(ttl, s, ls[0]);
      StepAppends(ttl, s, ls[0]);
      StepKeepsInv(ttl, s, ls[0]);
      RunAppends(ttl, s', ls[1..]);
      if After(ttl, s, ls).redis[alias].installed == k {
        EntryWasAlwaysThere(ttl, s', ls[1..], alias);
        assert alias in s.redis ==> Genuine(ttl, s.hist, alias, s.redis[alias]);
        NewEntryDeletesNothing(ttl, s, ls[0], alias);
        assert After(ttl, s, ls).hist[k] == s'.hist[k] && After(ttl, s, ls).hist[k - 1] == s'.hist[k - 1];
      } else {
        InstallingDeletesNothing(ttl, s', ls[1..], alias);
      }
    } else {
      assert Genuine(ttl, s.hist, alias, s.redis[alias]);
    }
  }

  lemma NewEntryDeletesNothing(ttl: int, s: State, l: Label, alias: string)
    requires s.hist != [] && Enabled(s, l) && alias in Step(ttl, s, l).redis
    requires alias in s.redis ==> s.redis[alias].installed < |s.hist|
    requires Step(ttl, s, l).redis[alias].installed == |s.hist|
    ensures !Deleted(Step(ttl, s, l).hist, alias, |s.hist|)
  {
    if !l.CallRedis? {
      OnlyRedisCallsInstall(ttl, s, l, alias);
      assert false;
    }
    RedisCallKeepsRows(ttl, s, l);
  }

  lemma OnlyRedisCallsInstall(ttl: int, s: State, l: Label, alias: string)
    requires s.hist != [] && Enabled(s, l) && alias in Step(ttl, s, l).redis && !l.CallRedis?
    ensures alias in s.redis && Step(ttl, s, l).redis[alias] == s.redis[alias]
  {
  }

  lemma RedisCallKeepsRows(ttl: int, s: State, l: Label)
    requires s.hist != [] && Enabled(s, l) && l.CallRedis?
    ensures var hist := Step(ttl, s, l).hist;
            |hist| == |s.hist| + 1 && hist[|s.hist| - 1] == Last(s) && hist[|s.hist|].rows == Last(s).rows
  {
  }

  /** A live entry that disagrees with the table has been overtaken by a Delete, committed at step k.
      Either the entry was installed after that, by an operation that had read or saved the url before;
      or it was there already, and the Delete's Del was skipped, failed, or is still to come. */
  lemma StaleEntryWasOvertaken(ttl: int, rows: Rows, now: int, ls: seq<Label>, alias: string) returns (k: nat)
    requires ttl > 0 && Runs(ttl, Init(rows, now), ls) && !Agrees(After(ttl, Init(rows, now), ls), alias)
    ensures var s := After(ttl, Init(rows, now), ls);
            var item := s.redis[alias];
            item.start <= item.seen < k < |s.hist| && Deleted(s.hist, alias, k) &&
            (k < item.installed || DelIsLost(ttl, Init(rows, now), ls, alias, k)) &&
            item.installed < |s.hist| && Last(s).now - s.hist[item.installed].now < ttl
  {
    var s := After(ttl, Init(rows, now), ls);
    var item := s.redis[alias];
    assert Reachable(ttl, s);
    EntriesWereHeld(ttl, s, alias);
    ReachableInsertsOnly(ttl, s);
    k := LastDelete(s.hist, alias, item.url, item.seen, |s.hist| - 1);
    InitInv(ttl, rows, now);
    if item.installed > 0 {
      InstallingDeletesNothing(ttl, Init(rows, now), ls, alias);
    }
    if item.installed < k {
      SurvivorsLoseTheDel(ttl, Init(rows, now), ls, alias, k);
    }
  }
}
