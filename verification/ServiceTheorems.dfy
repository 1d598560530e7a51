/** The service over the whole stack behaves as a plain map from trimmed aliases to trimmed urls. */
module ServiceTheorems {
  import opened Common
  import opened Random
  import opened Storage
  import opened RedisCache
  import opened Service
  import T = CacheTheorems
  import U = Uniformity

  // ---------- Trimming ----------

  predicate AllSpace(s: string) {
    forall c | c in s :: IsSpace(c)
  }

  /** No white space at either end. */
  predicate Tight(s: string) {
    s != "" ==> !IsSpace(s[0]) && !IsSpace(s[|s| - 1])
  }

  /** The characters with the Unicode property White_Space. */
  const WHITE_SPACE: string :=
    "\t\n\U{0b}\U{0c}\r \U{85}\U{a0}\U{1680}\U{2000}\U{2001}\U{2002}\U{2003}\U{2004}\U{2005}\U{2006}" +
    "\U{2007}\U{2008}\U{2009}\U{200a}\U{2028}\U{2029}\U{202f}\U{205f}\U{3000}"

  lemma SpaceIsWhite(c: char)
    ensures IsSpace(c) <==> c in WHITE_SPACE
  {
    var w := WHITE_SPACE;
    assert |w| == 25;
    assert c in w <==> exists i :: 0 <= i < 25 && w[i] == c;
    assert forall i | 0 <= i < 5 :: w[i] as int == 9 + i;
    assert w[5] == ' ' && w[6] as int == 0x85 && w[7] as int == 0xA0 && w[8] as int == 0x1680;
    assert forall i | 9 <= i < 20 :: w[i] as int == 0x2000 + (i - 9);
    assert w[20] as int == 0x2028 && w[21] as int == 0x2029 && w[22] as int == 0x202F;
    assert w[23] as int == 0x205F && w[24] as int == 0x3000;
    var n := c as int;
    if 9 <= n <= 13 {
      assert w[n - 9] == c;
    } else if 0x2000 <= n <= 0x200A {
      assert w[n - 0x2000 + 9] == c;
    }
  }

  predicate White(s: string) {
    forall c | c in s :: c in WHITE_SPACE
  }

  predicate NoWhiteEnds(s: string) {
    s != "" ==> s[0] !in WHITE_SPACE && s[|s| - 1] !in WHITE_SPACE
  }

  lemma SpaceIsAllWhite(s: string)
    ensures AllSpace(s) <==> White(s)
    ensures Tight(s) <==> NoWhiteEnds(s)
  {
    forall c: char
      ensures IsSpace(c) <==> c in WHITE_SPACE
    {
      SpaceIsWhite(c);
    }
  }

  lemma {:induction false} TrimLeftOf(pad: string, s: string)
    requires AllSpace(pad)
    ensures TrimLeft(pad + s) == TrimLeft(s)
  {
    if pad == "" {
      assert pad + s == s;
    } else {
      assert (pad + s)[1..] == pad[1..] + s;
      TrimLeftOf(pad[1..], s);
    }
  }

  lemma {:induction false} TrimRightOf(s: string, pad: string)
    requires AllSpace(pad)
    ensures TrimRight(s + pad) == TrimRight(s)
  {
    if pad == "" {
      assert s + pad == s;
    } else {
      assert pad[|pad| - 1] in pad;
      assert (s + pad)[..|s + pad| - 1] == s + pad[..|pad| - 1];
      TrimRightOf(s, pad[..|pad| - 1]);
    }
  }

  lemma TrimAround(pad: string, s: string, pad': string)
    requires AllSpace(pad) && AllSpace(pad') && Tight(s)
    ensures Trim(pad + s + pad') == s
  {
    assert pad + s + pad' == pad + (s + pad');
    TrimLeftOf(pad, s + pad');
    if s == "" {
      assert s + pad' == pad' == pad' + "";
      TrimLeftOf(pad', "");
    } else {
      TrimRightOf(s, pad');
    }
  }

  /** White space around a string that has none at its ends is all that trimming removes. */
  lemma TrimPadded(pad: string, s: string, pad': string)
    requires White(pad) && White(pad') && NoWhiteEnds(s)
    ensures Trim(pad + s + pad') == s
  {
    SpaceIsAllWhite(pad);
    SpaceIsAllWhite(pad');
    SpaceIsAllWhite(s);
    TrimAround(pad, s, pad');
  }

  /** Trimming leaves a tight string, and takes only white space off the ends. */
  lemma TrimIsTight(s: string) returns (pad: string, pad': string)
    ensures AllSpace(pad) && AllSpace(pad') && Tight(Trim(s)) && s == pad + Trim(s) + pad'
  {
    pad := TrimLeftTakes(s);
    pad' := TrimRightTakes(TrimLeft(s));
  }

  lemma {:induction false} TrimLeftTakes(s: string) returns (pad: string)
    ensures AllSpace(pad) && s == pad + TrimLeft(s) && (TrimLeft(s) != "" ==> !IsSpace(TrimLeft(s)[0]))
  {
    if s != "" && IsSpace(s[0]) {
      pad := TrimLeftTakes(s[1..]);
      pad := [s[0]] + pad;
    } else {
      pad := "";
    }
  }

  lemma {:induction false} TrimRightTakes(s: string) returns (pad: string)
    ensures AllSpace(pad) && s == TrimRight(s) + pad
    ensures TrimRight(s) != "" ==> !IsSpace(TrimRight(s)[|TrimRight(s)| - 1])
  {
    if s != "" && IsSpace(s[|s| - 1]) {
      pad := TrimRightTakes(s[..|s| - 1]);
      pad := pad + [s[|s| - 1]];
    } else {
      pad := "";
    }
  }

  /** A generated alias survives trimming unchanged. */
  lemma AliasIsTight(a: string)
    requires U.IsAlias(a)
    ensures Tight(a)
  {
    forall c | c in a
      ensures !IsSpace(c)
    {
      var i :| 0 <= i < |CHARSET| && CHARSET[i] == c;
      U.CodeOfLetter(i);
    }
  }

  // ---------- The retry loop ----------

  /** The entropy left after i draws, and what draw i yields. */
  function Drawn(s: seq<byte>, size: nat, i: nat): seq<byte>
    decreases i
  {
    if i == 0 then s else Drawn(AfterDraw(s, size), size, i - 1)
  }

  function Candidate(s: seq<byte>, size: nat, i: nat): Option<string> {
    Draw(Drawn(s, size, i), size)
  }

  /** The candidates of a retry loop are successive draws, so U.DrawsAreUniform speaks of them: they are
      jointly uniform. */
  lemma {:induction false} CandidatesAreDraws(s: seq<byte>, size: nat, aliases: seq<string>)
    ensures U.DrawsAll(s, size, aliases) <==>
            forall i | 0 <= i < |aliases| :: Candidate(s, size, i) == Some(aliases[i])
    decreases aliases
  {
    OneDraw(s, size);
    if aliases != [] {
      var rest := AfterDraw(s, size);
      CandidatesAreDraws(rest, size, aliases[1..]);
      if forall i | 0 <= i < |aliases| :: Candidate(s, size, i) == Some(aliases[i]) {
        forall i | 0 <= i < |aliases[1..]|
          ensures Candidate(rest, size, i) == Some(aliases[1..][i])
        {
          assert Candidate(s, size, i + 1) == Some(aliases[i + 1]);
        }
      }
      if U.DrawsAll(s, size, aliases) {
        forall i | 0 < i < |aliases|
          ensures Candidate(s, size, i) == Some(aliases[i])
        {
          assert Candidate(rest, size, i - 1) == Some(aliases[1..][i - 1]);
        }
      }
    }
  }

  lemma CandidatesAreUniform(L: nat, size: nat, aliases: seq<string>, others: seq<string>)
    requires U.AreAliases(aliases, size) && U.AreAliases(others, size) && |aliases| == |others|
    ensures |Drawing(L, size, aliases)| == |Drawing(L, size, others)|
  {
    U.DrawsAreUniform(L, size, aliases, others);
    DrawingIs(L, size, aliases);
    DrawingIs(L, size, others);
  }

  /** The streams of L bytes whose first candidates are these. */
  function Drawing(L: nat, size: nat, aliases: seq<string>): set<seq<byte>> {
    set s | s in U.Strings(L, 256) && AreCandidates(s, size, aliases)
  }

  predicate AreCandidates(s: seq<byte>, size: nat, aliases: seq<string>) {
    forall i | 0 <= i < |aliases| :: Candidate(s, size, i) == Some(aliases[i])
  }

  lemma DrawingIs(L: nat, size: nat, aliases: seq<string>)
    ensures Drawing(L, size, aliases) == U.DrawingAll(L, size, aliases)
  {
    forall s | s in U.Strings(L, 256)
      ensures AreCandidates(s, size, aliases) <==> U.DrawsAll(s, size, aliases)
    {
      CandidatesAreDraws(s, size, aliases);
    }
  }

  /** The context stays alive, and the database does not err. */
  predicate Undisturbed(attempts: seq<Attempt>) {
    forall i | 0 <= i < |attempts| :: !attempts[i].cancelled && !attempts[i].fault
  }

  /** Attempt i meets a collision, if it is reached: the only outcome that makes the loop go on. */
  predicate Collides(rows: Rows, s: seq<byte>, size: nat, attempts: seq<Attempt>, i: nat)
    requires i < |attempts|
  {
    !attempts[i].cancelled && !attempts[i].fault &&
    Candidate(s, size, i).Some? && Candidate(s, size, i).value in rows
  }

  /** Attempt i saves its candidate, if it is reached. */
  predicate FindsFree(rows: Rows, s: seq<byte>, size: nat, attempts: seq<Attempt>, i: nat)
    requires i < |attempts|
  {
    !attempts[i].cancelled && !attempts[i].fault &&
    Candidate(s, size, i).Some? && Candidate(s, size, i).value !in rows
  }

  /** How attempt i ends the loop. */
  function EndAt(ttl: int, size: nat, sys: System, url: string, attempts: seq<Attempt>, i: nat): (System, Reply)
    requires i <= |attempts|
  {
    var untouched := System(sys.world, Drawn(sys.entropy, size, i));
    if i == |attempts| then (untouched, Fails(Exhausted))
    else if attempts[i].cancelled then (untouched, Fails(Cancelled))
    else
      var drawn := untouched.(entropy := Drawn(sys.entropy, size, i + 1));
      match Candidate(sys.entropy, size, i)
      case None => (drawn, Fails(NoAlias))
      case Some(alias) =>
        if attempts[i].fault then (drawn, Fails(Repository(DbError)))
        else
          var saved := sys.world.(rows := sys.world.rows[alias := url]);
          (drawn.(world := SetEntry(ttl, saved, alias, url, attempts[i].set_)), Alias(alias))
  }

  /** Generated Save ends at the first attempt that does not collide, whatever comes after it.  A free
      candidate is taken: exactly its row is added, after exactly that many draws.  Otherwise the storage
      is left alone, and the error says why: the context, the generator, the database, or the budget. */
  lemma {:induction false} FirstFreeWins(ttl: int, size: nat, sys: System, url: string, attempts: seq<Attempt>)
    returns (i: nat)
    ensures i <= |attempts| && forall j: nat | j < i :: Collides(sys.world.rows, sys.entropy, size, attempts, j)
    ensures i < |attempts| ==> !Collides(sys.world.rows, sys.entropy, size, attempts, i)
    ensures SaveGenerated(ttl, size, sys, url, attempts) == EndAt(ttl, size, sys, url, attempts, i)
    decreases attempts
  {
    i := 0;
    OneDraw(sys.entropy, size);
    if attempts != [] && Collides(sys.world.rows, sys.entropy, size, attempts, 0) {
      var drawn := sys.(entropy := AfterDraw(sys.entropy, size));
      i := FirstFreeWins(ttl, size, drawn, url, attempts[1..]);
      ShiftedEnd(ttl, size, sys, url, attempts, i);
      forall j: nat | 0 < j < i + 1
        ensures Collides(sys.world.rows, sys.entropy, size, attempts, j)
      {
        assert Collides(sys.world.rows, drawn.entropy, size, attempts[1..], j - 1);
      }
      i := i + 1;
    }
  }

  lemma OneDraw(s: seq<byte>, size: nat)
    ensures Drawn(s, size, 0) == s && Drawn(s, size, 1) == AfterDraw(s, size) && Candidate(s, size, 0) == Draw(s, size)
    ensures forall k: nat :: Candidate(AfterDraw(s, size), size, k) == Candidate(s, size, k + 1)
    ensures forall k: nat :: Drawn(AfterDraw(s, size), size, k) == Drawn(s, size, k + 1)
  {
    assert Drawn(s, size, 1) == Drawn(AfterDraw(s, size), size, 0);
  }

  lemma ShiftedEnd(ttl: int, size: nat, sys: System, url: string, attempts: seq<Attempt>, i: nat)
    requires i < |attempts|
    ensures EndAt(ttl, size, sys.(entropy := AfterDraw(sys.entropy, size)), url, attempts[1..], i) ==
            EndAt(ttl, size, sys, url, attempts, i + 1)
  {
    OneDraw(sys.entropy, size);
  }

  /** ... so it succeeds exactly when some attempt finds a free candidate and all before it collide. */
  lemma SucceedsIffSomeFree(ttl: int, size: nat, sys: System, url: string, attempts: seq<Attempt>)
    ensures SaveGenerated(ttl, size, sys, url, attempts).1.Alias? <==>
            exists i: nat :: i < |attempts| && FindsFree(sys.world.rows, sys.entropy, size, attempts, i) &&
                             forall j: nat | j < i :: Collides(sys.world.rows, sys.entropy, size, attempts, j)
  {
    var i := FirstFreeWins(ttl, size, sys, url, attempts);
    if i < |attempts| && FindsFree(sys.world.rows, sys.entropy, size, attempts, i) {
      assert SaveGenerated(ttl, size, sys, url, attempts).1.Alias?;
    } else {
      forall k: nat | k < |attempts| && FindsFree(sys.world.rows, sys.entropy, size, attempts, k)
        ensures exists j: nat :: j < k && !Collides(sys.world.rows, sys.entropy, size, attempts, j)
      {
        assert !Collides(sys.world.rows, sys.entropy, size, attempts, k);
      }
    }
  }

  /** Whatever goes wrong, a generated Save that does not answer an alias has not changed the table, and
      one that does has added that one row, which was free. */
  lemma {:induction false} OneRowOrNone(ttl: int, size: nat, sys: System, url: string, attempts: seq<Attempt>)
    ensures var (sys', reply) := SaveGenerated(ttl, size, sys, url, attempts);
            if reply.Alias? then
              reply.alias !in sys.world.rows && sys'.world.rows == sys.world.rows[reply.alias := url] &&
              U.IsAlias(reply.alias) && |reply.alias| == size
            else sys'.world == sys.world
    decreases attempts
  {
    if attempts != [] && !attempts[0].cancelled && Draw(sys.entropy, size).Some? {
      U.DrawnIsAlias(sys.entropy, size);
      OneRowOrNone(ttl, size, sys.(entropy := AfterDraw(sys.entropy, size)), url, attempts[1..]);
    }
  }

  // ---------- Every answer ----------

  /** White space around any argument makes no difference to any request. */
  lemma PaddingIsIgnored(ttl: int, size: nat, sys: System, q: Request, a: string, b: string, c: string, d: string)
    requires White(a) && White(b) && White(c) && White(d) && NoWhiteEnds(q.alias)
    requires q.SaveRequest? ==> NoWhiteEnds(q.url)
    requires q.SaveRequest? ==> q.attempts != []
    ensures var padded := q.(alias := a + q.alias + b);
            Serve(ttl, size, sys, if q.SaveRequest? then padded.(url := c + q.url + d) else padded) ==
            Serve(ttl, size, sys, q)
  {
    Unpadded(a, q.alias, b);
    if q.SaveRequest? {
      Unpadded(c, q.url, d);
    }
  }

  lemma Unpadded(pad: string, s: string, pad': string)
    requires White(pad) && White(pad') && NoWhiteEnds(s)
    ensures Trim(pad + s + pad') == s == Trim(s)
  {
    TrimPadded(pad, s, pad');
    TrimPadded("", s, "");
    assert "" + s + "" == s;
  }

  /** What a Get answers, in every state and whatever fails: a live entry that Redis serves, and otherwise what
      the table calls for, or a database error exactly if the database errs.  The table stays as it is. */
  lemma GetAnswers(ttl: int, size: nat, sys: System, alias: string, read: Try, fault: bool, t: Try)
    ensures var a, w := Trim(alias), sys.world;
            var (sys', reply) := Serve(ttl, size, sys, GetRequest(alias, read, fault, t));
            sys'.entropy == sys.entropy && sys'.world.rows == w.rows &&
            if a == "" then reply == Fails(EmptyAlias) && sys' == sys
            else if read.check >= w.downUntil && read.outcome == Answered && a in w.entries &&
                    read.call < w.entries[a].deadline then
              reply == Url(w.entries[a].url) && sys' == sys
            else if fault then reply == Fails(Repository(DbError)) && sys'.world.entries == w.entries
            else if a in w.rows then reply == Url(w.rows[a])
            else reply == Fails(Repository(UrlNotFound)) && sys'.world.entries == w.entries
  {
  }

  /** What a Delete answers: only a row that is there is removed, and only then is it gone.  An error leaves
      everything as it is. */
  lemma DeleteAnswers(ttl: int, size: nat, sys: System, alias: string, fault: bool, t: Try)
    ensures var a, w := Trim(alias), sys.world;
            var (sys', reply) := Serve(ttl, size, sys, DeleteRequest(alias, fault, t));
            if a == "" then reply == Fails(EmptyAlias) && sys' == sys
            else if fault then reply == Fails(Repository(DbError)) && sys' == sys
            else if a !in w.rows then reply == Fails(Repository(UrlNotFound)) && sys' == sys
            else reply == Gone && sys'.world.rows == w.rows - {a} && sys'.entropy == sys.entropy
  {
  }

  /** What a Save under a given alias answers.  It makes one attempt, does not look at the context, and draws
      nothing; an error leaves everything as it is. */
  lemma ChosenSaveAnswers(ttl: int, size: nat, sys: System, url: string, alias: string, attempts: seq<Attempt>)
    requires attempts != [] && Trim(alias) != ""
    ensures var a, w := Trim(alias), sys.world;
            var (sys', reply) := Serve(ttl, size, sys, SaveRequest(url, alias, attempts));
            if Trim(url) == "" then reply == Fails(InvalidUrl) && sys' == sys
            else if attempts[0].fault then reply == Fails(Repository(DbError)) && sys' == sys
            else if a in w.rows then reply == Fails(Repository(UrlExists)) && sys' == sys
            else reply == Alias(a) && sys'.world.rows == w.rows[a := Trim(url)] && sys'.entropy == sys.entropy
  {
  }

  /** A Save without an alias is the retry loop, with the trimmed url; a blank url is refused first. */
  lemma GeneratedSaveAnswers(ttl: int, size: nat, sys: System, url: string, alias: string, attempts: seq<Attempt>)
    returns (i: nat)
    requires attempts != [] && Trim(alias) == ""
    ensures Trim(url) == "" ==>
              Serve(ttl, size, sys, SaveRequest(url, alias, attempts)) == (sys, Fails(InvalidUrl))
    ensures Trim(url) != "" ==>
              i <= |attempts| && (i < |attempts| ==> !Collides(sys.world.rows, sys.entropy, size, attempts, i)) &&
              (forall j: nat | j < i :: Collides(sys.world.rows, sys.entropy, size, attempts, j)) &&
              Serve(ttl, size, sys, SaveRequest(url, alias, attempts)) ==
              EndAt(ttl, size, sys, Trim(url), attempts, i)
  {
    i := FirstFreeWins(ttl, size, sys, Trim(url), attempts);
  }

  // ---------- A plain map ----------

  /** The specification: a map and the entropy, and no cache. */
  datatype Plain = Plain(rows: Rows, entropy: seq<byte>)

  function PlainSave(rows: Rows, url: string, alias: string): (Rows, Reply) {
    if alias in rows then (rows, Fails(Repository(UrlExists))) else (rows[alias := url], Alias(alias))
  }

  function PlainGenerated(size: nat, p: Plain, url: string, tries: nat): (Plain, Reply)
    decreases tries
  {
    if tries == 0 then (p, Fails(Exhausted))
    else
      var rest := AfterDraw(p.entropy, size);
      match Draw(p.entropy, size)
      case None => (p.(entropy := rest), Fails(NoAlias))
      case Some(alias) =>
        if alias in p.rows then PlainGenerated(size, Plain(p.rows, rest), url, tries - 1)
        else (Plain(p.rows[alias := url], rest), Alias(alias))
  }

  function PlainServe(size: nat, p: Plain, q: Request): (Plain, Reply) {
    match q
    case SaveRequest(url, alias, attempts) =>
      if Trim(url) == "" then (p, Fails(InvalidUrl))
      else if Trim(alias) != "" then
        var (rows, reply) := PlainSave(p.rows, Trim(url), Trim(alias));
        (p.(rows := rows), reply)
      else PlainGenerated(size, p, Trim(url), |attempts|)
    case GetRequest(alias, _, _, _) =>
      if Trim(alias) == "" then (p, Fails(EmptyAlias))
      else if Trim(alias) in p.rows then (p, Url(p.rows[Trim(alias)]))
      else (p, Fails(Repository(UrlNotFound)))
    case DeleteRequest(alias, _, _) =>
      if Trim(alias) == "" then (p, Fails(EmptyAlias))
      else if Trim(alias) in p.rows then (p.(rows := p.rows - {Trim(alias)}), Gone)
      else (p, Fails(Repository(UrlNotFound)))
  }

  // ---------- Refinement ----------

  /** From t on, Redis serves nothing but what the table holds. */
  ghost predicate Coherent(w: World, t: int) {
    forall alias :: T.Agrees(w, alias, t)
  }

  lemma OperationKeepsCoherence(ttl: int, w: World, op: Op, alias: string)
    requires T.WellTimed(op) && Coherent(w, T.Begin(op)) && op.alias == alias && !T.LosesDel(w, op, alias)
    ensures Coherent(Perform(ttl, w, op).0, T.End(op))
    ensures op.Get? && !op.fault ==> Perform(ttl, w, op).1 == Select(w.rows, alias, false)
  {
    assert T.Agrees(w, alias, T.Begin(op));
    forall other
      ensures T.Agrees(Perform(ttl, w, op).0, other, T.End(op))
    {
      assert T.Agrees(w, other, T.Begin(op));
      T.AgreementBreaksIff(ttl, w, op, other, T.End(op));
    }
  }

  lemma StaysCoherent(w: World, t: int, t': int)
    requires Coherent(w, t) && t <= t'
    ensures Coherent(w, t')
  {
    forall alias
      ensures T.Agrees(w, alias, t')
    {
      assert T.Agrees(w, alias, t);
    }
  }

  /** Attempts come one after another. */
  predicate AttemptsTimed(attempts: seq<Attempt>) {
    (forall i | 0 <= i < |attempts| :: T.InOrder(attempts[i].set_)) &&
    forall i, j | 0 <= i < j < |attempts| :: attempts[i].set_.mark <= attempts[j].set_.check
  }

  lemma {:induction false} GeneratedRefines(ttl: int, size: nat, sys: System, url: string,
                                            attempts: seq<Attempt>, t: int, t': int)
    requires Undisturbed(attempts) && AttemptsTimed(attempts) && Coherent(sys.world, t) && t <= t'
    requires attempts != [] ==> t <= attempts[0].set_.check && attempts[|attempts| - 1].set_.mark <= t'
    ensures var (sys', reply) := SaveGenerated(ttl, size, sys, url, attempts);
            (Plain(sys'.world.rows, sys'.entropy), reply) ==
              PlainGenerated(size, Plain(sys.world.rows, sys.entropy), url, |attempts|) &&
            Coherent(sys'.world, t')
    decreases attempts
  {
    StaysCoherent(sys.world, t, t');
    if attempts != [] && Draw(sys.entropy, size).Some? {
      var alias, a := Draw(sys.entropy, size).value, attempts[0];
      var drawn := sys.(entropy := AfterDraw(sys.entropy, size));
      if alias in sys.world.rows {
        var last := |attempts| - 1;
        if last > 0 {
          assert attempts[1..][last - 1] == attempts[last] && attempts[1..][0] == attempts[1];
        }
        GeneratedRefines(ttl, size, drawn, url, attempts[1..], t, t');
      } else {
        SaveKeepsCoherence(ttl, sys.world, url, alias, a, t, t', attempts);
      }
    }
  }

  lemma SaveKeepsCoherence(ttl: int, w: World, url: string, alias: string, a: Attempt,
                           t: int, t': int, attempts: seq<Attempt>)
    requires attempts != [] && AttemptsTimed(attempts) && a == attempts[0] && Coherent(w, t)
    requires t <= a.set_.check && attempts[|attempts| - 1].set_.mark <= t'
    ensures Coherent(Perform(ttl, w, Op.Save(url, alias, a.fault, a.set_)).0, t')
  {
    var op := Op.Save(url, alias, a.fault, a.set_);
    StaysCoherent(w, t, a.set_.check);
    OperationKeepsCoherence(ttl, w, op, alias);
    StaysCoherent(Perform(ttl, w, op).0, a.set_.mark, t');
  }

  predicate Timed(q: Request) {
    match q
    case SaveRequest(_, _, attempts) => attempts != [] && AttemptsTimed(attempts)
    case GetRequest(alias, read, fault, t) => T.WellTimed(Op.Get(alias, read, fault, t))
    case DeleteRequest(alias, fault, t) => T.WellTimed(Op.Delete(alias, fault, t))
  }

  function BeginOf(q: Request): int
    requires Timed(q)
  {
    match q
    case SaveRequest(_, _, attempts) => attempts[0].set_.check
    case GetRequest(_, read, _, _) => read.check
    case DeleteRequest(_, _, t) => t.check
  }

  function EndOf(q: Request): int
    requires Timed(q)
  {
    match q
    case SaveRequest(_, _, attempts) => attempts[|attempts| - 1].set_.mark
    case GetRequest(_, _, _, t) => t.mark
    case DeleteRequest(_, _, t) => t.mark
  }

  /** The database does not err, the context lives, and a Delete reaches Redis.  Redis may fail
      everywhere else. */
  predicate Benign(w: World, q: Request) {
    match q
    case SaveRequest(_, _, attempts) => Undisturbed(attempts)
    case GetRequest(_, _, fault, _) => !fault
    case DeleteRequest(alias, fault, t) => !fault && !T.LosesDel(w, Op.Delete(Trim(alias), fault, t), Trim(alias))
  }

  lemma BeginBeforeEnd(q: Request)
    requires Timed(q)
    ensures BeginOf(q) <= EndOf(q)
  {
    if q.SaveRequest? && |q.attempts| > 1 {
      assert q.attempts[0].set_.mark <= q.attempts[|q.attempts| - 1].set_.check;
    }
  }

  /** One request answers and changes the table as the plain map does. */
  lemma RequestRefines(ttl: int, size: nat, sys: System, q: Request)
    requires Timed(q) && Benign(sys.world, q) && Coherent(sys.world, BeginOf(q))
    ensures var (sys', reply) := Serve(ttl, size, sys, q);
            (Plain(sys'.world.rows, sys'.entropy), reply) == PlainServe(size, Plain(sys.world.rows, sys.entropy), q) &&
            Coherent(sys'.world, EndOf(q))
  {
    BeginBeforeEnd(q);
    StaysCoherent(sys.world, BeginOf(q), EndOf(q));
    match q
    case SaveRequest(url, alias, attempts) =>
      if Trim(alias) != "" {
        SaveKeepsCoherence(ttl, sys.world, Trim(url), Trim(alias), attempts[0], BeginOf(q), EndOf(q), attempts);
      } else {
        GeneratedRefines(ttl, size, sys, Trim(url), attempts, BeginOf(q), EndOf(q));
      }
    case GetRequest(alias, read, fault, t) =>
      OperationKeepsCoherence(ttl, sys.world, Op.Get(Trim(alias), read, fault, t), Trim(alias));
    case DeleteRequest(alias, fault, t) =>
      OperationKeepsCoherence(ttl, sys.world, Op.Delete(Trim(alias), fault, t), Trim(alias));
  }

  /** Requests that do not overlap. */
  predicate Sequential(qs: seq<Request>) {
    (forall i | 0 <= i < |qs| :: Timed(qs[i])) && forall i, j | 0 <= i < j < |qs| :: EndOf(qs[i]) <= BeginOf(qs[j])
  }

  function After(ttl: int, size: nat, sys: System, qs: seq<Request>, n: nat): System
    requires Sequential(qs) && n <= |qs|
  {
    if n == 0 then sys else Serve(ttl, size, After(ttl, size, sys, qs, n - 1), qs[n - 1]).0
  }

  function PlainAfter(size: nat, p: Plain, qs: seq<Request>, n: nat): Plain
    requires n <= |qs|
  {
    if n == 0 then p else PlainServe(size, PlainAfter(size, p, qs, n - 1), qs[n - 1]).0
  }

  predicate AllBenign(ttl: int, size: nat, sys: System, qs: seq<Request>, n: nat)
    requires Sequential(qs) && n <= |qs|
  {
    forall i | 0 <= i < n :: Benign(After(ttl, size, sys, qs, i).world, qs[i])
  }

  lemma {:induction false} RunsAgree(ttl: int, size: nat, sys: System, qs: seq<Request>, n: nat, t: int)
    requires Sequential(qs) && n <= |qs| && AllBenign(ttl, size, sys, qs, n)
    requires Coherent(sys.world, t) && (qs != [] ==> t <= BeginOf(qs[0]))
    ensures var s := After(ttl, size, sys, qs, n);
            Plain(s.world.rows, s.entropy) == PlainAfter(size, Plain(sys.world.rows, sys.entropy), qs, n) &&
            Coherent(s.world, if n == 0 then t else EndOf(qs[n - 1]))
  {
    if n > 0 {
      RunsAgree(ttl, size, sys, qs, n - 1, t);
      var before := After(ttl, size, sys, qs, n - 1);
      StaysCoherent(before.world, if n == 1 then t else EndOf(qs[n - 2]), BeginOf(qs[n - 1]));
      RequestRefines(ttl, size, before, qs[n - 1]);
    }
  }

  /** Every request of a run that does not overlap answers as a plain map keyed by trimmed aliases. */
  lemma ServiceIsAMap(ttl: int, size: nat, sys: System, qs: seq<Request>, n: nat, t: int)
    requires Sequential(qs) && n < |qs| && AllBenign(ttl, size, sys, qs, n + 1)
    requires Coherent(sys.world, t) && t <= BeginOf(qs[0])
    ensures Serve(ttl, size, After(ttl, size, sys, qs, n), qs[n]).1 ==
            PlainServe(size, PlainAfter(size, Plain(sys.world.rows, sys.entropy), qs, n), qs[n]).1
  {
    RunsAgree(ttl, size, sys, qs, n, t);
    var before := After(ttl, size, sys, qs, n);
    StaysCoherent(before.world, if n == 0 then t else EndOf(qs[n - 1]), BeginOf(qs[n]));
    RequestRefines(ttl, size, before, qs[n]);
  }

  /** After a Save, the alias it answered resolves to the trimmed url, whatever white space surrounds it
      and however long ago its entry expired, exactly if an alias was given or generated ones have
      letters.  Otherwise the alias is empty, and Get refuses it. */
  lemma SaveThenPaddedGet(ttl: int, size: nat, sys: System, save: Request, get: Request, pad: string, pad': string)
    requires Timed(save) && Timed(get) && EndOf(save) <= BeginOf(get) && Coherent(sys.world, BeginOf(save))
    requires save.SaveRequest? && Benign(sys.world, save) && get.GetRequest? && !get.fault
    requires Serve(ttl, size, sys, save).1.Alias?
    requires White(pad) && White(pad') && get.alias == pad + Serve(ttl, size, sys, save).1.alias + pad'
    ensures var reply := Serve(ttl, size, Serve(ttl, size, sys, save).0, get).1;
            (reply == Url(Trim(save.url)) <==> Trim(save.alias) != "" || size > 0) &&
            (reply != Url(Trim(save.url)) ==> reply == Fails(EmptyAlias))
  {
    var (sys', reply) := Serve(ttl, size, sys, save);
    RequestRefines(ttl, size, sys, save);
    StaysCoherent(sys'.world, EndOf(save), BeginOf(get));
    RequestRefines(ttl, size, sys', get);
    SavedAliasIsTight(ttl, size, sys, save);
    SpaceIsAllWhite(pad);
    SpaceIsAllWhite(pad');
    TrimAround(pad, reply.alias, pad');
  }

  /** It does happen: with aliases of no letters the first generated Save succeeds, with the empty alias. */
  lemma EmptyAliasIsSaved(ttl: int, url: string, a: Attempt, get: Request)
    requires Trim(url) != "" && !a.cancelled && !a.fault && T.InOrder(a.set_)
    requires Timed(get) && get.GetRequest? && a.set_.mark <= get.read.check && !get.fault && White(get.alias)
    ensures var (sys, reply) := Serve(ttl, 0, System(World(map[], map[], 0), []), SaveRequest(url, "", [a]));
            reply == Alias("") && sys.world.rows == map["" := Trim(url)] &&
            Serve(ttl, 0, sys, get).1 == Fails(EmptyAlias)
  {
    TrimPadded(get.alias, "", "");
    assert get.alias + "" + "" == get.alias;
  }

  /** The alias a Save answers is tight, and its row holds the trimmed url. */
  lemma SavedAliasIsTight(ttl: int, size: nat, sys: System, save: Request)
    requires save.SaveRequest? && save.attempts != [] && Serve(ttl, size, sys, save).1.Alias?
    ensures var (sys', reply) := Serve(ttl, size, sys, save);
            Tight(reply.alias) && (reply.alias == "" <==> Trim(save.alias) == "" && size == 0) &&
            reply.alias in sys'.world.rows && sys'.world.rows[reply.alias] == Trim(save.url)
  {
    if Trim(save.alias) != "" {
      var _, _ := TrimIsTight(save.alias);
    } else {
      OneRowOrNone(ttl, size, sys, Trim(save.url), save.attempts);
      AliasIsTight(Serve(ttl, size, sys, save).1.alias);
    }
  }
}
